/**
 The deterministic seed plan: how many albums each artist gets, how many songs
 each album gets, and the rows of the three benchmark tables, as a function of
 the scale and of the word stream the generator produces.
 */
module SeedPlan {
  import opened Machine
  import opened SplitMix

  datatype Scale = Scale(artists: u32, albums: u32, maxSongsPerAlbum: u32, songsCap: u64)

  datatype Artist = Artist(id: int, country: string, formedYear: int)
  datatype Album = Album(id: int, artistId: int, releaseYear: int)
  datatype Song = Song(id: int, albumId: int, artistId: int, durationMs: int)

  datatype Summary = Summary(totalAlbums: nat, totalSongs: nat)
  datatype Emit = Emit(artists: bool, albums: bool, songs: bool)

  const COUNTRIES := ["US", "UK", "DE", "FR", "JP", "BR", "CA", "AU", "SE", "NL"]

  /**
   The full walk so far: the stream position, the albums still to hand out, the
   three tables, and two ledgers: `shares[i]` is the number of albums granted to
   artist i + 1 and `drawn[i]` the number of songs drawn for album i + 1 before
   the cap on songs was applied.
   */
  datatype Plan = Plan(
    pos: nat, quota: int,
    artists: seq<Artist>, albums: seq<Album>, songs: seq<Song>,
    shares: seq<nat>, drawn: seq<nat>)

  function Max(a: int, b: int): int {
    if a < b then b else a
  }

  function Min(a: int, b: int): int {
    if a < b then a else b
  }

  function SongQuota(scale: Scale): int {
    AsI64(scale.songsCap)
  }

  /** The number of albums granted to the artist with 0-based index `a`, who is not the last. */
  function Grant(scale: Scale, words: Stream, pos: nat, quota: int, a: nat): (r: nat)
    requires a + 1 < scale.artists
  {
    var remaining := scale.artists - a;
    var cap := Max(quota - (remaining - 1), 1);
    Max(Min(1 + Below(words, pos, GrantBound(scale, quota, a)), cap), 1)
  }

  /** The argument of the draw in `Grant`: twice the average share, in 32 bits. */
  function GrantBound(scale: Scale, quota: int, a: nat): u32
    requires a < scale.artists
  {
    AsU32(AsU32(Average(quota, scale.artists - a)) * 2)
  }

  /** `(quota / remaining).max(1)`. */
  function Average(quota: int, remaining: int): int
    requires remaining > 0
  {
    Max(Quotient(quota, remaining), 1)
  }

  function NewSongs(words: Stream, pos: nat, n: nat, firstId: int, albumId: int, artistId: int): (r: seq<Song>)
    ensures |r| == n
  {
    seq(n, i requires 0 <= i => Song(firstId + i, albumId, artistId, 60000 + Below(words, pos + i, 360000)))
  }

  function SongsDrawn(scale: Scale, words: Stream, pos: nat): nat {
    1 + Below(words, pos, scale.maxSongsPerAlbum)
  }

  /** A draw of songs, cut to what the cap leaves. */
  function Capped(scale: Scale, have: nat, drawn: nat): nat {
    if have + drawn > SongQuota(scale) then Max(SongQuota(scale) - have, 0) else drawn
  }

  /** One iteration of the album loop with everything emitted. */
  function AddAlbum(scale: Scale, words: Stream, p: Plan, artistId: int): Plan {
    var drawn := SongsDrawn(scale, words, p.pos);
    var n := Capped(scale, |p.songs|, drawn);
    var songPos := p.pos + Cost(scale.maxSongsPerAlbum);
    var albumId := |p.albums| + 1;
    var songs := NewSongs(words, songPos, n, |p.songs| + 1, albumId, artistId);
    var album := Album(albumId, artistId, 1960 + Below(words, songPos + n, 65));
    p.(pos := songPos + n + 1, albums := p.albums + [album], songs := p.songs + songs, drawn := p.drawn + [drawn])
  }

  function AddAlbums(scale: Scale, words: Stream, p: Plan, artistId: int, k: nat): Plan {
    if k == 0 then p else AddAlbum(scale, words, AddAlbums(scale, words, p, artistId, k - 1), artistId)
  }

  /** The part of the artist loop before its albums: the grant. */
  function GrantAlbums(scale: Scale, words: Stream, p: Plan): Plan
    requires |p.artists| < scale.artists
  {
    var a := |p.artists|;
    if a == scale.artists - 1 then
      p.(quota := 0, shares := p.shares + [Max(p.quota, 0)])
    else
      var share := Grant(scale, words, p.pos, p.quota, a);
      p.(pos := p.pos + Cost(GrantBound(scale, p.quota, a)), quota := p.quota - share, shares := p.shares + [share])
  }

  /** The part of the artist loop after its albums: the artist row. */
  function AddArtistRow(words: Stream, p: Plan): Plan {
    var country := COUNTRIES[Below(words, p.pos, 10)];
    var artist := Artist(|p.artists| + 1, country, 1950 + Below(words, p.pos + 1, 75));
    p.(pos := p.pos + 2, artists := p.artists + [artist])
  }

  /** One iteration of the artist loop with everything emitted. */
  function AddArtist(scale: Scale, words: Stream, p: Plan): (r: Plan)
    requires |p.artists| < scale.artists
  {
    var granted := GrantAlbums(scale, words, p);
    var share := granted.shares[|p.shares|];
    AddArtistRow(words, AddAlbums(scale, words, granted, |p.artists| + 1, share))
  }

  function Start(scale: Scale): Plan {
    Plan(0, scale.albums, [], [], [], [], [])
  }

  lemma {:induction false} AddAlbumsKeeps(scale: Scale, words: Stream, p: Plan, artistId: int, k: nat)
    ensures AddAlbums(scale, words, p, artistId, k).artists == p.artists
    ensures AddAlbums(scale, words, p, artistId, k).shares == p.shares
    ensures AddAlbums(scale, words, p, artistId, k).quota == p.quota
  {
    if k == 0 {
    } else {
      AddAlbumsKeeps(scale, words, p, artistId, k - 1);
    }
  }

  /** The walk after its first `k` artists. */
  function Prefix(scale: Scale, words: Stream, k: nat): (p: Plan)
    requires k <= scale.artists
    ensures |p.artists| == k
  {
    if k == 0 then Start(scale) else
      var before := Prefix(scale, words, k - 1);
      var granted := GrantAlbums(scale, words, before);
      AddAlbumsKeeps(scale, words, granted, k, granted.shares[|before.shares|]);
      AddArtist(scale, words, before)
  }

  /** The plan the walk produces when every row kind is emitted. */
  function FullPlan(scale: Scale, words: Stream): Plan {
    Prefix(scale, words, scale.artists)
  }

  // The walk itself

  /** What a walk has handed to its callbacks, in order, and its two counters. */
  datatype Emission = Emission(
    artists: seq<Artist>, albums: seq<Album>, songs: seq<Song>, albumCounter: nat, songCounter: nat)

  /** The part of a plan that a walk with the given flags shows. */
  function Shown(emit: Emit, p: Plan): Emission {
    Emission(if emit.artists then p.artists else [], if emit.albums then p.albums else [],
             if emit.songs then p.songs else [], |p.albums|, |p.songs|)
  }

  /** `walk_seed_plan_select`. A walk that does not emit songs skips their draws instead of making them. */
  method Walk(scale: Scale, seed: u64, emit: Emit) returns (e: Emission)
    ensures e == Shown(emit, FullPlan(scale, StreamOf(seed)))
  {
    var rng := new Rng(seed);
    e := Emission([], [], [], 0, 0);
    ghost var p := Start(scale);
    var albumQuota: int := scale.albums;
    for a := 0 to scale.artists
      invariant p == Prefix(scale, StreamOf(seed), a)
      invariant rng.Valid() && fresh(rng) && rng.seed == seed && rng.position == p.pos
      invariant albumQuota == p.quota
      invariant e == Shown(emit, p)
    {
      e, albumQuota := WalkArtist(scale, rng, emit, a, albumQuota, e, p);
      p := AddArtist(scale, StreamOf(seed), p);
    }
  }

  /** The body of the artist loop. */
  method WalkArtist(scale: Scale, rng: Rng, emit: Emit, a: nat, quota: int, before: Emission, ghost p: Plan)
    returns (e: Emission, albumQuota: int)
    requires a == |p.artists| < scale.artists && quota == p.quota
    requires rng.Valid() && rng.position == p.pos && before == Shown(emit, p)
    modifies rng
    ensures rng.Valid()
    ensures
      var q := AddArtist(scale, StreamOf(rng.seed), p);
      rng.position == q.pos && albumQuota == q.quota && e == Shown(emit, q)
  {
    ghost var granted := GrantAlbums(scale, StreamOf(rng.seed), p);
    var desired := DesiredAlbums(scale, rng, a, quota, p);
    albumQuota := quota - desired;
    e := WalkGranted(scale, rng, emit, a + 1, desired, before, granted);
  }

  /** The albums of one artist, then the artist's own row. */
  method WalkGranted(scale: Scale, rng: Rng, emit: Emit, artistId: int, desired: int, before: Emission, ghost p: Plan)
    returns (e: Emission)
    requires rng.Valid() && rng.position == p.pos && before == Shown(emit, p) && artistId == |p.artists| + 1
    modifies rng
    ensures rng.Valid()
    ensures
      var q := AddArtistRow(StreamOf(rng.seed), AddAlbums(scale, StreamOf(rng.seed), p, artistId, Max(desired, 0)));
      rng.position == q.pos && q.quota == p.quota && e == Shown(emit, q)
  {
    hide Output, Below, AddAlbums;
    AddAlbumsKeeps(scale, StreamOf(rng.seed), p, artistId, Max(desired, 0));
    e := WalkAlbums(scale, rng, emit, artistId, desired, before, p);
    var country := rng.GenRange(10);
    var year := rng.GenRange(75);
    if emit.artists {
      e := e.(artists := e.artists + [Artist(artistId, COUNTRIES[country], 1950 + year)]);
    }
  }

  /** The head of the artist loop: how many albums this artist gets. */
  method DesiredAlbums(scale: Scale, rng: Rng, a: nat, albumsRemaining: int, ghost p: Plan) returns (desired: int)
    requires a == |p.artists| < scale.artists && albumsRemaining == p.quota
    requires rng.Valid() && rng.position == p.pos
    modifies rng
    ensures rng.Valid()
    ensures
      GrantAlbums(scale, StreamOf(rng.seed), p) ==
        p.(pos := rng.position, quota := p.quota - desired, shares := p.shares + [Max(desired, 0)])
  {
    var artistsRemaining := scale.artists - a;
    var avg := Average(albumsRemaining, artistsRemaining);
    if a == scale.artists - 1 {
      desired := albumsRemaining;
    } else {
      var cap := Max(albumsRemaining - (artistsRemaining - 1), 1);
      var r := rng.GenRange(AsU32(AsU32(avg) * 2));
      desired := Max(Min(1 + r, cap), 1);
    }
  }

  /** The album loop of one artist. */
  method WalkAlbums(scale: Scale, rng: Rng, emit: Emit, artistId: int, desired: int, before: Emission, ghost p: Plan)
    returns (e: Emission)
    requires rng.Valid() && rng.position == p.pos && before == Shown(emit, p)
    modifies rng
    ensures rng.Valid()
    ensures
      var q := AddAlbums(scale, StreamOf(rng.seed), p, artistId, Max(desired, 0));
      rng.position == q.pos && e == Shown(emit, q)
  {
    hide Output, AddAlbum;
    e := before;
    ghost var q := p;
    for i := 0 to Max(desired, 0)
      invariant q == AddAlbums(scale, StreamOf(rng.seed), p, artistId, i)
      invariant rng.Valid() && rng.position == q.pos && e == Shown(emit, q)
    {
      e := WalkAlbum(scale, rng, emit, artistId, e, q);
      q := AddAlbum(scale, StreamOf(rng.seed), q, artistId);
    }
  }

  /** The body of the album loop. */
  method WalkAlbum(scale: Scale, rng: Rng, emit: Emit, artistId: int, before: Emission, ghost p: Plan)
    returns (e: Emission)
    requires rng.Valid() && rng.position == p.pos && before == Shown(emit, p)
    modifies rng
    ensures rng.Valid()
    ensures
      var q := AddAlbum(scale, StreamOf(rng.seed), p, artistId);
      rng.position == q.pos && e == Shown(emit, q)
  {
    hide Output, Below;
    e := before;
    ghost var words, q := StreamOf(rng.seed), AddAlbum(scale, StreamOf(rng.seed), p, artistId);
    var songQuota := AsI64(scale.songsCap);
    var r := rng.GenRange(scale.maxSongsPerAlbum);
    var songsThisAlbum := 1 + r as int;
    if e.songCounter + songsThisAlbum > songQuota {
      songsThisAlbum := Max(songQuota - e.songCounter, 0);
    }
    assert songsThisAlbum == Capped(scale, |p.songs|, SongsDrawn(scale, words, p.pos));
    ghost var added := NewSongs(words, rng.position, songsThisAlbum, |p.songs| + 1, |p.albums| + 1, artistId);
    assert q.songs == p.songs + added;
    var albumId := e.albumCounter + 1;
    var songs, songCounter := e.songs, e.songCounter + songsThisAlbum;
    if emit.songs {
      songs, songCounter := EmitSongs(rng, e.songs, e.songCounter, songsThisAlbum, albumId, artistId);
    } else {
      rng.Skip(songsThisAlbum);
    }
    assert songs == if emit.songs then q.songs else [];
    assert songCounter == |q.songs|;
    var year := rng.GenRange(65);
    var album := Album(albumId, artistId, 1960 + year);
    assert q.albums == p.albums + [album];
    e := Emission(e.artists, if emit.albums then e.albums + [album] else e.albums, songs, albumId, songCounter);
  }

  /** The innermost loop of the walk: `n` songs, one draw each. */
  method EmitSongs(rng: Rng, before: seq<Song>, counter: nat, n: nat, albumId: int, artistId: int)
    returns (songs: seq<Song>, songCounter: nat)
    requires rng.Valid()
    modifies rng
    ensures rng.Valid() && rng.position == old(rng.position) + n
    ensures songs == before + NewSongs(StreamOf(rng.seed), old(rng.position), n, counter + 1, albumId, artistId)
    ensures songCounter == counter + n
  {
    hide Output, Below;
    songs, songCounter := before, counter;
    ghost var start := rng.position;
    ghost var added := NewSongs(StreamOf(rng.seed), start, n, counter + 1, albumId, artistId);
    for i := 0 to n
      invariant rng.Valid() && rng.position == start + i
      invariant songs == before + added[..i]
      invariant songCounter == counter + i
    {
      songCounter := songCounter + 1;
      var r := rng.GenRange(360000);
      songs := songs + [Song(songCounter, albumId, artistId, 60000 + r)];
      assert added[..i + 1] == added[..i] + [added[i]];
    }
    assert added[..n] == added;
  }

  /** `summarize_seed_plan`: a walk that emits nothing. */
  method Summarize(scale: Scale, seed: u64) returns (summary: Summary)
    ensures
      var plan := FullPlan(scale, StreamOf(seed));
      summary == Summary(|plan.albums|, |plan.songs|)
  {
    var e := Walk(scale, seed, Emit(false, false, false));
    summary := Summary(e.albumCounter, e.songCounter);
  }

  /**
   The seeding of the benchmark: the summary and the three tables come from four separate
   walks, which are parts of one plan.
   */
  method SeedTables(scale: Scale, seed: u64)
    returns (summary: Summary, artists: seq<Artist>, albums: seq<Album>, songs: seq<Song>)
    ensures
      var plan := FullPlan(scale, StreamOf(seed));
      && artists == plan.artists && albums == plan.albums && songs == plan.songs
      && summary == Summary(|albums|, |songs|)
  {
    hide FullPlan;
    summary := Summarize(scale, seed);
    var e := Walk(scale, seed, Emit(true, false, false));
    artists := e.artists;
    e := Walk(scale, seed, Emit(false, true, false));
    albums := e.albums;
    e := Walk(scale, seed, Emit(false, false, true));
    songs := e.songs;
  }
}
