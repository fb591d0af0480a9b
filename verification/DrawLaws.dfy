/**
 Which word decides which value: every share, draw and column of the seeded tables is a
 stated reduction of the word at a stated position of the stream, and the position is a
 closed form in the two ledgers.
 */
module DrawLaws {
  import opened Machine
  import opened SplitMix
  import opened SeedPlan
  import opened PlanLaws

  // Positions

  /** The word that draws the share of artist a + 1. */
  function SharePosition(scale: Scale, shares: seq<nat>, drawn: seq<nat>, a: nat): nat
    requires a <= |shares| && Sum(shares[..a]) <= |drawn|
  {
    var n := Sum(shares[..a]);
    AlbumWords(scale, n, SongBound(scale, drawn, n)) + 3 * a
  }

  /** The first word of album i + 1, which belongs to artist a + 1; all artists but the last drew a share. */
  function AlbumPosition(scale: Scale, drawn: seq<nat>, i: nat, a: nat): nat
    requires i <= |drawn|
  {
    AlbumWords(scale, i, SongBound(scale, drawn, i)) + 2 * a + (if a + 1 == scale.artists then a else a + 1)
  }

  /** The first word of a song or of the release year: an album that may have one song only draws no number. */
  function AfterNumber(scale: Scale, pos: nat): nat {
    if scale.maxSongsPerAlbum == 0 then pos else pos + 1
  }

  // Values

  ghost predicate ShareDrawn(scale: Scale, words: Stream, shares: seq<nat>, drawn: seq<nat>, a: nat) {
    && a < |shares| && Sum(shares[..a]) <= |drawn|
    && var quota, remaining := scale.albums - Sum(shares[..a]), scale.artists - a;
    if remaining == 1 then
      shares[a] == if quota < 0 then 0 else quota
    else
      && remaining > 1
      && var average := if quota < remaining then 1 else quota / remaining;
      var most := if quota < remaining then 1 else quota - remaining + 1;
      var draw := 1 + words(SharePosition(scale, shares, drawn, a)) % (2 * average);
      shares[a] == if draw < most then draw else most
  }

  ghost predicate AlbumDrawn(scale: Scale, words: Stream, drawn: seq<nat>, album: Album, i: nat) {
    && i < |drawn| && album.artistId >= 1
    && var pos := AlbumPosition(scale, drawn, i, album.artistId - 1);
    var own := SongBound(scale, drawn, i + 1) - SongBound(scale, drawn, i);
    && own >= 0
    && drawn[i] == (if scale.maxSongsPerAlbum == 0 then 1 else 1 + words(pos) % scale.maxSongsPerAlbum)
    && album.releaseYear == 1960 + words(AfterNumber(scale, pos) + own) % 65
  }

  ghost predicate SongDrawn(scale: Scale, words: Stream, drawn: seq<nat>, song: Song, j: nat) {
    && 1 <= song.albumId <= |drawn| && song.artistId >= 1
    && var i := song.albumId - 1;
    var first := SongBound(scale, drawn, i);
    && first <= j
    && var pos := AfterNumber(scale, AlbumPosition(scale, drawn, i, song.artistId - 1));
    song.durationMs == 60000 + words(pos + j - first) % 360000
  }

  ghost predicate ArtistDrawn(scale: Scale, words: Stream, shares: seq<nat>, drawn: seq<nat>, artist: Artist, a: nat) {
    && a < |shares| && Sum(shares[..a + 1]) <= |drawn|
    && var pos := AlbumPosition(scale, drawn, Sum(shares[..a + 1]), a);
    && artist.country == ["US", "UK", "DE", "FR", "JP", "BR", "CA", "AU", "SE", "NL"][words(pos) % 10]
    && artist.formedYear == 1950 + words(pos + 1) % 75
  }

  ghost predicate Drawn(scale: Scale, words: Stream, p: Plan) {
    && (forall a | 0 <= a < |p.shares| :: ShareDrawn(scale, words, p.shares, p.drawn, a))
    && (forall i | 0 <= i < |p.albums| :: AlbumDrawn(scale, words, p.drawn, p.albums[i], i))
    && (forall j | 0 <= j < |p.songs| :: SongDrawn(scale, words, p.drawn, p.songs[j], j))
    && (forall a | 0 <= a < |p.artists| :: ArtistDrawn(scale, words, p.shares, p.drawn, p.artists[a], a))
  }

  // Longer ledgers leave the values of shorter ones alone

  lemma BoundKept(scale: Scale, drawn: seq<nat>, longer: seq<nat>, i: nat)
    requires drawn <= longer && i <= |drawn|
    ensures SongBound(scale, longer, i) == SongBound(scale, drawn, i)
  {
    assert longer[..i] == drawn[..i];
  }

  lemma ShareKept(scale: Scale, words: Stream, shares: seq<nat>, drawn: seq<nat>,
                  longerShares: seq<nat>, longer: seq<nat>, a: nat)
    requires shares <= longerShares && drawn <= longer && ShareDrawn(scale, words, shares, drawn, a)
    ensures ShareDrawn(scale, words, longerShares, longer, a)
  {
    hide Sum;
    assert longerShares[..a] == shares[..a];
    BoundKept(scale, drawn, longer, Sum(shares[..a]));
  }

  lemma AlbumKept(scale: Scale, words: Stream, drawn: seq<nat>, longer: seq<nat>, album: Album, i: nat)
    requires drawn <= longer && AlbumDrawn(scale, words, drawn, album, i)
    ensures AlbumDrawn(scale, words, longer, album, i)
  {
    hide SongBound;
    BoundKept(scale, drawn, longer, i);
    BoundKept(scale, drawn, longer, i + 1);
  }

  lemma SongKept(scale: Scale, words: Stream, drawn: seq<nat>, longer: seq<nat>, song: Song, j: nat)
    requires drawn <= longer && SongDrawn(scale, words, drawn, song, j)
    ensures SongDrawn(scale, words, longer, song, j)
  {
    hide SongBound;
    BoundKept(scale, drawn, longer, song.albumId - 1);
  }

  lemma ArtistKept(scale: Scale, words: Stream, shares: seq<nat>, drawn: seq<nat>,
                   longerShares: seq<nat>, longer: seq<nat>, artist: Artist, a: nat)
    requires shares <= longerShares && drawn <= longer && ArtistDrawn(scale, words, shares, drawn, artist, a)
    ensures ArtistDrawn(scale, words, longerShares, longer, artist, a)
  {
    hide Sum;
    assert longerShares[..a + 1] == shares[..a + 1];
    BoundKept(scale, drawn, longer, Sum(shares[..a + 1]));
  }

  /** What a plan has drawn stays drawn in a plan that extends it. */
  lemma DrawnKept(scale: Scale, words: Stream, p: Plan, q: Plan)
    requires Drawn(scale, words, p) && p.shares <= q.shares && p.drawn <= q.drawn
    ensures forall a | 0 <= a < |p.shares| :: ShareDrawn(scale, words, q.shares, q.drawn, a)
    ensures forall i | 0 <= i < |p.albums| :: AlbumDrawn(scale, words, q.drawn, p.albums[i], i)
    ensures forall j | 0 <= j < |p.songs| :: SongDrawn(scale, words, q.drawn, p.songs[j], j)
    ensures forall a | 0 <= a < |p.artists| :: ArtistDrawn(scale, words, q.shares, q.drawn, p.artists[a], a)
  {
    hide ShareDrawn, AlbumDrawn, SongDrawn, ArtistDrawn;
    forall a | 0 <= a < |p.shares|
      ensures ShareDrawn(scale, words, q.shares, q.drawn, a)
    {
      ShareKept(scale, words, p.shares, p.drawn, q.shares, q.drawn, a);
    }
    forall i | 0 <= i < |p.albums|
      ensures AlbumDrawn(scale, words, q.drawn, p.albums[i], i)
    {
      AlbumKept(scale, words, p.drawn, q.drawn, p.albums[i], i);
    }
    forall j | 0 <= j < |p.songs|
      ensures SongDrawn(scale, words, q.drawn, p.songs[j], j)
    {
      SongKept(scale, words, p.drawn, q.drawn, p.songs[j], j);
    }
    forall a | 0 <= a < |p.artists|
      ensures ArtistDrawn(scale, words, q.shares, q.drawn, p.artists[a], a)
    {
      ArtistKept(scale, words, p.shares, p.drawn, q.shares, q.drawn, p.artists[a], a);
    }
  }

  // The steps of the walk

  /** The word position and the counters of a plan inside artist a + 1. */
  ghost predicate Inside(scale: Scale, p: Plan, a: nat) {
    && |p.drawn| == |p.albums| && |p.songs| == SongBound(scale, p.drawn, |p.drawn|)
    && p.pos == AlbumPosition(scale, p.drawn, |p.drawn|, a)
  }

  lemma GrantDrawn(scale: Scale, words: Stream, p: Plan)
    requires Lawful(scale, p) && Drawn(scale, words, p) && |p.artists| < scale.artists
    ensures var q := GrantAlbums(scale, words, p); Drawn(scale, words, q) && Inside(scale, q, |p.artists|)
  {
    hide ShareDrawn, AlbumDrawn, SongDrawn, ArtistDrawn, Rows, AlbumLedger, Grant, Sum, Share;
    var q := GrantAlbums(scale, words, p);
    DrawnKept(scale, words, p, q);
    NewShare(scale, words, p);
    if |p.artists| + 1 < scale.artists {
      DoublingFits(scale, p.quota, |p.artists|);
    }
  }

  lemma NewShare(scale: Scale, words: Stream, p: Plan)
    requires Lawful(scale, p) && |p.artists| < scale.artists
    ensures
      var q := GrantAlbums(scale, words, p);
      |q.shares| == |p.shares| + 1 && ShareDrawn(scale, words, q.shares, q.drawn, |p.shares|)
  {
    hide Rows, AlbumLedger, Sum, Share, GrantBound, Average;
    var q, a := GrantAlbums(scale, words, p), |p.shares|;
    assert q.shares[..a] == p.shares;
    if a + 1 < scale.artists {
      DoublingFits(scale, p.quota, a);
      AverageIs(p.quota, scale.artists - a);
    }
  }

  lemma AverageIs(quota: int, remaining: int)
    requires remaining > 0
    ensures Average(quota, remaining) == if quota < remaining then 1 else quota / remaining
  {
    if quota < 0 {
      NegativeAverage(quota, remaining);
    } else if quota < remaining {
      assert quota / remaining == 0;
    } else {
      assert quota / remaining >= 1 by {
        QuotientAtLeast(quota, remaining);
      }
    }
  }

  lemma QuotientAtLeast(n: nat, d: nat)
    requires n >= d >= 1
    ensures n / d >= 1
  {
  }

  /** The counters before and after one album. */
  lemma AlbumBounds(scale: Scale, words: Stream, p: Plan, a: nat)
    requires SongLedger(scale, p.drawn, p.songs) && Inside(scale, p, a)
    ensures
      var q, i := AddAlbum(scale, words, p, a + 1), |p.drawn|;
      && SongLedger(scale, q.drawn, q.songs) && |q.drawn| == i + 1 && p.drawn <= q.drawn
      && SongBound(scale, q.drawn, i) == |p.songs| && SongBound(scale, q.drawn, i + 1) == |q.songs| >= |p.songs|
      && p.pos == AlbumPosition(scale, q.drawn, i, a) && Inside(scale, q, a)
  {
    hide Sum, Below, Cap, Capped;
    var q := AddAlbum(scale, words, p, a + 1);
    AddAlbumLedger(scale, words, p, a + 1);
    BoundKept(scale, p.drawn, q.drawn, |p.drawn|);
  }

  lemma NewAlbum(scale: Scale, words: Stream, p: Plan, a: nat)
    requires SongLedger(scale, p.drawn, p.songs) && Inside(scale, p, a)
    ensures
      var q, i := AddAlbum(scale, words, p, a + 1), |p.drawn|;
      |q.albums| == i + 1 && AlbumDrawn(scale, words, q.drawn, q.albums[i], i)
  {
    hide SongBound, SongLedger, AlbumPosition, Capped;
    AlbumBounds(scale, words, p, a);
  }

  lemma NewSong(scale: Scale, words: Stream, p: Plan, a: nat, j: nat)
    requires SongLedger(scale, p.drawn, p.songs) && Inside(scale, p, a)
    requires |p.songs| <= j < |AddAlbum(scale, words, p, a + 1).songs|
    ensures var q := AddAlbum(scale, words, p, a + 1); SongDrawn(scale, words, q.drawn, q.songs[j], j)
  {
    hide SongBound, SongLedger, AlbumPosition, Capped;
    AlbumBounds(scale, words, p, a);
    var q, pos := AddAlbum(scale, words, p, a + 1), AfterNumber(scale, p.pos);
    assert q.songs[j].durationMs == 60000 + Below(words, pos + (j - |p.songs|), 360000);
  }

  lemma AddAlbumDrawn(scale: Scale, words: Stream, p: Plan, a: nat)
    requires SongLedger(scale, p.drawn, p.songs) && Inside(scale, p, a) && Drawn(scale, words, p)
    ensures
      var q := AddAlbum(scale, words, p, a + 1);
      SongLedger(scale, q.drawn, q.songs) && Inside(scale, q, a) && Drawn(scale, words, q)
  {
    hide ShareDrawn, AlbumDrawn, SongDrawn, ArtistDrawn, SongLedger, SongBound, AlbumPosition, Below, Capped;
    var q := AddAlbum(scale, words, p, a + 1);
    AlbumBounds(scale, words, p, a);
    DrawnKept(scale, words, p, q);
    NewAlbum(scale, words, p, a);
    forall j | |p.songs| <= j < |q.songs|
      ensures SongDrawn(scale, words, q.drawn, q.songs[j], j)
    {
      NewSong(scale, words, p, a, j);
    }
  }

  lemma {:induction false} AddAlbumsDrawn(scale: Scale, words: Stream, p: Plan, a: nat, k: nat)
    requires SongLedger(scale, p.drawn, p.songs) && Inside(scale, p, a) && Drawn(scale, words, p)
    ensures
      var q := AddAlbums(scale, words, p, a + 1, k);
      SongLedger(scale, q.drawn, q.songs) && Inside(scale, q, a) && Drawn(scale, words, q)
  {
    hide SongLedger, Inside, Drawn, AddAlbum;
    if k == 0 {
    } else {
      AddAlbumsDrawn(scale, words, p, a, k - 1);
      AddAlbumDrawn(scale, words, AddAlbums(scale, words, p, a + 1, k - 1), a);
    }
  }

  lemma AddArtistRowDrawn(scale: Scale, words: Stream, p: Plan)
    requires Inside(scale, p, |p.artists|) && Drawn(scale, words, p)
    requires |p.shares| == |p.artists| + 1 && |p.drawn| == Sum(p.shares)
    ensures Drawn(scale, words, AddArtistRow(words, p))
  {
    hide ShareDrawn, AlbumDrawn, SongDrawn, SongBound, AlbumPosition, Sum;
    var a, q := |p.artists|, AddArtistRow(words, p);
    assert p.shares[..a + 1] == p.shares;
    assert ArtistDrawn(scale, words, q.shares, q.drawn, q.artists[a], a);
  }

  lemma AddArtistDrawn(scale: Scale, words: Stream, p: Plan)
    requires Lawful(scale, p) && Drawn(scale, words, p) && |p.artists| < scale.artists
    ensures Drawn(scale, words, AddArtist(scale, words, p))
  {
    hide Drawn, Inside, SongLedger, AlbumLedger, Rows, QuotaLedger, AddAlbums, AddArtistRow, Grant, GrantBound, Sum;
    var a, g := |p.artists|, GrantAlbums(scale, words, p);
    GrantDrawn(scale, words, p);
    AddAlbumsDrawn(scale, words, g, a, g.shares[a]);
    AddAlbumsKeeps(scale, words, g, a + 1, g.shares[a]);
    AddArtistLaws(scale, words, p);
    ArtistRowKeeps(words, AddAlbums(scale, words, g, a + 1, g.shares[a]));
    AddArtistRowDrawn(scale, words, AddAlbums(scale, words, g, a + 1, g.shares[a]));
  }

  lemma ArtistRowKeeps(words: Stream, p: Plan)
    ensures var q := AddArtistRow(words, p); q.shares == p.shares && q.drawn == p.drawn && q.albums == p.albums
  {
  }

  lemma {:induction false} PrefixDrawn(scale: Scale, words: Stream, k: nat)
    requires k <= scale.artists
    ensures Drawn(scale, words, Prefix(scale, words, k))
  {
    hide Drawn, Lawful, AddArtist, GrantAlbums, AddAlbums;
    if k == 0 {
      StartDrawn(scale, words);
    } else {
      PrefixDrawn(scale, words, k - 1);
      PrefixLaws(scale, words, k - 1);
      AddArtistDrawn(scale, words, Prefix(scale, words, k - 1));
    }
  }

  lemma StartDrawn(scale: Scale, words: Stream)
    ensures Drawn(scale, words, Start(scale))
  {
  }

  /** Every share, draw and column of the tables comes from the word at its position. */
  lemma DrawPositions(scale: Scale, words: Stream)
    ensures
      var p := FullPlan(scale, words);
      && |p.shares| == |p.artists| == scale.artists && |p.drawn| == |p.albums|
      && (forall a | 0 <= a < |p.shares| :: ShareDrawn(scale, words, p.shares, p.drawn, a))
      && (forall i | 0 <= i < |p.albums| :: AlbumDrawn(scale, words, p.drawn, p.albums[i], i))
      && (forall j | 0 <= j < |p.songs| :: SongDrawn(scale, words, p.drawn, p.songs[j], j))
      && (forall a | 0 <= a < |p.artists| :: ArtistDrawn(scale, words, p.shares, p.drawn, p.artists[a], a))
  {
    hide ShareDrawn, AlbumDrawn, SongDrawn, ArtistDrawn, Prefix, SongLedger, AlbumLedger, Rows, QuotaLedger;
    PrefixDrawn(scale, words, scale.artists);
    PrefixLaws(scale, words, scale.artists);
  }

  // Attainment

  /** Two streams that agree below `n`. */
  ghost predicate Agree(u: Stream, v: Stream, n: nat) {
    forall i | 0 <= i < n :: u(i) == v(i)
  }

  lemma GrantLocal(scale: Scale, u: Stream, v: Stream, p: Plan)
    requires |p.artists| < scale.artists && Agree(u, v, GrantAlbums(scale, u, p).pos)
    ensures GrantAlbums(scale, v, p) == GrantAlbums(scale, u, p)
  {
    hide GrantBound;
  }

  lemma AddAlbumLocal(scale: Scale, u: Stream, v: Stream, p: Plan, artistId: int)
    requires Agree(u, v, AddAlbum(scale, u, p, artistId).pos)
    ensures AddAlbum(scale, v, p, artistId) == AddAlbum(scale, u, p, artistId)
  {
    hide Capped;
    var n := Capped(scale, |p.songs|, SongsDrawn(scale, u, p.pos));
    var pos := p.pos + Cost(scale.maxSongsPerAlbum);
    assert SongsDrawn(scale, v, p.pos) == SongsDrawn(scale, u, p.pos);
    NewSongsLocal(u, v, pos, n, |p.songs| + 1, |p.albums| + 1, artistId);
  }

  lemma NewSongsLocal(u: Stream, v: Stream, pos: nat, n: nat, firstId: int, albumId: int, artistId: int)
    requires Agree(u, v, pos + n)
    ensures NewSongs(v, pos, n, firstId, albumId, artistId) == NewSongs(u, pos, n, firstId, albumId, artistId)
  {
    forall i | 0 <= i < n
      ensures NewSongs(v, pos, n, firstId, albumId, artistId)[i] == NewSongs(u, pos, n, firstId, albumId, artistId)[i]
    {
      assert Below(v, pos + i, 360000) == Below(u, pos + i, 360000);
    }
  }

  lemma {:induction false} AddAlbumsLocal(scale: Scale, u: Stream, v: Stream, p: Plan, artistId: int, k: nat)
    requires Agree(u, v, AddAlbums(scale, u, p, artistId, k).pos)
    ensures AddAlbums(scale, v, p, artistId, k) == AddAlbums(scale, u, p, artistId, k)
    ensures AddAlbums(scale, u, p, artistId, k).pos >= p.pos
  {
    hide Below, Capped;
    if k == 0 {
    } else {
      var q := AddAlbums(scale, u, p, artistId, k - 1);
      assert AddAlbum(scale, u, q, artistId).pos >= q.pos;
      AddAlbumsLocal(scale, u, v, p, artistId, k - 1);
      AddAlbumLocal(scale, u, v, q, artistId);
    }
  }

  lemma AddArtistLocal(scale: Scale, u: Stream, v: Stream, p: Plan)
    requires |p.artists| < scale.artists && Agree(u, v, AddArtist(scale, u, p).pos)
    ensures AddArtist(scale, v, p) == AddArtist(scale, u, p) && AddArtist(scale, u, p).pos >= p.pos
  {
    hide AddAlbums, Grant, GrantBound;
    var g := GrantAlbums(scale, u, p);
    var share := g.shares[|p.shares|];
    assert Agree(u, v, AddAlbums(scale, u, g, |p.artists| + 1, share).pos);
    AddAlbumsLocal(scale, u, v, g, |p.artists| + 1, share);
    GrantLocal(scale, u, v, p);
  }

  /** A plan depends on the words it has consumed and on no other. */
  lemma {:induction false} PrefixLocal(scale: Scale, u: Stream, v: Stream, k: nat)
    requires k <= scale.artists && Agree(u, v, Prefix(scale, u, k).pos)
    ensures Prefix(scale, v, k) == Prefix(scale, u, k)
  {
    hide AddArtist, GrantAlbums, AddAlbums;
    if k == 0 {
    } else {
      AddArtistLocal(scale, u, v, Prefix(scale, u, k - 1));
      PrefixLocal(scale, u, v, k - 1);
    }
  }

  lemma {:induction false} PrefixShares(scale: Scale, words: Stream, k: nat, m: nat)
    requires k <= m <= scale.artists
    ensures Prefix(scale, words, k).shares <= Prefix(scale, words, m).shares
    decreases m
  {
    hide Prefix, Grant, GrantBound;
    if k == m {
    } else {
      PrefixShares(scale, words, k, m - 1);
      NextShares(scale, words, m - 1);
    }
  }

  /** The largest share artist a + 1 can draw when `taken` albums are granted already. */
  function LargestShare(scale: Scale, taken: nat, a: nat): u64
    requires a + 1 < scale.artists
  {
    var quota, remaining := scale.albums - taken, scale.artists - a;
    if quota < remaining then 1
    else
      var average, most := quota / remaining, quota - remaining + 1;
      if 2 * average < most then 2 * average else most
  }

  /** The stream with one word changed. */
  function Changed(words: Stream, pos: nat, word: u64): Stream {
    i => if i == pos then word else words(i)
  }

  lemma ChangedShare(scale: Scale, words: Stream, p: Plan, share: nat)
    requires Lawful(scale, p) && |p.artists| + 1 < scale.artists
    requires 1 <= share <= LargestShare(scale, Sum(p.shares), |p.shares|)
    ensures GrantAlbums(scale, Changed(words, p.pos, share - 1), p).shares == p.shares + [share]
  {
    hide Lawful, Sum, Grant, GrantBound, SongBound;
    var a, other := |p.shares|, Changed(words, p.pos, share - 1);
    var q := GrantAlbums(scale, other, p);
    NewShare(scale, other, p);
    LawfulPosition(scale, p);
    assert p.shares[..a] == p.shares && q.shares[..a] == p.shares;
    assert SharePosition(scale, q.shares, q.drawn, a) == p.pos;
    SmallRemainder(share - 1, if p.quota < scale.artists - a then 2 else 2 * (p.quota / (scale.artists - a)));
  }

  lemma LawfulPosition(scale: Scale, p: Plan)
    requires Lawful(scale, p) && |p.artists| < scale.artists
    ensures |p.shares| == |p.artists| && p.quota == scale.albums - Sum(p.shares)
    ensures Sum(p.shares[..|p.shares|]) == |p.drawn| && SharePosition(scale, p.shares, p.drawn, |p.shares|) == p.pos
  {
    hide Rows, AlbumLedger, Sum, Share;
    assert p.shares[..|p.shares|] == p.shares;
  }

  lemma SmallRemainder(n: nat, d: nat)
    requires n < d
    ensures n % d == n
  {
  }

  lemma SharesSoFar(scale: Scale, words: Stream, a: nat)
    requires a <= scale.artists
    ensures var p := Prefix(scale, words, a); |p.shares| == |p.artists| == a && Lawful(scale, p)
  {
    hide Prefix, Ledgers, QuotaLedger;
    PrefixLaws(scale, words, a);
  }

  /** The albums and the row of an artist leave the shares as the grant made them. */
  lemma NextShares(scale: Scale, words: Stream, a: nat)
    requires a < scale.artists
    ensures Prefix(scale, words, a + 1).shares == GrantAlbums(scale, words, Prefix(scale, words, a)).shares
  {
    hide AddAlbums, Grant, GrantBound;
    var p := Prefix(scale, words, a);
    var g := GrantAlbums(scale, words, p);
    AddAlbumsKeeps(scale, words, g, a + 1, g.shares[|p.shares|]);
  }

  /**
   Every share from one up to the largest occurs, whatever the shares before: one word
   decides it, and changing that word leaves them alone.
   */
  lemma EveryShareOccurs(scale: Scale, words: Stream, a: nat, share: nat)
    requires a + 1 < scale.artists
    requires 1 <= share <= LargestShare(scale, Sum(Prefix(scale, words, a).shares), a)
    ensures |Prefix(scale, words, a).shares| == a
    ensures exists other: Stream :: Prefix(scale, words, a).shares + [share] <= FullPlan(scale, other).shares
  {
    hide Prefix, Lawful, LargestShare;
    var p := Prefix(scale, words, a);
    SharesSoFar(scale, words, a);
    var other := Changed(words, p.pos, share - 1);
    PrefixLocal(scale, words, other, a);
    ChangedShare(scale, words, p, share);
    NextShares(scale, other, a);
    PrefixShares(scale, other, a + 1, scale.artists);
    assert p.shares + [share] <= FullPlan(scale, other).shares;
  }
}
