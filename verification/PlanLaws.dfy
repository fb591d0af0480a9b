/**
 What every seed plan satisfies, for every scale and every word stream: the two
 conservation laws, referential integrity, and the number of words consumed.
 */
module PlanLaws {
  import opened Machine
  import opened SplitMix
  import opened SeedPlan

  function Sum(s: seq<nat>): nat {
    if s == [] then 0 else Sum(s[..|s| - 1]) + s[|s| - 1]
  }

  lemma SumSnoc(s: seq<nat>, x: nat)
    ensures Sum(s + [x]) == Sum(s) + x
  {
    assert (s + [x])[..|s|] == s;
  }

  lemma {:induction false} SumMonotone(s: seq<nat>, i: nat, j: nat)
    requires i <= j <= |s|
    ensures Sum(s[..i]) <= Sum(s[..j])
    decreases j - i
  {
    if i == j {
    } else {
      assert s[..j][..j - 1] == s[..j - 1];
      SumMonotone(s, i, j - 1);
    }
  }

  lemma {:induction false} SumAtMost(s: seq<nat>, m: nat)
    requires forall i | 0 <= i < |s| :: s[i] <= m
    ensures Sum(s) <= |s| * m
  {
    if s == [] {
    } else {
      SumAtMost(s[..|s| - 1], m);
      assert |s| * m == (|s| - 1) * m + m;
    }
  }

  /** The number of songs the cap admits: a cap whose cast to i64 is negative admits none. */
  function Cap(scale: Scale): nat {
    Max(SongQuota(scale), 0)
  }

  lemma CapIs(scale: Scale)
    ensures Cap(scale) == if scale.songsCap < 0x8000_0000_0000_0000 then scale.songsCap else 0
  {
  }

  // Songs: what is drawn, and what the cap leaves of it

  /** The number of songs of the first `i` albums. */
  function SongBound(scale: Scale, drawn: seq<nat>, i: nat): nat
    requires i <= |drawn|
  {
    Min(Sum(drawn[..i]), Cap(scale))
  }

  /** Song conservation: album i + 1 owns exactly the songs between two cut prefix sums of the draws. */
  ghost predicate SongLedger(scale: Scale, drawn: seq<nat>, songs: seq<Song>) {
    && (forall i | 0 <= i < |drawn| :: 1 <= drawn[i] <= Max(scale.maxSongsPerAlbum, 1))
    && |songs| == SongBound(scale, drawn, |drawn|)
    && (forall j | 0 <= j < |songs| :: 1 <= songs[j].albumId <= |drawn|)
    && (forall j | 0 <= j < |songs| ::
          var i := songs[j].albumId;
          SongBound(scale, drawn, i - 1) <= j < SongBound(scale, drawn, i))
  }

  lemma CappedBound(scale: Scale, sum: nat, drawn: nat)
    requires drawn >= 1
    ensures Min(sum, Cap(scale)) + Capped(scale, Min(sum, Cap(scale)), drawn) == Min(sum + drawn, Cap(scale))
  {
  }

  lemma AddAlbumLedger(scale: Scale, words: Stream, p: Plan, artistId: int)
    requires SongLedger(scale, p.drawn, p.songs) && |p.drawn| == |p.albums|
    ensures var q := AddAlbum(scale, words, p, artistId); SongLedger(scale, q.drawn, q.songs)
  {
    var q := AddAlbum(scale, words, p, artistId);
    var d := SongsDrawn(scale, words, p.pos);
    assert p.drawn[..|p.drawn|] == p.drawn;
    assert q.drawn[..|p.drawn|] == p.drawn && q.drawn[..|q.drawn|] == q.drawn;
    SumSnoc(p.drawn, d);
    CappedBound(scale, Sum(p.drawn), d);
    assert |q.songs| == SongBound(scale, q.drawn, |q.drawn|);
    forall j | 0 <= j < |q.songs|
      ensures 1 <= q.songs[j].albumId <= |q.albums|
      ensures var i := q.songs[j].albumId; SongBound(scale, q.drawn, i - 1) <= j < SongBound(scale, q.drawn, i)
    {
      if j < |p.songs| {
        var i := p.songs[j].albumId;
        assert q.songs[j] == p.songs[j];
        assert q.drawn[..i] == p.drawn[..i] && q.drawn[..i - 1] == p.drawn[..i - 1];
      } else {
        assert q.songs[j].albumId == |q.albums|;
      }
    }
  }

  // Albums: who owns which

  /** Artist a + 1 owns exactly the albums between two prefix sums of the shares. */
  ghost predicate AlbumLedger(shares: seq<nat>, albums: seq<Album>) {
    && (forall i | 0 <= i < |albums| :: 1 <= albums[i].artistId <= |shares|)
    && (forall i | 0 <= i < |albums| ::
          var a := albums[i].artistId;
          Sum(shares[..a - 1]) <= i < Sum(shares[..a]))
  }

  /** Values and foreign keys: identifiers are dense from 1 and every song names an emitted album and its artist. */
  ghost predicate Rows(artists: seq<Artist>, albums: seq<Album>, songs: seq<Song>) {
    && (forall i | 0 <= i < |artists| :: ArtistRow(artists[i], i))
    && (forall i | 0 <= i < |albums| :: AlbumRow(albums[i], i))
    && (forall j | 0 <= j < |songs| :: SongRow(songs[j], j, albums))
  }

  predicate ArtistRow(a: Artist, i: nat) {
    a.id == i + 1 && a.country in COUNTRIES && 1950 <= a.formedYear <= 2024
  }

  predicate AlbumRow(a: Album, i: nat) {
    a.id == i + 1 && 1960 <= a.releaseYear <= 2024
  }

  predicate SongRow(s: Song, j: nat, albums: seq<Album>) {
    && s.id == j + 1
    && 60000 <= s.durationMs < 420000
    && 1 <= s.albumId <= |albums|
    && s.artistId == albums[s.albumId - 1].artistId
  }

  ghost predicate Ledgers(scale: Scale, p: Plan) {
    && |p.drawn| == |p.albums|
    && SongLedger(scale, p.drawn, p.songs) && AlbumLedger(p.shares, p.albums)
    && Rows(p.artists, p.albums, p.songs)
  }

  lemma AddAlbumRows(scale: Scale, words: Stream, p: Plan, artistId: int)
    requires Rows(p.artists, p.albums, p.songs)
    ensures var q := AddAlbum(scale, words, p, artistId); Rows(q.artists, q.albums, q.songs)
  {
    var q := AddAlbum(scale, words, p, artistId);
    forall j | 0 <= j < |q.songs|
      ensures SongRow(q.songs[j], j, q.albums)
    {
      if j < |p.songs| {
        assert SongRow(p.songs[j], j, p.albums);
      } else {
        var i := j - |p.songs|;
        var songPos := p.pos + Cost(scale.maxSongsPerAlbum);
        assert q.songs[j].durationMs == 60000 + Below(words, songPos + i, 360000);
      }
    }
  }

  lemma AddAlbumOwner(scale: Scale, words: Stream, p: Plan, artistId: int)
    requires AlbumLedger(p.shares, p.albums) && artistId == |p.shares| >= 1
    requires Sum(p.shares[..artistId - 1]) <= |p.albums| < Sum(p.shares)
    ensures AlbumLedger(p.shares, AddAlbum(scale, words, p, artistId).albums)
  {
    assert p.shares[..|p.shares|] == p.shares;
  }

  /** Words consumed by the albums and songs of a plan. */
  function AlbumWords(scale: Scale, albums: nat, songs: nat): nat {
    albums + (if scale.maxSongsPerAlbum == 0 then 0 else albums) + songs
  }

  lemma AddAlbumLaws(scale: Scale, words: Stream, p: Plan, artistId: int)
    requires Ledgers(scale, p) && artistId == |p.shares| >= 1
    requires Sum(p.shares[..artistId - 1]) <= |p.albums| < Sum(p.shares)
    ensures
      var q := AddAlbum(scale, words, p, artistId);
      && Ledgers(scale, q) && |q.albums| == |p.albums| + 1
      && q.pos - AlbumWords(scale, |q.albums|, |q.songs|) == p.pos - AlbumWords(scale, |p.albums|, |p.songs|)
  {
    hide SongLedger, AlbumLedger, Rows, Sum, Below, SongsDrawn, Capped, NewSongs;
    AddAlbumLedger(scale, words, p, artistId);
    AddAlbumOwner(scale, words, p, artistId);
    AddAlbumRows(scale, words, p, artistId);
  }

  /** Everything the album loop of one artist keeps. */
  lemma {:induction false} AddAlbumsLaws(scale: Scale, words: Stream, p: Plan, artistId: int, k: nat)
    requires Ledgers(scale, p) && artistId == |p.shares| >= 1
    requires |p.albums| == Sum(p.shares[..artistId - 1]) && |p.albums| + k <= Sum(p.shares)
    ensures
      var q := AddAlbums(scale, words, p, artistId, k);
      && Ledgers(scale, q) && |q.albums| == |p.albums| + k
      && q.pos - AlbumWords(scale, |q.albums|, |q.songs|) == p.pos - AlbumWords(scale, |p.albums|, |p.songs|)
  {
    hide Ledgers, AddAlbum, AlbumWords, Sum;
    if k == 0 {
    } else {
      AddAlbumsLaws(scale, words, p, artistId, k - 1);
      AddAlbumsKeeps(scale, words, p, artistId, k - 1);
      AddAlbumLaws(scale, words, AddAlbums(scale, words, p, artistId, k - 1), artistId);
    }
  }

  // The grant

  lemma DivisionShrinks(n: nat, d: nat)
    requires d >= 2
    ensures n / d <= n / 2
  {
    var q := n / d;
    QuotientBelow(n, d);
    assert q * (d - 2) >= 0;
    assert q * d == q * (d - 2) + 2 * q;
  }

  lemma QuotientBelow(n: nat, d: nat)
    requires d >= 1
    ensures (n / d) * d <= n
  {
  }

  /** The 32-bit doubling of the average never overflows, so every grant but the last costs one word. */
  lemma DoublingFits(scale: Scale, quota: int, a: nat)
    requires a + 1 < scale.artists && quota <= scale.albums
    ensures GrantBound(scale, quota, a) == 2 * Average(quota, scale.artists - a)
    ensures Cost(GrantBound(scale, quota, a)) == 1
  {
    var avg := Average(quota, scale.artists - a);
    assert 1 <= avg < 0x8000_0000 by {
      if quota >= 0 {
        DivisionShrinks(quota, scale.artists - a);
      } else {
        NegativeAverage(quota, scale.artists - a);
      }
    }
    assert AsU32(avg) == avg;
    assert AsU32(avg * 2) == avg * 2;
  }

  lemma NegativeAverage(quota: int, remaining: int)
    requires quota < 0 < remaining
    ensures Average(quota, remaining) == 1
  {
    assert -quota / remaining >= 0;
  }

  /** The state of the album quota before artist |shares| + 1. */
  ghost predicate QuotaLedger(scale: Scale, shares: seq<nat>, quota: int) {
    var k := |shares|;
    && k <= scale.artists
    && quota == (if k < scale.artists || k == 0 then scale.albums - Sum(shares) else 0)
    && (k == scale.artists ==> Sum(shares) == TotalAlbums(scale))
    && (k < scale.artists <= scale.albums ==> Sum(shares) <= scale.albums - (scale.artists - k))
    && (k < scale.artists && scale.albums < scale.artists ==> Sum(shares) == k)
    && (forall i | 0 <= i < k :: Share(scale, i, shares[i]))
  }

  /** What one artist may get. */
  predicate Share(scale: Scale, i: nat, share: nat) {
    if scale.albums >= scale.artists then share >= 1 else share == (if i == scale.artists - 1 then 0 else 1)
  }

  /** The number of albums a walk creates, whatever it draws. */
  function TotalAlbums(scale: Scale): nat {
    if scale.artists == 0 then 0 else Max(scale.albums, scale.artists - 1)
  }

  lemma QuotaStep(scale: Scale, shares: seq<nat>, quota: int, share: nat)
    requires QuotaLedger(scale, shares, quota) && |shares| + 1 < scale.artists
    requires 1 <= share <= Max(quota - (scale.artists - |shares| - 1), 1)
    ensures QuotaLedger(scale, shares + [share], quota - share)
  {
    SumSnoc(shares, share);
  }

  lemma QuotaLast(scale: Scale, shares: seq<nat>, quota: int)
    requires QuotaLedger(scale, shares, quota) && |shares| + 1 == scale.artists
    ensures QuotaLedger(scale, shares + [Max(quota, 0)], 0)
  {
    SumSnoc(shares, Max(quota, 0));
  }

  lemma GrantRange(scale: Scale, words: Stream, pos: nat, quota: int, a: nat)
    requires a + 1 < scale.artists
    ensures 1 <= Grant(scale, words, pos, quota, a) <= Max(quota - (scale.artists - a - 1), 1)
  {
  }

  lemma GrantQuota(scale: Scale, words: Stream, p: Plan)
    requires QuotaLedger(scale, p.shares, p.quota) && |p.shares| == |p.artists| < scale.artists
    ensures
      var q := GrantAlbums(scale, words, p);
      && QuotaLedger(scale, q.shares, q.quota)
      && q.pos == p.pos + (if |q.shares| < scale.artists then 1 else 0)
  {
    var k := |p.shares|;
    if k + 1 < scale.artists {
      DoublingFits(scale, p.quota, k);
      GrantRange(scale, words, p.pos, p.quota, k);
      QuotaStep(scale, p.shares, p.quota, Grant(scale, words, p.pos, p.quota, k));
    } else {
      QuotaLast(scale, p.shares, p.quota);
    }
  }

  // The artist loop

  ghost predicate Lawful(scale: Scale, p: Plan) {
    && Ledgers(scale, p)
    && |p.shares| == |p.artists|
    && |p.albums| == Sum(p.shares)
    && QuotaLedger(scale, p.shares, p.quota)
    && p.pos == AlbumWords(scale, |p.albums|, |p.songs|) + 2 * |p.artists| + GrantWords(scale, |p.artists|)
  }

  /** Words consumed by the grants of the first `k` artists: the last artist takes what is left. */
  function GrantWords(scale: Scale, k: nat): nat {
    if 0 < k == scale.artists then k - 1 else k
  }

  lemma AddArtistLaws(scale: Scale, words: Stream, p: Plan)
    requires Lawful(scale, p) && |p.artists| < scale.artists
    ensures Lawful(scale, AddArtist(scale, words, p))
  {
    hide SongLedger, AlbumLedger, Rows, QuotaLedger, AddAlbums, AddArtistRow, Grant, GrantBound;
    GrantQuota(scale, words, p);
    GrantedLedger(scale, words, p);
    GrantedLaws(scale, words, GrantAlbums(scale, words, p), |p.shares|);
  }

  /** The rest of the artist loop, from a plan whose grant to artist k + 1 has been made. */
  lemma GrantedLaws(scale: Scale, words: Stream, p: Plan, k: nat)
    requires Ledgers(scale, p)
    requires k == |p.artists| < scale.artists && |p.shares| == k + 1 && |p.albums| == Sum(p.shares[..k])
    requires QuotaLedger(scale, p.shares, p.quota)
    requires p.pos == AlbumWords(scale, |p.albums|, |p.songs|) + 2 * k + GrantWords(scale, k + 1)
    ensures Lawful(scale, AddArtistRow(words, AddAlbums(scale, words, p, k + 1, p.shares[k])))
  {
    hide Ledgers, QuotaLedger, AddArtistRow, AddAlbums;
    assert p.shares == p.shares[..k] + [p.shares[k]];
    SumSnoc(p.shares[..k], p.shares[k]);
    AddAlbumsKeeps(scale, words, p, k + 1, p.shares[k]);
    AddAlbumsLaws(scale, words, p, k + 1, p.shares[k]);
    AddArtistRowLaws(scale, words, AddAlbums(scale, words, p, k + 1, p.shares[k]), k);
  }

  lemma AddArtistRowLaws(scale: Scale, words: Stream, p: Plan, k: nat)
    requires Ledgers(scale, p) && QuotaLedger(scale, p.shares, p.quota)
    requires k == |p.artists| < scale.artists && |p.shares| == k + 1 && |p.albums| == Sum(p.shares)
    requires p.pos == AlbumWords(scale, |p.albums|, |p.songs|) + 2 * k + GrantWords(scale, k + 1)
    ensures Lawful(scale, AddArtistRow(words, p))
  {
    var q := AddArtistRow(words, p);
    assert ArtistRow(q.artists[k], k);
  }

  lemma GrantedLedger(scale: Scale, words: Stream, p: Plan)
    requires AlbumLedger(p.shares, p.albums) && |p.albums| == Sum(p.shares) && |p.shares| == |p.artists| < scale.artists
    ensures
      var q := GrantAlbums(scale, words, p);
      AlbumLedger(q.shares, q.albums) && |q.albums| == Sum(q.shares[..|p.shares|])
  {
    var q := GrantAlbums(scale, words, p);
    assert q.shares[..|p.shares|] == p.shares;
    forall i | 0 <= i < |q.albums|
      ensures var a := q.albums[i].artistId; 1 <= a <= |q.shares| && Sum(q.shares[..a - 1]) <= i < Sum(q.shares[..a])
    {
      var a := p.albums[i].artistId;
      assert q.shares[..a] == p.shares[..a] && q.shares[..a - 1] == p.shares[..a - 1];
    }
  }

  lemma StartLawful(scale: Scale)
    ensures Lawful(scale, Start(scale))
  {
  }

  lemma {:induction false} PrefixLaws(scale: Scale, words: Stream, k: nat)
    requires k <= scale.artists
    ensures Lawful(scale, Prefix(scale, words, k))
  {
    hide Lawful, AddArtist, GrantAlbums, AddAlbums;
    if k == 0 {
      StartLawful(scale);
    } else {
      PrefixLaws(scale, words, k - 1);
      AddArtistLaws(scale, words, Prefix(scale, words, k - 1));
    }
  }

  // What the laws say of the tables

  /** How often `k` occurs among `keys`. */
  function Occurrences(keys: seq<int>, k: int): nat {
    if keys == [] then 0
    else Occurrences(keys[..|keys| - 1], k) + (if keys[|keys| - 1] == k then 1 else 0)
  }

  /** Keys that hold `k` exactly on an interval hold it as often as the interval is long. */
  lemma {:induction false} IntervalOccurrences(keys: seq<int>, k: int, lo: nat, hi: nat)
    requires lo <= hi
    requires forall i | 0 <= i < |keys| :: keys[i] == k <==> lo <= i < hi
    ensures Occurrences(keys, k) == Min(hi, |keys|) - Min(lo, |keys|)
  {
    if keys == [] {
    } else {
      IntervalOccurrences(keys[..|keys| - 1], k, lo, hi);
    }
  }

  /** Keys sorted into consecutive intervals by a non-decreasing bound occur as often as their interval is long. */
  lemma BoundedOccurrences(keys: seq<int>, bounds: seq<nat>, k: nat)
    requires 1 <= k < |bounds| && bounds[|bounds| - 1] == |keys|
    requires forall i, j | 0 <= i <= j < |bounds| :: bounds[i] <= bounds[j]
    requires forall i | 0 <= i < |keys| :: 1 <= keys[i] < |bounds| && bounds[keys[i] - 1] <= i < bounds[keys[i]]
    ensures Occurrences(keys, k) == bounds[k] - bounds[k - 1]
  {
    forall i | 0 <= i < |keys|
      ensures keys[i] == k <==> bounds[k - 1] <= i < bounds[k]
    {
      var a := keys[i];
      if a < k {
        assert bounds[a] <= bounds[k - 1];
      } else if k < a {
        assert bounds[k] <= bounds[a - 1];
      }
    }
    assert bounds[k] <= bounds[|bounds| - 1];
    IntervalOccurrences(keys, k, bounds[k - 1], bounds[k]);
  }

  function AlbumOwners(albums: seq<Album>): seq<int> {
    seq(|albums|, i requires 0 <= i < |albums| => albums[i].artistId)
  }

  function SongOwners(songs: seq<Song>): seq<int> {
    seq(|songs|, i requires 0 <= i < |songs| => songs[i].albumId)
  }

  lemma SumAt(s: seq<nat>, i: nat)
    requires i < |s|
    ensures Sum(s[..i + 1]) == Sum(s[..i]) + s[i]
  {
    assert s[..i + 1][..i] == s[..i];
  }

  lemma OwnedAlbums(shares: seq<nat>, albums: seq<Album>, a: nat)
    requires AlbumLedger(shares, albums) && |albums| == Sum(shares) && a < |shares|
    ensures Occurrences(AlbumOwners(albums), a + 1) == shares[a]
  {
    var bounds := seq(|shares| + 1, i requires 0 <= i <= |shares| => Sum(shares[..i]));
    assert shares[..|shares|] == shares;
    forall i, j | 0 <= i <= j < |bounds|
      ensures bounds[i] <= bounds[j]
    {
      SumMonotone(shares, i, j);
    }
    BoundedOccurrences(AlbumOwners(albums), bounds, a + 1);
    SumAt(shares, a);
  }

  lemma OwnedSongs(scale: Scale, drawn: seq<nat>, songs: seq<Song>, i: nat)
    requires SongLedger(scale, drawn, songs) && i < |drawn|
    ensures Occurrences(SongOwners(songs), i + 1) == SongBound(scale, drawn, i + 1) - SongBound(scale, drawn, i)
  {
    hide Sum;
    var bounds := seq(|drawn| + 1, i requires 0 <= i <= |drawn| => SongBound(scale, drawn, i));
    forall i, j | 0 <= i <= j < |bounds|
      ensures bounds[i] <= bounds[j]
    {
      SumMonotone(drawn, i, j);
    }
    BoundedOccurrences(SongOwners(songs), bounds, i + 1);
  }

  /**
   Album conservation: the exact number of albums, and every artist owns its share, which
   is at least one except for the last artist when albums are too few.
   */
  lemma AlbumConservation(scale: Scale, words: Stream)
    ensures
      var p := FullPlan(scale, words);
      && |p.artists| == |p.shares| == scale.artists && |p.albums| == TotalAlbums(scale)
      && (forall a | 0 <= a < scale.artists :: Occurrences(AlbumOwners(p.albums), a + 1) == p.shares[a])
      && (forall a | 0 <= a < scale.artists ::
            p.shares[a] >= 1 <==> scale.albums >= scale.artists || a < scale.artists - 1)
  {
    hide Prefix, AlbumLedger, SongLedger, Rows, Sum;
    var p := FullPlan(scale, words);
    PrefixLaws(scale, words, scale.artists);
    forall a | 0 <= a < scale.artists
      ensures Occurrences(AlbumOwners(p.albums), a + 1) == p.shares[a]
      ensures p.shares[a] >= 1 <==> scale.albums >= scale.artists || a < scale.artists - 1
    {
      OwnedAlbums(p.shares, p.albums, a);
      assert Share(scale, a, p.shares[a]);
    }
  }

  /** The walk creates as many albums as the scale asks for exactly when no artist is forced an album beyond them. */
  lemma AlbumsAsAsked(scale: Scale, words: Stream)
    ensures
      |FullPlan(scale, words).albums| == scale.albums
      <==> if scale.artists == 0 then scale.albums == 0 else scale.albums >= scale.artists - 1
  {
    hide FullPlan;
    AlbumConservation(scale, words);
  }

  /** Three artists and one album make two albums, and no artists make none, whatever is drawn. */
  lemma AlbumsNotAsAsked(words: Stream)
    ensures |FullPlan(Scale(3, 1, 1, 10), words).albums| == 2
    ensures |FullPlan(Scale(0, 1, 1, 10), words).albums| == 0
  {
    hide FullPlan;
    AlbumConservation(Scale(3, 1, 1, 10), words);
    AlbumConservation(Scale(0, 1, 1, 10), words);
  }

  /**
   Song conservation: each album owns what its draw adds to the cut prefix sums, so
   an album keeps its whole draw until the cap binds, and a draw that is cut fills the cap.
   */
  lemma SongConservation(scale: Scale, words: Stream, i: nat)
    requires i < |FullPlan(scale, words).albums|
    ensures
      var p := FullPlan(scale, words);
      && |p.drawn| == |p.albums|
      && |p.songs| == Min(Sum(p.drawn), Cap(scale))
      && 1 <= p.drawn[i] <= Max(scale.maxSongsPerAlbum, 1)
      && var owned := Occurrences(SongOwners(p.songs), i + 1);
      && owned == SongBound(scale, p.drawn, i + 1) - SongBound(scale, p.drawn, i)
      && owned <= p.drawn[i]
      && (owned < p.drawn[i] ==> |p.songs| == Cap(scale))
  {
    hide Prefix, AlbumLedger, Rows, Sum, QuotaLedger;
    var p := FullPlan(scale, words);
    PrefixLaws(scale, words, scale.artists);
    OwnedSongs(scale, p.drawn, p.songs, i);
    assert p.drawn[..|p.drawn|] == p.drawn;
    SumAt(p.drawn, i);
    SumMonotone(p.drawn, i + 1, |p.drawn|);
  }

  /**
   The one sum of the walk that could leave 64 bits, the songs so far plus a draw, does not
   when the cap or the largest possible number of songs leaves room for it.
   */
  lemma CounterFits(scale: Scale, words: Stream, i: nat)
    requires
      var most := Max(scale.maxSongsPerAlbum, 1);
      Cap(scale) + most < TWO63 || TotalAlbums(scale) * most < TWO63
    requires i < |FullPlan(scale, words).albums|
    ensures
      var p := FullPlan(scale, words);
      |p.drawn| == |p.albums| && SongBound(scale, p.drawn, i) + p.drawn[i] < TWO63
  {
    hide Prefix, AlbumLedger, Rows, Sum, Cap, SongQuota;
    var p := FullPlan(scale, words);
    PrefixLaws(scale, words, scale.artists);
    SumAtMost(p.drawn, Max(scale.maxSongsPerAlbum, 1));
    SumAt(p.drawn, i);
    SumMonotone(p.drawn, i + 1, |p.drawn|);
    assert p.drawn[..|p.drawn|] == p.drawn;
  }

  /** The exact number of words a walk consumes. */
  lemma WordsConsumed(scale: Scale, words: Stream)
    ensures
      var p := FullPlan(scale, words);
      p.pos == Max(3 * scale.artists - 1, 0) + |p.songs|
               + (if scale.maxSongsPerAlbum == 0 then 1 else 2) * TotalAlbums(scale)
  {
    hide Prefix, Ledgers;
    PrefixLaws(scale, words, scale.artists);
    AlbumConservation(scale, words);
  }

  /** Referential integrity: dense identifiers, values in range, and every reference resolved. */
  lemma ReferentialIntegrity(scale: Scale, words: Stream)
    ensures
      var p := FullPlan(scale, words);
      && Rows(p.artists, p.albums, p.songs)
      && (forall i | 0 <= i < |p.albums| :: 1 <= p.albums[i].artistId <= |p.artists|)
  {
    PrefixLaws(scale, words, scale.artists);
  }
}
