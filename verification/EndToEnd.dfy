/**
 The meaning of the seven queries over the seeded tables, and the theorem that the
 evidence checker accepts exactly what a correct engine answers.
 */
module EndToEnd {
  import opened Machine
  import opened SplitMix
  import opened SeedPlan
  import opened PlanLaws
  import opened Semantic
  import opened Text
  import opened Queries
  import opened Sets

  // SQL, as far as the queries use it

  /** `picks` lists `n` distinct elements of `all`. */
  ghost predicate Picks<T>(picks: seq<T>, all: set<T>, n: nat) {
    && |picks| == n
    && (forall i | 0 <= i < |picks| :: picks[i] in all)
    && (forall i, j | 0 <= i < j < |picks| :: picks[i] != picks[j])
  }

  /** One row of the view `v_artist_songs`. */
  datatype Joined = Joined(artist: Artist, album: Album, song: Song)

  ghost function Join(p: Plan): set<Joined> {
    set ar, al, s | ar in p.artists && al in p.albums && s in p.songs && al.artistId == ar.id && s.albumId == al.id ::
      Joined(ar, al, s)
  }

  ghost function SongsOfArtist(p: Plan, id: int): set<Song> {
    set s | s in p.songs && s.artistId == id
  }

  ghost function SongsOfAlbum(p: Plan, id: int): set<Song> {
    set s | s in p.songs && s.albumId == id
  }

  /** A group of a top-ten query and its song count. */
  datatype Group = Group(id: int, count: nat)

  /** Only artists and albums that join some song form a group. */
  ghost function ArtistGroups(p: Plan): set<Group> {
    set a | a in p.artists && SongsOfArtist(p, a.id) != {} :: Group(a.id, |SongsOfArtist(p, a.id)|)
  }

  ghost function AlbumGroups(p: Plan): set<Group> {
    set a | a in p.albums && SongsOfAlbum(p, a.id) != {} :: Group(a.id, |SongsOfAlbum(p, a.id)|)
  }

  predicate TopRowOf(row: Row, kind: string, g: Group) {
    && g.id >= 0 && |row| == 3
    && IsInt(row, 0, g.id) && row[1] == Value.Text(Named(kind, g.id)) && IsInt(row, 2, g.count)
  }

  /** Ten groups of the largest counts, in descending order; ties may fall either way. */
  ghost predicate TopRows(groups: set<Group>, picks: seq<Group>, rows: seq<Row>, kind: string) {
    && Picks(picks, groups, Min(10, |groups|)) && |rows| == |picks|
    && (forall i | 0 <= i < |rows| :: TopRowOf(rows[i], kind, picks[i]))
    && (forall i, j | 0 <= i < j < |rows| :: picks[i].count >= picks[j].count)
    && (forall g, i | g in groups && g !in picks && 0 <= i < |picks| :: g.count <= picks[i].count)
  }

  predicate ArtistRowOf(row: Row, a: Artist) {
    && |row| == 4 && a.id >= 0
    && IsInt(row, 0, a.id) && row[1] == Value.Text(Named("Artist", a.id))
    && row[2] == Value.Text(a.country) && IsInt(row, 3, a.formedYear)
  }

  predicate ViewRowOf(row: Row, t: Joined) {
    && |row| == 4 && t.artist.id >= 0 && t.album.id >= 0 && t.song.id >= 0
    && IsInt(row, 0, t.artist.id) && row[1] == Value.Text(Named("Artist", t.artist.id))
    && row[2] == Value.Text(Named("Album", t.album.id)) && row[3] == Value.Text(Named("Song", t.song.id))
  }

  predicate FilteredRowOf(row: Row, t: Joined) {
    && |row| == 3 && t.album.id >= 0 && t.song.id >= 0
    && row[0] == Value.Text(Named("Album", t.album.id)) && row[1] == Value.Text(Named("Song", t.song.id))
    && IsInt(row, 2, t.song.durationMs)
  }

  function TotalDuration(songs: seq<Song>): int {
    if songs == [] then 0 else TotalDuration(songs[..|songs| - 1]) + songs[|songs| - 1].durationMs
  }

  /** The five aggregates; over no rows all but the count are null. */
  ghost predicate AggregateRowOf(row: Row, songs: seq<Song>) {
    && |row| == 5 && IsInt(row, 0, |songs|)
    && if songs == [] then
         row[1..] == [Null, Null, Null, Null]
       else
         && IsInt(row, 1, TotalDuration(songs))
         && row[2] == Float64(Finite(TotalDuration(songs) as real / |songs| as real))
         && row[3].Int64? && (exists s | s in songs :: s.durationMs == row[3].i)
         && (forall s | s in songs :: row[3].i <= s.durationMs)
         && row[4].Int64? && (exists s | s in songs :: s.durationMs == row[4].i)
         && (forall s | s in songs :: s.durationMs <= row[4].i)
  }

  ghost function LookupSet(p: Plan, id: int): set<Artist> {
    set a | a in p.artists && a.id == id
  }

  ghost function FilteredSet(p: Plan): set<Joined> {
    set t | t in Join(p) && t.artist.id == 1
  }

  ghost predicate LookupRows(p: Plan, id: int, picks: seq<Artist>, rows: seq<Row>) {
    && Picks(picks, LookupSet(p, id), |LookupSet(p, id)|) && |rows| == |picks|
    && forall i | 0 <= i < |rows| :: ArtistRowOf(rows[i], picks[i])
  }

  ghost predicate ViewRows(p: Plan, picks: seq<Joined>, rows: seq<Row>) {
    && Picks(picks, Join(p), Min(|Join(p)|, 1000)) && |rows| == |picks|
    && forall i | 0 <= i < |rows| :: ViewRowOf(rows[i], picks[i])
  }

  ghost predicate FilteredRows(p: Plan, picks: seq<Joined>, rows: seq<Row>) {
    && Picks(picks, FilteredSet(p), |FilteredSet(p)|) && |rows| == |picks|
    && forall i | 0 <= i < |rows| :: FilteredRowOf(rows[i], picks[i])
  }

  /** `rows` is a correct answer to `query` over the tables of `p`. */
  ghost predicate Answers(query: Query, p: Plan, scale: Scale, rows: seq<Row>) {
    match query
    case CountSongs => |rows| == 1 && |rows[0]| == 1 && IsInt(rows[0], 0, |p.songs|)
    case AggregateDurations => |rows| == 1 && AggregateRowOf(rows[0], p.songs)
    case ArtistById => exists picks :: LookupRows(p, Target(scale), picks, rows)
    case TopArtists => exists picks :: TopRows(ArtistGroups(p), picks, rows, "Artist")
    case TopAlbums => exists picks :: TopRows(AlbumGroups(p), picks, rows, "Album")
    case ViewFirst1000 => exists picks :: ViewRows(p, picks, rows)
    case SongsForArtist => exists picks :: FilteredRows(p, picks, rows)
    case Unknown => false
  }

  // Cardinalities

  /** The tables as the view needs them. */
  ghost predicate Tabled(p: Plan) {
    && Rows(p.artists, p.albums, p.songs)
    && forall i | 0 <= i < |p.albums| :: 1 <= p.albums[i].artistId <= |p.artists|
  }

  lemma PlanTabled(scale: Scale, words: Stream)
    ensures
      var p := FullPlan(scale, words);
      Tabled(p) && |p.songs| < TWO63 && |p.artists| == scale.artists
  {
    hide Rows, Sum, QuotaLedger;
    ReferentialIntegrity(scale, words);
    PrefixLaws(scale, words, scale.artists);
  }

  ghost function JoinedOf(p: Plan, j: nat): (t: Joined)
    requires Tabled(p) && j < |p.songs|
    ensures t.song == p.songs[j] && t in Join(p)
  {
    assert SongRow(p.songs[j], j, p.albums);
    var al := p.albums[p.songs[j].albumId - 1];
    var ar := p.artists[al.artistId - 1];
    assert AlbumRow(al, p.songs[j].albumId - 1) && ArtistRow(ar, al.artistId - 1);
    Joined(ar, al, p.songs[j])
  }

  /** The view has exactly one row for every song. */
  lemma JoinSize(p: Plan)
    requires Tabled(p)
    ensures |Join(p)| == |p.songs|
  {
    var s := seq(|p.songs|, j requires 0 <= j < |p.songs| => JoinedOf(p, j));
    forall t | t in Join(p)
      ensures t in s
    {
      JoinedUnique(p, t);
      var j :| 0 <= j < |p.songs| && t == JoinedOf(p, j);
      assert s[j] == t;
    }
    assert (set x | x in s) == Join(p);
    forall i, j | 0 <= i < j < |s|
      ensures s[i] != s[j]
    {
      assert SongRow(p.songs[i], i, p.albums) && SongRow(p.songs[j], j, p.albums);
    }
    DistinctSize(s);
  }

  lemma JoinedUnique(p: Plan, t: Joined)
    requires Tabled(p) && t in Join(p)
    ensures exists j | 0 <= j < |p.songs| :: t == JoinedOf(p, j)
  {
    var j :| 0 <= j < |p.songs| && p.songs[j] == t.song;
    var i :| 0 <= i < |p.albums| && p.albums[i] == t.album;
    var k :| 0 <= k < |p.artists| && p.artists[k] == t.artist;
    assert SongRow(p.songs[j], j, p.albums) && AlbumRow(p.albums[i], i) && ArtistRow(p.artists[k], k);
    assert t == JoinedOf(p, j);
  }

  // Which albums and artists have a song

  /** Album i + 1 exists and the draws before it leave room under the cap. */
  ghost predicate Reached(scale: Scale, p: Plan, i: nat) {
    i < |p.drawn| && Sum(p.drawn[..i]) < Cap(scale)
  }

  lemma {:induction false} OccursSomewhere(keys: seq<int>, k: int)
    ensures Occurrences(keys, k) >= 1 <==> k in keys
  {
    if keys == [] {
    } else {
      OccursSomewhere(keys[..|keys| - 1], k);
      assert keys == keys[..|keys| - 1] + [keys[|keys| - 1]];
    }
  }

  lemma OwnsSongs(p: Plan, id: int)
    ensures SongsOfAlbum(p, id) != {} <==> id in SongOwners(p.songs)
  {
    if s :| s in SongsOfAlbum(p, id) {
      var j :| 0 <= j < |p.songs| && p.songs[j] == s;
      assert SongOwners(p.songs)[j] == id;
    }
    if j :| 0 <= j < |p.songs| && SongOwners(p.songs)[j] == id {
      assert p.songs[j] in SongsOfAlbum(p, id);
    }
  }

  /** An album has a song exactly when the draws before it leave room for one. */
  lemma AlbumHasSong(scale: Scale, words: Stream, i: nat)
    ensures
      var p := FullPlan(scale, words);
      |p.drawn| == |p.albums| && (SongsOfAlbum(p, i + 1) != {} <==> Reached(scale, p, i))
  {
    hide Prefix, SongsOfAlbum, Sum, Occurrences, AlbumLedger, QuotaLedger;
    var p := FullPlan(scale, words);
    OwnsSongs(p, i + 1);
    PrefixLaws(scale, words, scale.artists);
    if i < |p.albums| {
      SongConservation(scale, words, i);
      SumAt(p.drawn, i);
      OccursSomewhere(SongOwners(p.songs), i + 1);
    } else {
      assert forall j | 0 <= j < |p.songs| :: p.songs[j].albumId <= |p.albums|;
    }
  }

  /** The first album of an artist, if they have one, comes after the albums of those before. */
  lemma FirstAlbum(shares: seq<nat>, albums: seq<Album>, a: nat)
    requires AlbumLedger(shares, albums) && |albums| == Sum(shares) && a < |shares|
    ensures forall i | 0 <= i < |albums| && albums[i].artistId == a + 1 :: Sum(shares[..a]) <= i
    ensures Sum(shares[..a]) < |albums| && shares[a] >= 1 ==> albums[Sum(shares[..a])].artistId == a + 1
  {
    hide Sum;
    var f := Sum(shares[..a]);
    if f < |albums| && shares[a] >= 1 {
      var b := albums[f].artistId;
      SumAt(shares, a);
      if b < a + 1 {
        SumMonotone(shares, b, a);
      } else if b > a + 1 {
        SumMonotone(shares, a + 1, b - 1);
      }
    }
  }

  /** An artist has a song exactly when their first album does. */
  lemma ArtistHasSong(scale: Scale, words: Stream, a: nat)
    requires a < scale.artists
    ensures
      var p := FullPlan(scale, words);
      a < |p.shares| && (SongsOfArtist(p, a + 1) != {} <==> Reached(scale, p, Sum(p.shares[..a])))
  {
    hide Prefix, Sum, AlbumLedger, SongLedger, Occurrences, Reached;
    var p := FullPlan(scale, words);
    PrefixLaws(scale, words, scale.artists);
    var f := Sum(p.shares[..a]);
    FirstAlbum(p.shares, p.albums, a);
    if SongsOfArtist(p, a + 1) != {} {
      var s :| s in SongsOfArtist(p, a + 1);
      var j :| 0 <= j < |p.songs| && p.songs[j] == s;
      assert SongRow(p.songs[j], j, p.albums);
      AlbumHasSong(scale, words, s.albumId - 1);
      assert s in SongsOfAlbum(p, s.albumId);
      ReachedBefore(scale, p, f, s.albumId - 1);
    }
    if Reached(scale, p, f) {
      AlbumHasSong(scale, words, f);
      LastGrant(scale, p, a);
      var s :| s in SongsOfAlbum(p, f + 1);
      var j :| 0 <= j < |p.songs| && p.songs[j] == s;
      assert SongRow(p.songs[j], j, p.albums);
      assert s in SongsOfArtist(p, a + 1);
    }
  }

  lemma ReachedBefore(scale: Scale, p: Plan, i: nat, j: nat)
    requires i <= j && Reached(scale, p, j)
    ensures Reached(scale, p, i)
  {
    SumMonotone(p.drawn, i, j);
  }

  /** An artist whose first album would exist has been granted one. */
  lemma LastGrant(scale: Scale, p: Plan, a: nat)
    requires Lawful(scale, p) && a < |p.shares| == scale.artists && Reached(scale, p, Sum(p.shares[..a]))
    ensures Sum(p.shares[..a]) < |p.albums| && p.shares[a] >= 1
  {
    hide Sum, AlbumLedger, SongLedger, Rows;
    assert Share(scale, a, p.shares[a]);
    SumAt(p.shares, a);
    if a == |p.shares| - 1 {
      assert p.shares[..a + 1] == p.shares;
    }
  }

  /** The cap on songs never binds: it covers every album's largest draw. */
  ghost predicate Ample(scale: Scale) {
    && 1 <= scale.artists <= scale.albums
    && scale.albums * Max(scale.maxSongsPerAlbum, 1) <= SongQuota(scale)
  }

  /** With an ample cap every album is reached. */
  lemma AmpleReached(scale: Scale, words: Stream, i: nat)
    requires Ample(scale)
    ensures var p := FullPlan(scale, words); |p.albums| == scale.albums && (Reached(scale, p, i) <==> i < scale.albums)
  {
    hide Prefix, AlbumLedger, Rows, Sum;
    var p := FullPlan(scale, words);
    PrefixLaws(scale, words, scale.artists);
    SumAtMost(p.drawn, Max(scale.maxSongsPerAlbum, 1));
    assert |p.drawn| == scale.albums;
    if i < |p.drawn| {
      SumAt(p.drawn, i);
      SumMonotone(p.drawn, i + 1, |p.drawn|);
      assert p.drawn[..|p.drawn|] == p.drawn;
    }
  }

  // The two top-ten queries

  lemma ArtistGroupKeys(p: Plan)
    requires Rows(p.artists, p.albums, p.songs)
    ensures forall g | g in ArtistGroups(p) :: 1 <= g.id <= |p.artists| && g.count == |SongsOfArtist(p, g.id)| >= 1
  {
    forall g | g in ArtistGroups(p)
      ensures 1 <= g.id <= |p.artists| && g.count == |SongsOfArtist(p, g.id)| >= 1
    {
      var a :| a in p.artists && SongsOfArtist(p, a.id) != {} && g == Group(a.id, |SongsOfArtist(p, a.id)|);
      var i :| 0 <= i < |p.artists| && p.artists[i] == a;
      assert ArtistRow(p.artists[i], i);
    }
  }

  lemma AlbumGroupKeys(p: Plan)
    requires Rows(p.artists, p.albums, p.songs)
    ensures forall g | g in AlbumGroups(p) :: 1 <= g.id <= |p.albums| && g.count == |SongsOfAlbum(p, g.id)| >= 1
  {
    forall g | g in AlbumGroups(p)
      ensures 1 <= g.id <= |p.albums| && g.count == |SongsOfAlbum(p, g.id)| >= 1
    {
      var a :| a in p.albums && SongsOfAlbum(p, a.id) != {} && g == Group(a.id, |SongsOfAlbum(p, a.id)|);
      var i :| 0 <= i < |p.albums| && p.albums[i] == a;
      assert AlbumRow(p.albums[i], i);
    }
  }

  lemma ArtistGroupsIds(p: Plan)
    requires Rows(p.artists, p.albums, p.songs)
    ensures (set g | g in ArtistGroups(p) :: g.id) == (set id | 1 <= id <= |p.artists| && SongsOfArtist(p, id) != {})
  {
    hide SongsOfArtist;
    ArtistGroupKeys(p);
    forall id | 1 <= id <= |p.artists| && SongsOfArtist(p, id) != {}
      ensures exists g | g in ArtistGroups(p) :: g.id == id
    {
      var a := p.artists[id - 1];
      assert ArtistRow(a, id - 1) && a in p.artists;
      assert Group(a.id, |SongsOfArtist(p, a.id)|) in ArtistGroups(p);
    }
  }

  lemma AlbumGroupsIds(p: Plan)
    requires Rows(p.artists, p.albums, p.songs)
    ensures (set g | g in AlbumGroups(p) :: g.id) == (set id | 1 <= id <= |p.albums| && SongsOfAlbum(p, id) != {})
  {
    hide SongsOfAlbum;
    AlbumGroupKeys(p);
    forall id | 1 <= id <= |p.albums| && SongsOfAlbum(p, id) != {}
      ensures exists g | g in AlbumGroups(p) :: g.id == id
    {
      var a := p.albums[id - 1];
      assert AlbumRow(a, id - 1) && a in p.albums;
      assert Group(a.id, |SongsOfAlbum(p, a.id)|) in AlbumGroups(p);
    }
  }

  lemma {:induction false} GroupIds(groups: set<Group>)
    requires forall g, h | g in groups && h in groups && g.id == h.id :: g == h
    ensures |set g | g in groups :: g.id| == |groups|
  {
    if groups == {} {
    } else {
      var x :| x in groups;
      GroupIds(groups - {x});
      assert (set g | g in groups :: g.id) == (set g | g in groups - {x} :: g.id) + {x.id};
    }
  }

  /** There are k groups of artists exactly when artist k has a song. */
  lemma ArtistGroupCount(scale: Scale, words: Stream, k: nat)
    requires k >= 1
    ensures
      var p := FullPlan(scale, words);
      |ArtistGroups(p)| >= k <==> k <= scale.artists && SongsOfArtist(p, k) != {}
  {
    hide FullPlan, ArtistGroups, SongsOfArtist, Rows, Reached, Sum;
    var p := FullPlan(scale, words);
    PlanTabled(scale, words);
    ArtistGroupKeys(p);
    GroupIds(ArtistGroups(p));
    ArtistGroupsIds(p);
    var ids := set id | 1 <= id <= |p.artists| && SongsOfArtist(p, id) != {};
    forall i, j | i in ids && 1 <= j <= i
      ensures j in ids
    {
      ArtistHasSong(scale, words, i - 1);
      ArtistHasSong(scale, words, j - 1);
      SumMonotone(p.shares, j - 1, i - 1);
      ReachedBefore(scale, p, Sum(p.shares[..j - 1]), Sum(p.shares[..i - 1]));
    }
    InitialSize(ids, k);
  }

  /** There are k groups of albums exactly when album k has a song. */
  lemma AlbumGroupCount(scale: Scale, words: Stream, k: nat)
    requires k >= 1
    ensures
      var p := FullPlan(scale, words);
      |AlbumGroups(p)| >= k <==> k <= |p.albums| && SongsOfAlbum(p, k) != {}
  {
    hide FullPlan, AlbumGroups, SongsOfAlbum, Rows, Reached, Sum;
    var p := FullPlan(scale, words);
    PlanTabled(scale, words);
    AlbumGroupKeys(p);
    GroupIds(AlbumGroups(p));
    AlbumGroupsIds(p);
    var ids := set id | 1 <= id <= |p.albums| && SongsOfAlbum(p, id) != {};
    forall i, j | i in ids && 1 <= j <= i
      ensures j in ids
    {
      AlbumHasSong(scale, words, i - 1);
      AlbumHasSong(scale, words, j - 1);
      ReachedBefore(scale, p, j - 1, i - 1);
    }
    InitialSize(ids, k);
  }

  /** A correct top-ten answer has the shape the checker wants, apart from its length. */
  lemma TopRowsPass(groups: set<Group>, picks: seq<Group>, rows: seq<Row>, kind: string)
    requires TopRows(groups, picks, rows, kind)
    requires forall g | g in groups :: g.id >= 1 && g.count >= 1
    requires forall g, h | g in groups && h in groups && g.id == h.id :: g == h
    ensures TopRowsOk(rows, kind) && |rows| == Min(10, |groups|)
  {
    hide Named;
    assert forall i | 0 <= i < |rows| :: TopRowOf(rows[i], kind, picks[i]) && picks[i] in groups;
  }

  // The other queries

  /** Every duration lies between the minimum and the maximum, so the mean does too. */
  lemma {:induction false} DurationBounds(songs: seq<Song>, lo: int, hi: int)
    requires forall s | s in songs :: lo <= s.durationMs <= hi
    ensures |songs| * lo <= TotalDuration(songs) <= |songs| * hi
  {
    if songs == [] {
    } else {
      var k := |songs| - 1;
      assert songs[k] in songs;
      DurationBounds(songs[..k], lo, hi);
      assert |songs| * lo == k * lo + lo && |songs| * hi == k * hi + hi;
    }
  }

  lemma MeanBetween(sum: int, n: int, lo: int, hi: int)
    requires n > 0 && n * lo <= sum <= n * hi
    ensures lo as real <= sum as real / n as real <= hi as real
  {
    var x, m := sum as real, n as real;
    var mean := x / m;
    assert mean * m == x;
    assert (n * lo) as real == m * lo as real && (n * hi) as real == m * hi as real;
    DivideBetween(x, m, lo as real, hi as real);
  }

  lemma DivideBetween(x: real, m: real, lo: real, hi: real)
    requires m > 0.0 && m * lo <= x <= m * hi
    ensures lo <= x / m <= hi
  {
  }

  lemma DurationsPositive(p: Plan)
    requires Rows(p.artists, p.albums, p.songs)
    ensures forall s | s in p.songs :: 60000 <= s.durationMs
  {
    forall s | s in p.songs
      ensures 60000 <= s.durationMs
    {
      var j :| 0 <= j < |p.songs| && p.songs[j] == s;
      assert SongRow(p.songs[j], j, p.albums);
    }
  }

  lemma SumPositive(sum: int, n: int, lo: int)
    requires n > 0 && lo > 0 && n * lo <= sum
    ensures sum > 0
  {
    assert (n - 1) * lo >= 0;
  }

  lemma AggregatePass(row: Row, p: Plan)
    requires Rows(p.artists, p.albums, p.songs) && p.songs != []
    requires AggregateRowOf(row, p.songs)
    ensures AggregateOk(row, |p.songs|)
  {
    hide TotalDuration, Rows;
    DurationsPositive(p);
    var n, sum, lo, hi := |p.songs|, TotalDuration(p.songs), row[3].i, row[4].i;
    assert p.songs[0] in p.songs;
    DurationBounds(p.songs, lo, hi);
    SumPositive(sum, n, lo);
    MeanBetween(sum, n, lo, hi);
    var mean := sum as real / n as real;
    assert Abs(mean - mean) == 0.0;
    assert NumberAt(row, 2) == Finite(mean);
  }

  lemma LookupPass(p: Plan, target: nat, picks: seq<Artist>, rows: seq<Row>)
    requires Rows(p.artists, p.albums, p.songs) && 1 <= target <= |p.artists|
    requires LookupRows(p, target, picks, rows)
    ensures |rows| == 1 && ArtistOk(rows[0], target)
  {
    hide Named, Rows;
    LookupOne(p, target);
    assert ArtistRowOf(rows[0], picks[0]);
    CountriesNamed(p.artists[target - 1].country);
  }

  lemma CountriesNamed(c: string)
    requires c in COUNTRIES
    ensures c != ""
  {
  }

  lemma ViewPass(row: Row, t: Joined, p: Plan)
    requires Tabled(p) && t in Join(p)
    ensures ViewRowOf(row, t) ==> ViewOk(row)
    ensures FilteredRowOf(row, t) ==> FilteredOk(row)
  {
    hide NatText;
    JoinedUnique(p, t);
    var j :| 0 <= j < |p.songs| && t == JoinedOf(p, j);
    assert SongRow(p.songs[j], j, p.albums);
    var i := p.songs[j].albumId - 1;
    assert AlbumRow(p.albums[i], i) && ArtistRow(p.artists[p.albums[i].artistId - 1], p.albums[i].artistId - 1);
    assert "Album" + " " == "Album " && "Song" + " " == "Song ";
  }

  /** The filtered view has a row exactly when artist 1 has a song. */
  lemma FilteredNonEmpty(p: Plan)
    requires Tabled(p)
    ensures FilteredSet(p) != {} <==> SongsOfArtist(p, 1) != {}
  {
    if s :| s in SongsOfArtist(p, 1) {
      var j :| 0 <= j < |p.songs| && p.songs[j] == s;
      JoinedArtist(p, j);
      assert JoinedOf(p, j) in FilteredSet(p);
    }
    if t :| t in FilteredSet(p) {
      JoinedUnique(p, t);
      var j :| 0 <= j < |p.songs| && t == JoinedOf(p, j);
      JoinedArtist(p, j);
      assert t.song in SongsOfArtist(p, 1);
    }
  }

  lemma JoinedArtist(p: Plan, j: nat)
    requires Tabled(p) && j < |p.songs|
    ensures JoinedOf(p, j).artist.id == p.songs[j].artistId
  {
    assert SongRow(p.songs[j], j, p.albums);
    var i := p.songs[j].albumId - 1;
    assert ArtistRow(p.artists[p.albums[i].artistId - 1], p.albums[i].artistId - 1);
  }

  // The theorem

  /** What the tables must hold for the correct answer to `query` to pass. */
  ghost predicate TablesHold(query: Query, p: Plan) {
    match query
    case AggregateDurations => p.songs != []
    case ArtistById => p.artists != []
    case TopArtists => |ArtistGroups(p)| >= 10
    case TopAlbums => |AlbumGroups(p)| >= 10
    case SongsForArtist => SongsOfArtist(p, 1) != {}
    case _ => true
  }

  lemma TabledAnswer(p: Plan, scale: Scale, query: Query, rows: seq<Row>)
    requires Tabled(p) && |p.songs| < TWO63 && |p.artists| == scale.artists
    requires Answers(query, p, scale, rows)
    ensures Accepts(query, rows, scale, |p.songs|) <==> TablesHold(query, p)
  {
    hide TopRows, TopRowsOk, Rows, Picks, AggregateRowOf, AggregateOk, ViewRowOf, ViewOk, FilteredRowOf, FilteredOk,
      ArtistGroups, AlbumGroups, ArtistOk, LookupRows, Join, FilteredSet;
    match query
    case CountSongs =>
    case AggregateDurations => AggregateAnswer(rows[0], p);
    case ArtistById =>
      var picks :| LookupRows(p, Target(scale), picks, rows);
      LookupAnswer(p, scale, picks, rows);
    case TopArtists =>
      var picks :| TopRows(ArtistGroups(p), picks, rows, "Artist");
      ArtistGroupKeys(p);
      TopRowsPass(ArtistGroups(p), picks, rows, "Artist");
    case TopAlbums =>
      var picks :| TopRows(AlbumGroups(p), picks, rows, "Album");
      AlbumGroupKeys(p);
      TopRowsPass(AlbumGroups(p), picks, rows, "Album");
    case ViewFirst1000 =>
      ViewAnswer(p, rows);
    case SongsForArtist =>
      FilteredAnswer(p, rows);
  }

  lemma AggregateAnswer(row: Row, p: Plan)
    requires Rows(p.artists, p.albums, p.songs) && AggregateRowOf(row, p.songs)
    ensures AggregateOk(row, |p.songs|) <==> p.songs != []
  {
    hide TotalDuration, Rows;
    if p.songs == [] {
      assert row[1] == row[1..][0];
    } else {
      AggregatePass(row, p);
    }
  }

  lemma LookupAnswer(p: Plan, scale: Scale, picks: seq<Artist>, rows: seq<Row>)
    requires Rows(p.artists, p.albums, p.songs) && |p.artists| == scale.artists
    requires LookupRows(p, Target(scale), picks, rows)
    ensures |rows| == 1 && ArtistOk(rows[0], Target(scale)) <==> p.artists != []
  {
    hide ArtistOk, ArtistRowOf, Rows;
    if p.artists == [] {
      assert LookupSet(p, Target(scale)) == {};
    } else {
      LookupPass(p, Target(scale), picks, rows);
    }
  }

  lemma ViewAnswer(p: Plan, rows: seq<Row>)
    requires Tabled(p) && exists picks :: ViewRows(p, picks, rows)
    ensures |rows| == Min(|p.songs|, 1000) && forall k | 0 <= k < |rows| :: ViewOk(rows[k])
  {
    hide Tabled, ViewRowOf, ViewOk, Join;
    var picks :| ViewRows(p, picks, rows);
    JoinSize(p);
    forall k | 0 <= k < |rows|
      ensures ViewOk(rows[k])
    {
      ViewPass(rows[k], picks[k], p);
    }
  }

  lemma FilteredAnswer(p: Plan, rows: seq<Row>)
    requires Tabled(p) && exists picks :: FilteredRows(p, picks, rows)
    ensures |rows| > 0 <==> SongsOfArtist(p, 1) != {}
    ensures forall k | 0 <= k < |rows| :: FilteredOk(rows[k])
  {
    hide Tabled, FilteredRowOf, FilteredOk, Join, SongsOfArtist;
    var picks :| FilteredRows(p, picks, rows);
    FilteredNonEmpty(p);
    forall k | 0 <= k < |rows|
      ensures FilteredOk(rows[k])
    {
      ViewPass(rows[k], picks[k], p);
    }
  }

  /**
   The same in the scale, and for the top-ten queries in the draws before the tenth album and
   before the first album of the tenth artist.
   */
  ghost predicate EnoughFor(query: Query, scale: Scale, p: Plan) {
    match query
    case AggregateDurations => TotalAlbums(scale) >= 1 && Cap(scale) >= 1
    case SongsForArtist => TotalAlbums(scale) >= 1 && Cap(scale) >= 1
    case ArtistById => scale.artists >= 1
    case TopArtists => scale.artists >= 10 && |p.shares| >= 9 && Reached(scale, p, Sum(p.shares[..9]))
    case TopAlbums => Reached(scale, p, 9)
    case _ => true
  }

  /** The first album belongs to the first artist and takes the first song, so there is one as soon as there is any. */
  lemma SomeSong(scale: Scale, words: Stream)
    ensures
      var p := FullPlan(scale, words);
      && (p.songs != [] <==> TotalAlbums(scale) >= 1 && Cap(scale) >= 1)
      && (SongsOfArtist(p, 1) != {} <==> TotalAlbums(scale) >= 1 && Cap(scale) >= 1)
  {
    hide Prefix, Occurrences, AlbumLedger, SongsOfArtist, SongsOfAlbum;
    var p := FullPlan(scale, words);
    PrefixLaws(scale, words, scale.artists);
    AlbumConservation(scale, words);
    assert p.shares[..0] == [] && p.drawn[..0] == [];
    AlbumHasSong(scale, words, 0);
    if scale.artists >= 1 {
      ArtistHasSong(scale, words, 0);
    }
    SongsOwned(p);
  }

  lemma SongsOwned(p: Plan)
    requires Rows(p.artists, p.albums, p.songs)
    ensures p.songs == [] ==> SongsOfArtist(p, 1) == {} && SongsOfAlbum(p, 1) == {}
    ensures p.songs != [] ==> p.albums != []
  {
    if p.songs != [] {
      assert SongRow(p.songs[0], 0, p.albums);
    }
  }

  lemma TablesDecided(scale: Scale, words: Stream, query: Query)
    ensures var p := FullPlan(scale, words); TablesHold(query, p) <==> EnoughFor(query, scale, p)
  {
    hide FullPlan, ArtistGroups, AlbumGroups, SongsOfArtist, SongsOfAlbum, Sum, TotalAlbums, Cap, Rows;
    PlanTabled(scale, words);
    match query
    case AggregateDurations => SomeSong(scale, words);
    case SongsForArtist => SomeSong(scale, words);
    case ArtistById =>
    case TopArtists =>
      ArtistGroupCount(scale, words, 10);
      if scale.artists >= 10 {
        ArtistHasSong(scale, words, 9);
      }
    case TopAlbums =>
      AlbumGroupCount(scale, words, 10);
      AlbumHasSong(scale, words, 9);
    case _ =>
  }

  /**
   End to end: over the tables of any seed at any scale, the checker accepts a correct answer
   exactly when the scale and the draws provide enough for the query.
   */
  lemma AnswersDecided(scale: Scale, words: Stream, query: Query, rows: seq<Row>)
    requires Answers(query, FullPlan(scale, words), scale, rows)
    ensures
      var p := FullPlan(scale, words);
      |p.songs| < TWO63 && (Accepts(query, rows, scale, |p.songs|) <==> EnoughFor(query, scale, p))
  {
    hide FullPlan, Answers, Accepts, EnoughFor, TablesHold;
    PlanTabled(scale, words);
    TabledAnswer(FullPlan(scale, words), scale, query, rows);
    TablesDecided(scale, words, query);
  }

  lemma AmplePopulated(scale: Scale, words: Stream)
    requires Ample(scale)
    ensures
      var p := FullPlan(scale, words);
      && |p.artists| == scale.artists && |p.albums| == scale.albums
      && (forall id | 1 <= id <= |p.artists| :: SongsOfArtist(p, id) != {})
      && (forall id | 1 <= id <= |p.albums| :: SongsOfAlbum(p, id) != {})
  {
    hide FullPlan, Occurrences, Sum, Reached, SongsOfArtist, SongsOfAlbum;
    var p := FullPlan(scale, words);
    AlbumConservation(scale, words);
    forall id | 1 <= id <= |p.albums|
      ensures SongsOfAlbum(p, id) != {}
    {
      AlbumHasSong(scale, words, id - 1);
      AmpleReached(scale, words, id - 1);
    }
    forall id | 1 <= id <= |p.artists|
      ensures SongsOfArtist(p, id) != {}
    {
      FirstReached(scale, words, id - 1);
      ArtistHasSong(scale, words, id - 1);
    }
  }

  lemma FirstReached(scale: Scale, words: Stream, a: nat)
    requires Ample(scale) && a < scale.artists
    ensures
      var p := FullPlan(scale, words);
      |p.shares| == scale.artists && Reached(scale, p, Sum(p.shares[..a]))
  {
    hide Prefix, Reached, Occurrences, Sum, SongLedger, AlbumLedger, Rows;
    var p := FullPlan(scale, words);
    PrefixLaws(scale, words, scale.artists);
    AlbumConservation(scale, words);
    SumAt(p.shares, a);
    SumMonotone(p.shares, a + 1, |p.shares|);
    assert p.shares[..|p.shares|] == p.shares;
    AmpleReached(scale, words, Sum(p.shares[..a]));
  }

  /**
   At a scale whose cap never binds every correct answer passes, given ten artists for the
   top artists and ten albums for the top albums, and with fewer no correct answer to those does.
   */
  lemma CorrectAnswersAccepted(scale: Scale, words: Stream, query: Query, rows: seq<Row>)
    requires Ample(scale) && Answers(query, FullPlan(scale, words), scale, rows)
    ensures |FullPlan(scale, words).songs| < TWO63
    ensures Accepts(query, rows, scale, |FullPlan(scale, words).songs|)
            <==> (query.TopArtists? ==> scale.artists >= 10) && (query.TopAlbums? ==> scale.albums >= 10)
  {
    hide FullPlan, Answers, Accepts, Reached, Sum;
    AnswersDecided(scale, words, query, rows);
    AmpleReached(scale, words, 9);
    AmpleCap(scale);
    if scale.artists >= 10 {
      FirstReached(scale, words, 9);
    }
  }

  lemma AmpleCap(scale: Scale)
    requires Ample(scale)
    ensures TotalAlbums(scale) >= 1 && Cap(scale) >= 1
  {
    hide SongQuota;
    ProductAtLeast(scale.albums, Max(scale.maxSongsPerAlbum, 1));
  }

  lemma ProductAtLeast(a: nat, b: nat)
    requires b >= 1
    ensures a * b >= a
  {
    assert a * (b - 1) >= 0;
  }

  // Correct answers exist, so the theorem is never about nothing

  lemma {:induction false} Listing<T>(all: set<T>) returns (picks: seq<T>)
    ensures Picks(picks, all, |all|)
    ensures forall x | x in all :: x in picks
  {
    if all == {} {
      picks := [];
    } else {
      var x :| x in all;
      var rest := Listing(all - {x});
      picks := [x] + rest;
    }
  }

  lemma {:induction false} LargestGroup(groups: set<Group>) returns (g: Group)
    requires groups != {}
    ensures g in groups && forall h | h in groups :: h.count <= g.count
  {
    g :| g in groups;
    if groups == {g} {
    } else {
      assert groups - {g} != {};
      var h := LargestGroup(groups - {g});
      if g.count < h.count {
        g := h;
      }
    }
  }

  lemma {:induction false} Ranking(groups: set<Group>) returns (picks: seq<Group>)
    ensures Picks(picks, groups, |groups|)
    ensures forall g | g in groups :: g in picks
    ensures forall i, j | 0 <= i < j < |picks| :: picks[i].count >= picks[j].count
  {
    if groups == {} {
      picks := [];
    } else {
      var g := LargestGroup(groups);
      var rest := Ranking(groups - {g});
      picks := [g] + rest;
    }
  }

  ghost predicate Fits(n: int) {
    0 <= n < TWO63
  }

  lemma {:induction false} TopRowsFor(picks: seq<Group>, kind: string) returns (rows: seq<Row>)
    requires forall g | g in picks :: Fits(g.id) && Fits(g.count)
    ensures |rows| == |picks| && forall i | 0 <= i < |rows| :: TopRowOf(rows[i], kind, picks[i])
  {
    hide Named;
    if picks == [] {
      rows := [];
    } else {
      rows := TopRowsFor(picks[1..], kind);
      var g := picks[0];
      assert g in picks;
      rows := [[Int64(g.id), Value.Text(Named(kind, g.id)), Int64(g.count)]] + rows;
    }
  }

  lemma TopExists(groups: set<Group>, kind: string)
    requires forall g | g in groups :: Fits(g.id) && Fits(g.count)
    ensures exists rows, picks :: TopRows(groups, picks, rows, kind)
  {
    hide TopRowOf;
    var ranking := Ranking(groups);
    var picks := ranking[..Min(10, |groups|)];
    var rows := TopRowsFor(picks, kind);
    forall g, i | g in groups && g !in picks && 0 <= i < |picks|
      ensures g.count <= picks[i].count
    {
      var j :| 0 <= j < |ranking| && ranking[j] == g;
    }
    assert TopRows(groups, picks, rows, kind);
  }

  lemma {:induction false} ViewRowsFor(p: Plan, picks: seq<Joined>) returns (view: seq<Row>, filtered: seq<Row>)
    requires Tabled(p) && |p.songs| < TWO63 && |p.artists| < TWO63
    requires forall t | t in picks :: t in Join(p)
    ensures |view| == |picks| && forall i | 0 <= i < |view| :: ViewRowOf(view[i], picks[i])
    ensures |filtered| == |picks| && forall i | 0 <= i < |filtered| :: FilteredRowOf(filtered[i], picks[i])
  {
    hide ViewRowOf, FilteredRowOf, Join, Tabled;
    if picks == [] {
      view, filtered := [], [];
    } else {
      var restView, restFiltered := ViewRowsFor(p, picks[1..]);
      assert picks[0] in picks;
      var v, f := RowsFor(p, picks[0]);
      view, filtered := [v] + restView, [f] + restFiltered;
    }
  }

  lemma RowsFor(p: Plan, t: Joined) returns (view: Row, filtered: Row)
    requires Tabled(p) && |p.songs| < TWO63 && |p.artists| < TWO63 && t in Join(p)
    ensures ViewRowOf(view, t) && FilteredRowOf(filtered, t)
  {
    hide Named, Join, Tabled;
    JoinedFits(p, t);
    var artist, album, song := Named("Artist", t.artist.id), Named("Album", t.album.id), Named("Song", t.song.id);
    view := [Int64(t.artist.id), Value.Text(artist), Value.Text(album), Value.Text(song)];
    filtered := [Value.Text(album), Value.Text(song), Int64(t.song.durationMs)];
  }

  lemma JoinedFits(p: Plan, t: Joined)
    requires Tabled(p) && |p.songs| < TWO63 && |p.artists| < TWO63 && t in Join(p)
    ensures Fits(t.artist.id) && t.album.id >= 0 && Fits(t.song.id) && Fits(t.song.durationMs)
  {
    JoinedUnique(p, t);
    var j :| 0 <= j < |p.songs| && t == JoinedOf(p, j);
    assert SongRow(p.songs[j], j, p.albums);
    var i := p.songs[j].albumId - 1;
    assert AlbumRow(p.albums[i], i) && ArtistRow(p.artists[p.albums[i].artistId - 1], p.albums[i].artistId - 1);
  }

  lemma ViewExists(p: Plan)
    requires Tabled(p) && |p.songs| < TWO63 && |p.artists| < TWO63
    ensures exists rows, picks :: ViewRows(p, picks, rows)
    ensures exists rows, picks :: FilteredRows(p, picks, rows)
  {
    hide Join, ViewRowOf, FilteredRowOf, Rows;
    var all := Listing(Join(p));
    var picks := all[..Min(|Join(p)|, 1000)];
    var view, filtered := ViewRowsFor(p, picks);
    assert ViewRows(p, picks, view);
    picks := Listing(FilteredSet(p));
    view, filtered := ViewRowsFor(p, picks);
    assert FilteredRows(p, picks, filtered);
  }

  lemma {:induction false} Extremes(songs: seq<Song>) returns (lo: Song, hi: Song)
    requires songs != []
    ensures lo in songs && hi in songs
    ensures forall s | s in songs :: lo.durationMs <= s.durationMs <= hi.durationMs
  {
    var last := songs[|songs| - 1];
    lo, hi := last, last;
    if |songs| == 1 {
    } else {
      lo, hi := Extremes(songs[..|songs| - 1]);
      if last.durationMs < lo.durationMs {
        lo := last;
      }
      if last.durationMs > hi.durationMs {
        hi := last;
      }
    }
  }

  lemma AggregateExists(p: Plan)
    requires Rows(p.artists, p.albums, p.songs)
    requires |p.songs| < TWO63 && IsInt64(TotalDuration(p.songs))
    ensures exists row :: AggregateRowOf(row, p.songs)
  {
    hide TotalDuration;
    if p.songs == [] {
      assert AggregateRowOf([Int64(0), Null, Null, Null, Null], p.songs);
      return;
    }
    var lo, hi := Extremes(p.songs);
    var i :| 0 <= i < |p.songs| && p.songs[i] == lo;
    var j :| 0 <= j < |p.songs| && p.songs[j] == hi;
    assert SongRow(lo, i, p.albums) && SongRow(hi, j, p.albums);
    var sum := TotalDuration(p.songs);
    var row: Row := [Int64(|p.songs|), Int64(sum), Float64(Finite(sum as real / |p.songs| as real)),
                     Int64(lo.durationMs), Int64(hi.durationMs)];
    assert AggregateRowOf(row, p.songs);
  }

  lemma LookupExists(p: Plan, target: nat)
    requires Rows(p.artists, p.albums, p.songs) && 1 <= target && |p.artists| < TWO63
    ensures exists rows, picks :: LookupRows(p, target, picks, rows)
  {
    hide Named, COUNTRIES;
    if target > |p.artists| {
      assert forall i | 0 <= i < |p.artists| :: ArtistRow(p.artists[i], i);
      assert LookupSet(p, target) == {};
      assert LookupRows(p, target, [], []);
    } else {
      var a := p.artists[target - 1];
      LookupOne(p, target);
      var row: Row := [Int64(a.id), Value.Text(Named("Artist", a.id)), Value.Text(a.country), Int64(a.formedYear)];
      assert LookupRows(p, target, [a], [row]);
    }
  }

  lemma LookupOne(p: Plan, target: nat)
    requires Rows(p.artists, p.albums, p.songs) && 1 <= target <= |p.artists|
    ensures var a := p.artists[target - 1]; ArtistRow(a, target - 1) && LookupSet(p, target) == {a}
  {
    var a := p.artists[target - 1];
    assert ArtistRow(a, target - 1);
    forall b | b in LookupSet(p, target)
      ensures b == a
    {
      var i :| 0 <= i < |p.artists| && p.artists[i] == b;
      assert ArtistRow(p.artists[i], i);
    }
  }

  lemma GroupsFit(p: Plan)
    requires Tabled(p) && |p.songs| < TWO63 && |p.artists| < TWO63 && |p.albums| < TWO63
    ensures forall g | g in ArtistGroups(p) + AlbumGroups(p) :: Fits(g.id) && Fits(g.count)
  {
    hide Rows, SongsOfArtist, SongsOfAlbum;
    DistinctSongs(p);
    ArtistGroupKeys(p);
    AlbumGroupKeys(p);
    forall g | g in ArtistGroups(p)
      ensures Fits(g.id) && Fits(g.count)
    {
      SongCounts(p, g.id);
    }
    forall g | g in AlbumGroups(p)
      ensures Fits(g.id) && Fits(g.count)
    {
      SongCounts(p, g.id);
    }
  }

  lemma SongCounts(p: Plan, id: int)
    ensures |SongsOfArtist(p, id)| <= |set s | s in p.songs| && |SongsOfAlbum(p, id)| <= |set s | s in p.songs|
  {
    SubsetSize(SongsOfArtist(p, id), set s | s in p.songs);
    SubsetSize(SongsOfAlbum(p, id), set s | s in p.songs);
  }

  lemma DistinctSongs(p: Plan)
    requires Tabled(p)
    ensures |set s | s in p.songs| == |p.songs|
  {
    forall i, j | 0 <= i < j < |p.songs|
      ensures p.songs[i] != p.songs[j]
    {
      assert SongRow(p.songs[i], i, p.albums) && SongRow(p.songs[j], j, p.albums);
    }
    DistinctSize(p.songs);
  }

  /**
   At every scale every known query has a correct answer, the duration aggregate exactly when
   the sum is a 64-bit integer, so `AnswersDecided` is never about nothing.
   */
  lemma AnswersExist(scale: Scale, words: Stream, query: Query)
    ensures
      var p := FullPlan(scale, words);
      (exists rows :: Answers(query, p, scale, rows))
      <==> !query.Unknown? && (query.AggregateDurations? ==> IsInt64(TotalDuration(p.songs)))
  {
    hide FullPlan, Answers, TotalDuration, Rows, Sum;
    var p := FullPlan(scale, words);
    PlanTabled(scale, words);
    AlbumConservation(scale, words);
    if rows :| Answers(query, p, scale, rows) {
      AnswerSum(p, scale, query, rows);
    }
    if !query.Unknown? && (query.AggregateDurations? ==> IsInt64(TotalDuration(p.songs))) {
      TabledHasAnswer(p, scale, query);
    }
  }

  lemma AnswerSum(p: Plan, scale: Scale, query: Query, rows: seq<Row>)
    requires Answers(query, p, scale, rows)
    ensures !query.Unknown? && (query.AggregateDurations? ==> IsInt64(TotalDuration(p.songs)))
  {
    hide TopRows, LookupRows, ViewRows, FilteredRows;
  }

  lemma TabledHasAnswer(p: Plan, scale: Scale, query: Query)
    requires Tabled(p) && |p.songs| < TWO63 && |p.artists| == scale.artists && |p.albums| < TWO63
    requires !query.Unknown? && (query.AggregateDurations? ==> IsInt64(TotalDuration(p.songs)))
    ensures exists rows :: Answers(query, p, scale, rows)
  {
    hide TopRows, Rows, AggregateRowOf, ArtistGroups, AlbumGroups, LookupRows, ViewRows, FilteredRows, TotalDuration;
    match query
    case CountSongs =>
      var rows: seq<Row> := [[Int64(|p.songs|)]];
      assert Answers(query, p, scale, rows);
    case AggregateDurations =>
      AggregateExists(p);
      var row :| AggregateRowOf(row, p.songs);
      assert Answers(query, p, scale, [row]);
    case ArtistById =>
      LookupExists(p, Target(scale));
      var rows, picks :| LookupRows(p, Target(scale), picks, rows);
      assert Answers(query, p, scale, rows);
    case TopArtists =>
      GroupsFit(p);
      TopExists(ArtistGroups(p), "Artist");
      var rows, picks :| TopRows(ArtistGroups(p), picks, rows, "Artist");
      assert Answers(query, p, scale, rows);
    case TopAlbums =>
      GroupsFit(p);
      TopExists(AlbumGroups(p), "Album");
      var rows, picks :| TopRows(AlbumGroups(p), picks, rows, "Album");
      assert Answers(query, p, scale, rows);
    case ViewFirst1000 =>
      ViewExists(p);
      var rows, picks :| ViewRows(p, picks, rows);
      assert Answers(query, p, scale, rows);
    case SongsForArtist =>
      ViewExists(p);
      var rows, picks :| FilteredRows(p, picks, rows);
      assert Answers(query, p, scale, rows);
  }

  /** Nine artists with one album and song each: the top-ten queries have correct answers, and all are rejected. */
  lemma NineGroupsRejected(words: Stream, query: Query)
    requires query.TopArtists? || query.TopAlbums?
    ensures
      var scale := Scale(9, 9, 1, 9);
      var p := FullPlan(scale, words);
      && |p.songs| < TWO63
      && (exists rows :: Answers(query, p, scale, rows))
      && (forall rows | Answers(query, p, scale, rows) :: !Accepts(query, rows, scale, |p.songs|))
  {
    hide FullPlan, Answers, Accepts, TotalDuration;
    var scale := Scale(9, 9, 1, 9);
    PlanTabled(scale, words);
    AnswersExist(scale, words, query);
    forall rows | Answers(query, FullPlan(scale, words), scale, rows)
      ensures !Accepts(query, rows, scale, |FullPlan(scale, words).songs|)
    {
      CorrectAnswersAccepted(scale, words, query, rows);
    }
  }
}
