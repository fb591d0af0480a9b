/**
 What an accepted answer says about the tables: the checker accepts exactly the stated rows,
 and what it compares is what a correct answer holds.
 */
module Soundness {
  import opened Machine
  import opened SplitMix
  import opened SeedPlan
  import opened PlanLaws
  import opened Semantic
  import opened Text
  import opened Queries
  import opened EndToEnd

  lemma SongsFit(scale: Scale, words: Stream)
    ensures |FullPlan(scale, words).songs| < TWO63 && |FullPlan(scale, words).artists| == scale.artists
  {
    hide FullPlan, Tabled;
    PlanTabled(scale, words);
  }

  /** The count is accepted exactly when it is the answer. */
  lemma CountDecided(scale: Scale, words: Stream, rows: seq<Row>)
    ensures
      var p := FullPlan(scale, words);
      |p.songs| < TWO63 && (Accepts(CountSongs, rows, scale, |p.songs|) <==> Answers(CountSongs, p, scale, rows))
  {
    hide FullPlan;
    SongsFit(scale, words);
  }

  // The aggregate

  /** The number a cell stands for, and whether it is one. */
  predicate IsNumber(c: Cell, r: real) {
    c == Float64(Finite(r)) || (c.Int64? && c.i as real == r)
  }

  /** `average` is within 10^-9 of sum / n, both sides multiplied by n. */
  predicate NearMean(average: real, sum: int, n: nat) {
    -(n as real) <= 1000000000.0 * (average * n as real - sum as real) <= n as real
  }

  lemma NearMeanIs(average: real, sum: int, n: nat)
    requires n > 0
    ensures NearMean(average, sum, n) <==> Abs(sum as real / n as real - average) <= 0.000000001
  {
    hide Abs;
    var m, x := n as real, sum as real;
    var mean := x / m;
    assert mean * m == x;
    Distributes(average, mean, m);
    NearScaled(average * m - x, average - mean, m);
    AbsAtMost(mean - average, 0.000000001);
  }

  lemma AbsAtMost(x: real, bound: real)
    ensures Abs(x) <= bound <==> -bound <= x <= bound
  {
  }

  lemma NearScaled(e: real, d: real, m: real)
    requires m > 0.0 && e == d * m
    ensures -m <= 1000000000.0 * e <= m <==> -0.000000001 <= d <= 0.000000001
  {
    Associates(1000000000.0, d, m);
    ScaledBound(1000000000.0 * d, m);
  }

  lemma Distributes(a: real, b: real, m: real)
    ensures (a - b) * m == a * m - b * m
  {
  }

  lemma Associates(k: real, d: real, m: real)
    ensures k * d * m == k * (d * m)
  {
  }

  lemma ScaledBound(x: real, m: real)
    requires m > 0.0
    ensures -m <= x * m <= m <==> -1.0 <= x <= 1.0
  {
    if x > 1.0 {
      assert (x - 1.0) * m > 0.0;
    } else if x < -1.0 {
      assert (-1.0 - x) * m > 0.0;
    } else {
      assert (1.0 - x) * m >= 0.0 && (x + 1.0) * m >= 0.0;
    }
  }

  /** The five cells of an accepted aggregate over n songs. */
  predicate AggregateCells(row: Row, n: int, sum: int, average: real, minimum: int, maximum: int) {
    && |row| == 5 && row[0].Int64? && row[0].i == n && row[1].Int64? && row[1].i == sum
    && IsNumber(row[2], average) && row[3].Int64? && row[3].i == minimum && row[4].Int64? && row[4].i == maximum
  }

  /** The aggregate is accepted exactly with the true count, consistent bounds, and the mean of its own sum. */
  lemma AggregateDecided(scale: Scale, words: Stream, row: Row, n: int, sum: int, average: real, lo: int, hi: int)
    requires AggregateCells(row, n, sum, average, lo, hi)
    ensures
      var total := |FullPlan(scale, words).songs|;
      && total < TWO63
      && (Accepts(AggregateDurations, [row], scale, total)
          <==> && n == total && total > 0 && sum > 0 && lo > 0
               && lo as real <= average <= hi as real && NearMean(average, sum, total))
  {
    hide FullPlan, NearMean;
    SongsFit(scale, words);
    if |FullPlan(scale, words).songs| > 0 {
      NearMeanIs(average, sum, |FullPlan(scale, words).songs|);
    }
  }

  /** Nothing but one row of five such cells is accepted. */
  lemma AggregateShape(scale: Scale, rows: seq<Row>, total: u64)
    requires Accepts(AggregateDurations, rows, scale, total)
    ensures |rows| == 1 && exists n, sum, average, lo, hi :: AggregateCells(rows[0], n, sum, average, lo, hi)
  {
    var row := rows[0];
    var average := if row[2].Int64? then row[2].i as real else row[2].f.r;
    assert AggregateCells(row, row[0].i, row[1].i, average, row[3].i, row[4].i);
  }

  /**
   An aggregate that is right but for its average is accepted exactly when the average lies within
   10^-9 of the true mean and between the shortest and the longest song.
   */
  lemma AverageDecided(scale: Scale, words: Stream, right: Row, row: Row, average: real)
    requires
      var p := FullPlan(scale, words);
      && p.songs != [] && AggregateRowOf(right, p.songs)
      && AggregateCells(row, |p.songs|, TotalDuration(p.songs), average, right[3].i, right[4].i)
    ensures
      var p := FullPlan(scale, words);
      && |p.songs| < TWO63
      && (Accepts(AggregateDurations, [row], scale, |p.songs|)
          <==> && right[3].i as real <= average <= right[4].i as real
               && NearMean(average, TotalDuration(p.songs), |p.songs|))
  {
    hide FullPlan, NearMean, TotalDuration, Rows, Accepts;
    var p := FullPlan(scale, words);
    PlanTabled(scale, words);
    AggregateDecided(scale, words, row, |p.songs|, TotalDuration(p.songs), average, right[3].i, right[4].i);
    DurationsPositive(p);
    assert p.songs[0] in p.songs;
    DurationBounds(p.songs, right[3].i, right[4].i);
    SumPositive(TotalDuration(p.songs), |p.songs|, right[3].i);
  }

  // The lookup

  /** The lookup is accepted exactly for the one artist asked for, by id and name, with a country and a year. */
  lemma LookupDecided(scale: Scale, rows: seq<Row>, total: u64)
    ensures
      Accepts(ArtistById, rows, scale, total)
      <==> && |rows| == 1 && |rows[0]| == 4
           && rows[0][0] == Int64(scale.artists / 2 + 1)
           && rows[0][1] == Value.Text("Artist " + NatText(scale.artists / 2 + 1))
           && rows[0][2].Text? && rows[0][2] != Value.Text("")
           && rows[0][3].Int64? && 1900 <= rows[0][3].i <= 2100
  {
    hide NatText;
    NamedIs("Artist", scale.artists / 2 + 1);
  }

  lemma NamedIs(kind: string, id: nat)
    ensures Named(kind, id) == kind + " " + NatText(id)
    ensures "Artist" + " " == "Artist " && "Album" + " " == "Album " && "Song" + " " == "Song "
  {
    hide NatText;
  }

  /** An accepted lookup has the id and the name of the one row of every answer. */
  lemma LookupSound(scale: Scale, words: Stream, rows: seq<Row>, right: seq<Row>, total: u64)
    requires scale.artists >= 1 && Accepts(ArtistById, rows, scale, total)
    requires Answers(ArtistById, FullPlan(scale, words), scale, right)
    ensures |rows| == |right| == 1 && |rows[0]| == |right[0]| == 4 && rows[0][..2] == right[0][..2]
  {
    hide FullPlan, Rows, Named;
    var p := FullPlan(scale, words);
    PlanTabled(scale, words);
    var picks :| LookupRows(p, Target(scale), picks, right);
    LookupOne(p, Target(scale));
    LookupPass(p, Target(scale), picks, right);
  }

  // The top-ten queries

  predicate TopCells(row: Row, kind: string, id: int, count: int) {
    && id > 0 && count > 0 && |row| == 3
    && row[0].Int64? && row[0].i == id && row[1] == Value.Text(kind + " " + NatText(id))
    && row[2].Int64? && row[2].i == count
  }

  ghost predicate IsTopRow(row: Row, kind: string) {
    exists id, count :: TopCells(row, kind, id, count)
  }

  function Kind(query: Query): string {
    if query.TopArtists? then "Artist" else "Album"
  }

  ghost function GroupsOf(query: Query, p: Plan): set<Group> {
    if query.TopArtists? then ArtistGroups(p) else AlbumGroups(p)
  }

  /** Ten rows are accepted exactly with named, distinct identifiers and positive, descending counts. */
  lemma TopDecided(scale: Scale, query: Query, rows: seq<Row>, ids: seq<int>, counts: seq<int>, total: u64)
    requires query.TopArtists? || query.TopAlbums?
    requires |ids| == |counts| == |rows| == 10
    requires forall k | 0 <= k < 10 :: TopCells(rows[k], Kind(query), ids[k], counts[k])
    ensures Accepts(query, rows, scale, total)
            <==> && (forall j, k | 0 <= j < k < 10 :: ids[j] != ids[k])
                 && (forall j, k | 0 <= j < k < 10 :: counts[j] >= counts[k])
  {
    hide NatText;
    assert forall k | 0 <= k < 10 :: rows[k][0].i == ids[k] && rows[k][2].i == counts[k];
    assert forall k | 0 <= k < 10 :: TopOk(rows[k], Kind(query));
  }

  lemma TopShape(scale: Scale, query: Query, rows: seq<Row>, total: u64)
    requires query.TopArtists? || query.TopAlbums?
    requires Accepts(query, rows, scale, total)
    ensures |rows| == 10 && forall k | 0 <= k < 10 :: IsTopRow(rows[k], Kind(query))
  {
    hide NatText;
    forall k | 0 <= k < 10
      ensures IsTopRow(rows[k], Kind(query))
    {
      assert TopOk(rows[k], Kind(query));
      assert TopCells(rows[k], Kind(query), rows[k][0].i, rows[k][2].i);
    }
  }

  /** The groups a top-ten answer lists: the right ones, in the order of the rows. */
  ghost predicate RightGroups(groups: set<Group>, picks: seq<Group>, rows: seq<Row>) {
    && Picks(picks, groups, 10) && |rows| == 10
    && (forall k | 0 <= k < 10 ::
          |rows[k]| == 3 && IsInt(rows[k], 0, picks[k].id) && IsInt(rows[k], 2, picks[k].count))
    && (forall g, k | g in groups && g !in picks && 0 <= k < 10 :: g.count <= picks[k].count)
  }

  /** An accepted top-ten answer is correct exactly when its identifiers and counts are: the names come with them. */
  lemma TopSound(scale: Scale, words: Stream, query: Query, rows: seq<Row>)
    requires query.TopArtists? || query.TopAlbums?
    requires |FullPlan(scale, words).songs| < TWO63
    requires Accepts(query, rows, scale, |FullPlan(scale, words).songs|)
    ensures
      var p := FullPlan(scale, words);
      Answers(query, p, scale, rows)
      <==> exists picks :: |GroupsOf(query, p)| >= 10 && RightGroups(GroupsOf(query, p), picks, rows)
  {
    hide FullPlan, ArtistGroups, AlbumGroups, Named;
    var p := FullPlan(scale, words);
    var groups := GroupsOf(query, p);
    if Answers(query, p, scale, rows) {
      var picks :| TopRows(groups, picks, rows, Kind(query));
      TopIsRight(groups, picks, rows, Kind(query));
    }
    if picks :| |groups| >= 10 && RightGroups(groups, picks, rows) {
      RightIsTop(groups, picks, rows, Kind(query));
    }
  }

  lemma TopIsRight(groups: set<Group>, picks: seq<Group>, rows: seq<Row>, kind: string)
    requires TopRows(groups, picks, rows, kind) && |rows| == 10
    ensures |groups| >= 10 && RightGroups(groups, picks, rows)
  {
    hide Named;
    assert forall k | 0 <= k < 10 :: TopRowOf(rows[k], kind, picks[k]);
  }

  lemma RightIsTop(groups: set<Group>, picks: seq<Group>, rows: seq<Row>, kind: string)
    requires |groups| >= 10 && RightGroups(groups, picks, rows) && TopRowsOk(rows, kind)
    ensures TopRows(groups, picks, rows, kind)
  {
    hide Named;
    forall k | 0 <= k < 10
      ensures TopRowOf(rows[k], kind, picks[k])
    {
      assert TopOk(rows[k], kind);
    }
    assert forall j, k | 0 <= j < k < 10 :: rows[j][2].i >= rows[k][2].i;
  }

  // The two view queries

  predicate ViewCells(row: Row, id: int, album: string, song: string) {
    && id > 0 && |row| == 4 && row[0].Int64? && row[0].i == id && row[1] == Value.Text("Artist " + NatText(id))
    && row[2] == Value.Text("Album " + album) && row[3] == Value.Text("Song " + song)
  }

  predicate FilteredCells(row: Row, album: string, song: string, duration: int) {
    && duration > 0 && |row| == 3 && row[0] == Value.Text("Album " + album) && row[1] == Value.Text("Song " + song)
    && row[2].Int64? && row[2].i == duration
  }

  ghost predicate IsViewRow(row: Row) {
    exists id, album, song :: ViewCells(row, id, album, song)
  }

  ghost predicate IsFilteredRow(row: Row) {
    exists album, song, duration :: FilteredCells(row, album, song, duration)
  }

  /** View rows are accepted exactly in the announced number, each with a named artist, an album and a song. */
  lemma ViewDecided(scale: Scale, rows: seq<Row>, total: u64)
    ensures
      Accepts(ViewFirst1000, rows, scale, total)
      <==> && |rows| == (if total < 1000 then total else 1000)
           && forall k | 0 <= k < |rows| :: IsViewRow(rows[k])
  {
    hide NatText;
    forall k | 0 <= k < |rows|
      ensures ViewOk(rows[k]) <==> IsViewRow(rows[k])
    {
      ViewRowDecided(rows[k]);
    }
  }

  lemma ViewRowDecided(row: Row)
    ensures ViewOk(row) <==> IsViewRow(row)
  {
    hide NatText;
    NamedIs("Artist", 1);
    if ViewOk(row) {
      var album, song := row[2].t[6..], row[3].t[5..];
      assert row[2].t == "Album " + album && row[3].t == "Song " + song;
      assert ViewCells(row, row[0].i, album, song);
    }
  }

  lemma FilteredDecided(scale: Scale, rows: seq<Row>, total: u64)
    ensures
      Accepts(SongsForArtist, rows, scale, total)
      <==> |rows| > 0 && forall k | 0 <= k < |rows| :: IsFilteredRow(rows[k])
  {
    forall k | 0 <= k < |rows|
      ensures FilteredOk(rows[k]) <==> IsFilteredRow(rows[k])
    {
      FilteredRowDecided(rows[k]);
    }
  }

  lemma FilteredRowDecided(row: Row)
    ensures FilteredOk(row) <==> IsFilteredRow(row)
  {
    if FilteredOk(row) {
      var album, song := row[0].t[6..], row[1].t[5..];
      assert row[0].t == "Album " + album && row[1].t == "Song " + song;
      assert FilteredCells(row, album, song, row[2].i);
    }
  }

  /** An accepted view row names its artist as every row of the view with that artist does. */
  lemma ViewSound(p: Plan, row: Row, right: Row, t: Joined)
    requires ViewOk(row) && t in Join(p) && ViewRowOf(right, t) && row[0].i == t.artist.id
    ensures row[..2] == right[..2]
  {
    hide Named, Join;
  }
}
