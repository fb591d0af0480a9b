/**
 The seven benchmark queries over the seeded tables: what a correct answer is, and
 what the evidence checker accepts.
 */
module Queries {
  import opened Machine
  import opened SeedPlan
  import opened Semantic
  import opened Text
  import opened Wrappers

  /** A double as the checker reads it: comparisons and division are taken over the reals. */
  datatype Number = Finite(r: real) | NotFinite

  type Cell = Value<Number, string>
  type Row = seq<Cell>

  datatype Query =
    | CountSongs
    | AggregateDurations
    | ArtistById
    | TopArtists
    | TopAlbums
    | ViewFirst1000
    | SongsForArtist
    | Unknown

  function Named(kind: string, id: nat): string {
    kind + " " + NatText(id)
  }

  // What the checker accepts

  predicate IsInt(row: Row, i: nat, n: int) {
    i < |row| && row[i].Int64? && row[i].i == n
  }

  function NumberAt(row: Row, i: nat): Number {
    if i < |row| && row[i].Float64? then row[i].f
    else if i < |row| && row[i].Int64? then Finite(row[i].i as real)
    else NotFinite
  }

  function Abs(x: real): real {
    if x < 0.0 then -x else x
  }

  predicate AggregateOk(row: Row, total: int) {
    && |row| == 5 && IsInt(row, 0, total)
    && row[1].Int64? && NumberAt(row, 2).Finite? && row[3].Int64? && row[4].Int64?
    && var sum, average, minimum, maximum := row[1].i, NumberAt(row, 2).r, row[3].i, row[4].i;
    && sum > 0 && 0 < minimum <= maximum
    && minimum as real <= average <= maximum as real
    && total != 0 && Abs(sum as real / total as real - average) <= 0.000000001
  }

  function Target(scale: Scale): nat {
    scale.artists / 2 + 1
  }

  predicate ArtistOk(row: Row, target: nat) {
    && |row| == 4 && IsInt(row, 0, target)
    && row[1].Text? && row[1].t == Named("Artist", target)
    && row[2].Text? && row[2].t != ""
    && row[3].Int64? && 1900 <= row[3].i <= 2100
  }

  predicate TopOk(row: Row, kind: string) {
    && |row| == 3 && row[0].Int64? && row[1].Text? && row[2].Int64?
    && row[0].i > 0 && row[1].t == Named(kind, row[0].i) && row[2].i > 0
  }

  predicate TopRowsOk(rows: seq<Row>, kind: string) {
    && (forall k | 0 <= k < |rows| :: TopOk(rows[k], kind))
    && (forall j, k | 0 <= j < k < |rows| :: rows[j][0].i != rows[k][0].i)
    && (forall j, k | 0 <= j < k < |rows| :: rows[j][2].i >= rows[k][2].i)
  }

  predicate ViewOk(row: Row) {
    && |row| == 4 && row[0].Int64? && row[1].Text? && row[2].Text? && row[3].Text?
    && row[0].i > 0 && row[1].t == Named("Artist", row[0].i)
    && "Album " <= row[2].t && "Song " <= row[3].t
  }

  predicate FilteredOk(row: Row) {
    && |row| == 3 && row[0].Text? && row[1].Text? && row[2].Int64?
    && "Album " <= row[0].t && "Song " <= row[1].t && row[2].i > 0
  }

  /** What `validate_query_semantics` checks, given the number of songs the seed plan announced. */
  ghost predicate Accepts(query: Query, rows: seq<Row>, scale: Scale, totalSongs: u64) {
    match query
    case CountSongs => |rows| == 1 && |rows[0]| == 1 && IsInt(rows[0], 0, AsI64(totalSongs))
    case AggregateDurations => |rows| == 1 && AggregateOk(rows[0], AsI64(totalSongs))
    case ArtistById => |rows| == 1 && ArtistOk(rows[0], Target(scale))
    case TopArtists => |rows| == 10 && TopRowsOk(rows, "Artist")
    case TopAlbums => |rows| == 10 && TopRowsOk(rows, "Album")
    case ViewFirst1000 => |rows| == Min(totalSongs, 1000) && forall k | 0 <= k < |rows| :: ViewOk(rows[k])
    case SongsForArtist => |rows| > 0 && forall k | 0 <= k < |rows| :: FilteredOk(rows[k])
    case Unknown => false
  }

  // The checker

  /** `semantic_int`. */
  function IntAt(row: Row, i: nat): Option<i64> {
    if i < |row| && row[i].Int64? then Some(row[i].i) else None
  }

  /** `semantic_text`. */
  function TextAt(row: Row, i: nat): Option<string> {
    if i < |row| && row[i].Text? then Some(row[i].t) else None
  }

  /** `validate_query_semantics`: whether the rows pass. */
  method Validate(query: Query, rows: seq<Row>, scale: Scale, totalSongs: u64) returns (ok: bool)
    ensures ok <==> Accepts(query, rows, scale, totalSongs)
  {
    hide AggregateOk, ArtistOk, TopRowsOk, ViewOk, FilteredOk;
    match query {
      case CountSongs =>
        if |rows| != 1 || |rows[0]| != 1 {
          return false;
        }
        var count := IntAt(rows[0], 0);
        ok := count.Some? && count.value == AsI64(totalSongs);
      case AggregateDurations =>
        if |rows| != 1 {
          return false;
        }
        ok := ValidateAggregate(rows[0], AsI64(totalSongs));
      case ArtistById =>
        if |rows| != 1 {
          return false;
        }
        ok := ValidateArtist(rows[0], Target(scale));
      case TopArtists =>
        if |rows| != 10 {
          return false;
        }
        ok := ValidateTop(rows, "Artist");
      case TopAlbums =>
        if |rows| != 10 {
          return false;
        }
        ok := ValidateTop(rows, "Album");
      case ViewFirst1000 =>
        if |rows| != Min(totalSongs, 1000) {
          return false;
        }
        for k := 0 to |rows|
          invariant forall j | 0 <= j < k :: ViewOk(rows[j])
        {
          var rowOk := ValidateView(rows[k]);
          if !rowOk {
            return false;
          }
        }
        ok := true;
      case SongsForArtist =>
        if rows == [] {
          return false;
        }
        for k := 0 to |rows|
          invariant forall j | 0 <= j < k :: FilteredOk(rows[j])
        {
          var rowOk := ValidateFiltered(rows[k]);
          if !rowOk {
            return false;
          }
        }
        ok := true;
      case Unknown =>
        ok := false;
    }
  }

  /** The aggregate row; a quotient by zero is infinite, so a count of zero is refused. */
  method ValidateAggregate(row: Row, total: i64) returns (ok: bool)
    ensures ok <==> AggregateOk(row, total)
  {
    if |row| != 5 {
      return false;
    }
    var count, sum, average := IntAt(row, 0), IntAt(row, 1), NumberAt(row, 2);
    var minimum, maximum := IntAt(row, 3), IntAt(row, 4);
    if count == None || sum == None || average == NotFinite || minimum == None || maximum == None {
      return false;
    }
    if count.value != total || sum.value <= 0 || minimum.value <= 0 || maximum.value < minimum.value {
      return false;
    }
    if average.r < minimum.value as real || average.r > maximum.value as real {
      return false;
    }
    if count.value == 0 {
      return false;
    }
    ok := !(Abs(sum.value as real / count.value as real - average.r) > 0.000000001);
  }

  method ValidateArtist(row: Row, target: nat) returns (ok: bool)
    ensures ok <==> ArtistOk(row, target)
  {
    hide Named;
    if |row| != 4 {
      return false;
    }
    var id, name, country, formed := IntAt(row, 0), TextAt(row, 1), TextAt(row, 2), IntAt(row, 3);
    if id == None || name == None || country == None || formed == None {
      return false;
    }
    ok := !(id.value != target || name.value != Named("Artist", target) || country.value == ""
            || formed.value < 1900 || formed.value > 2100);
  }

  method ValidateView(row: Row) returns (ok: bool)
    ensures ok <==> ViewOk(row)
  {
    hide Named;
    if |row| != 4 {
      return false;
    }
    var id, artist, album, song := IntAt(row, 0), TextAt(row, 1), TextAt(row, 2), TextAt(row, 3);
    if id == None || artist == None || album == None || song == None || id.value <= 0 {
      return false;
    }
    ok := !(artist.value != Named("Artist", id.value) || !("Album " <= album.value) || !("Song " <= song.value));
  }

  method ValidateFiltered(row: Row) returns (ok: bool)
    ensures ok <==> FilteredOk(row)
  {
    if |row| != 3 {
      return false;
    }
    var album, song, duration := TextAt(row, 0), TextAt(row, 1), IntAt(row, 2);
    if album == None || song == None || duration == None {
      return false;
    }
    ok := !(!("Album " <= album.value) || !("Song " <= song.value) || duration.value <= 0);
  }

  /** The loop over top-ten rows: a set of the identifiers seen and the previous count suffice. */
  method ValidateTop(rows: seq<Row>, kind: string) returns (ok: bool)
    ensures ok <==> TopRowsOk(rows, kind)
  {
    hide Named;
    var ids: set<int> := {};
    var previousCount: i64 := TWO63 - 1;
    for k := 0 to |rows|
      invariant TopRowsOk(rows[..k], kind)
      invariant forall j | 0 <= j < k :: rows[j][0].i in ids
      invariant forall id | id in ids :: exists j | 0 <= j < k :: rows[j][0].i == id
      invariant k > 0 ==> previousCount == rows[k - 1][2].i
      invariant k == 0 ==> previousCount == TWO63 - 1
    {
      var row := rows[k];
      if |row| != 3 {
        return false;
      }
      var id, name, count := IntAt(row, 0), TextAt(row, 1), IntAt(row, 2);
      if id == None || name == None || count == None || id.value <= 0 || id.value in ids {
        return false;
      }
      ids := ids + {id.value};
      if name.value != Named(kind, id.value) || count.value <= 0 || count.value > previousCount {
        return false;
      }
      previousCount := count.value;
      assert rows[..k + 1] == rows[..k] + [row];
    }
    assert rows[..|rows|] == rows;
    ok := true;
  }
}
