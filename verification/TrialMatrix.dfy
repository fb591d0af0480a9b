/**
 The exact trial matrix: one result for every trial and scale, all from one engine
 version, with the same query evidence in every trial.
 */
module TrialMatrix {
  import opened Sets
  import opened Text
  import opened Wrappers

  datatype Cell = Cell(trial: string, scale: string)

  /** A candidate result: where it lies below the root (nothing if it escapes it), and what it reports. */
  datatype Run = Run(parts: Option<seq<string>>, scale: string, databasePath: string, engine: string, evidence: string)

  function TrialName(i: nat): string {
    "trial-" + Padded(i, 2)
  }

  function TrialNames(trials: nat): (names: set<string>)
    ensures forall n :: n in names <==> exists i | 1 <= i <= trials :: TrialName(i) == n
  {
    if trials == 0 then {} else TrialNames(trials - 1) + {TrialName(trials)}
  }

  function ScaleSet(scales: seq<string>): set<string> {
    set s | s in scales
  }

  function Cells(trials: nat, scales: seq<string>): set<Cell> {
    set t, s | t in TrialNames(trials) && s in scales :: Cell(t, s)
  }

  /** Where the database of a cell is expected. */
  type Layout = Cell -> string

  predicate Placed(run: Run) {
    run.parts.Some? && |run.parts.value| == 3
  }

  function CellOf(run: Run): Cell
    requires Placed(run)
  {
    Cell(run.parts.value[0], run.parts.value[1])
  }

  /** The checks on one run alone. */
  predicate Fits(run: Run, trials: nat, scales: seq<string>, layout: Layout) {
    && Placed(run) && CellOf(run).trial in TrialNames(trials) && CellOf(run).scale in scales
    && run.scale == CellOf(run).scale && run.databasePath == layout(CellOf(run))
  }

  /** No two runs share a cell or a database. */
  ghost predicate Separate(runs: seq<Run>)
    requires forall i | 0 <= i < |runs| :: Placed(runs[i])
  {
    forall i, j | 0 <= i < j < |runs| ::
      CellOf(runs[i]) != CellOf(runs[j]) && runs[i].databasePath != runs[j].databasePath
  }

  ghost predicate Covered(runs: seq<Run>, cell: Cell)
    requires forall i | 0 <= i < |runs| :: Placed(runs[i])
  {
    exists i | 0 <= i < |runs| :: CellOf(runs[i]) == cell
  }

  ghost predicate Accepts(directories: set<string>, runs: seq<Run>, scales: seq<string>, trials: nat, layout: Layout) {
    && directories == TrialNames(trials)
    && (forall i | 0 <= i < |runs| :: Fits(runs[i], trials, scales, layout))
    && Separate(runs)
    && (forall c | c in Cells(trials, scales) :: Covered(runs, c))
    && runs != [] && (forall i | 0 <= i < |runs| :: runs[i].engine == runs[0].engine)
    && (forall i, j | 0 <= i < |runs| && 0 <= j < |runs| && runs[i].scale == runs[j].scale ::
          runs[i].evidence == runs[j].evidence)
  }

  /** `validate_trial_matrix`, for the matrix itself. */
  method Validate(directories: set<string>, runs: seq<Run>, scales: seq<string>, trials: nat, layout: Layout)
    returns (ok: bool)
    ensures ok <==> Accepts(directories, runs, scales, trials, layout)
  {
    hide TrialNames, TrialName;
    if directories != TrialNames(trials) {
      return false;
    }
    var placed, cells, engines := Place(runs, scales, trials, layout);
    if !placed {
      return false;
    }
    KeysDecide(runs, scales, trials, cells);
    OneEngine(runs, engines);
    if cells.Keys != Cells(trials, scales) || |engines| != 1 {
      return false;
    }
    ok := SameEvidence(runs, scales, trials, cells);
  }

  /** The loop over the runs: a dictionary of cells, and the sets of databases and engine versions. */
  method Place(runs: seq<Run>, scales: seq<string>, trials: nat, layout: Layout)
    returns (ok: bool, cells: map<Cell, Run>, engines: set<string>)
    ensures ok <==> (forall i | 0 <= i < |runs| :: Fits(runs[i], trials, scales, layout)) && Separate(runs)
    ensures ok ==> Indexed(runs, cells)
    ensures ok ==> engines == set r | r in runs :: r.engine
  {
    hide TrialNames, TrialName, Indexed, Paths, Separate;
    NoRuns();
    cells, engines := map[], {};
    var paths: set<string> := {};
    for i := 0 to |runs|
      invariant forall j | 0 <= j < i :: Fits(runs[j], trials, scales, layout)
      invariant Separate(runs[..i]) && Indexed(runs[..i], cells)
      invariant paths == Paths(runs[..i])
      invariant engines == (set r | r in runs[..i] :: r.engine)
    {
      var run := runs[i];
      if !Fits(run, trials, scales, layout) {
        return false, cells, engines;
      }
      Extend(runs[..i], cells, run);
      if CellOf(run) in cells || run.databasePath in paths {
        Overlap(runs, i);
        return false, cells, engines;
      }
      assert runs[..i + 1] == runs[..i] + [run];
      cells := cells[CellOf(run) := run];
      paths := paths + {run.databasePath};
      engines := engines + {run.engine};
    }
    assert runs[..|runs|] == runs;
    ok := true;
  }

  /** The dictionary holds exactly the runs, under their cells. */
  ghost predicate Indexed(runs: seq<Run>, cells: map<Cell, Run>) {
    && (forall i | 0 <= i < |runs| :: Placed(runs[i]) && CellOf(runs[i]) in cells && cells[CellOf(runs[i])] == runs[i])
    && (forall c | c in cells :: Placed(cells[c]) && CellOf(cells[c]) == c && cells[c] in runs)
  }

  ghost function Paths(runs: seq<Run>): set<string> {
    set r | r in runs :: r.databasePath
  }

  lemma Extend(runs: seq<Run>, cells: map<Cell, Run>, run: Run)
    requires Indexed(runs, cells) && Separate(runs) && Placed(run)
    ensures CellOf(run) in cells || run.databasePath in Paths(runs) <==> !Separate(runs + [run])
    ensures CellOf(run) !in cells ==> Indexed(runs + [run], cells[CellOf(run) := run])
    ensures Paths(runs + [run]) == Paths(runs) + {run.databasePath}
  {
    var all := runs + [run];
    if CellOf(run) in cells {
      var i :| 0 <= i < |runs| && runs[i] == cells[CellOf(run)];
      assert CellOf(all[i]) == CellOf(all[|runs|]);
    }
    if run.databasePath in Paths(runs) {
      var i :| 0 <= i < |runs| && runs[i].databasePath == run.databasePath;
      assert all[i].databasePath == all[|runs|].databasePath;
    }
  }

  lemma NoRuns()
    ensures Separate([]) && Indexed([], map[]) && Paths([]) == {}
  {
  }

  lemma Overlap(runs: seq<Run>, i: nat)
    requires i < |runs| && (forall j | 0 <= j <= i :: Placed(runs[j])) && !Separate(runs[..i] + [runs[i]])
    ensures (forall j | 0 <= j < |runs| :: Placed(runs[j])) ==> !Separate(runs)
  {
    assert runs[..i] + [runs[i]] == runs[..i + 1];
  }

  /** The dictionary has the expected keys exactly when every expected cell has a run. */
  lemma KeysDecide(runs: seq<Run>, scales: seq<string>, trials: nat, cells: map<Cell, Run>)
    requires Indexed(runs, cells) && forall i | 0 <= i < |runs| :: CellOf(runs[i]) in Cells(trials, scales)
    ensures cells.Keys == Cells(trials, scales) <==> forall c | c in Cells(trials, scales) :: Covered(runs, c)
  {
    hide Cells;
    forall c | c in cells
      ensures c in Cells(trials, scales) && Covered(runs, c)
    {
      var i :| 0 <= i < |runs| && runs[i] == cells[c];
    }
  }

  lemma OneEngine(runs: seq<Run>, engines: set<string>)
    requires engines == set r | r in runs :: r.engine
    ensures |engines| == 1 <==> runs != [] && forall i | 0 <= i < |runs| :: runs[i].engine == runs[0].engine
  {
    if runs == [] {
      assert engines == {};
    } else {
      var e := runs[0].engine;
      assert runs[0] in runs;
      assert |engines - {e}| == |engines| - 1;
      if |engines| == 1 {
        assert engines - {e} == {};
        forall i | 0 <= i < |runs|
          ensures runs[i].engine == e
        {
          assert runs[i] in runs && runs[i].engine in engines;
        }
      }
      if forall i | 0 <= i < |runs| :: runs[i].engine == e {
        assert engines == {e};
      }
    }
  }

  /** The last loop: every trial of a scale reports the evidence of its first trial. */
  method SameEvidence(runs: seq<Run>, scales: seq<string>, trials: nat, cells: map<Cell, Run>) returns (ok: bool)
    requires Indexed(runs, cells) && cells.Keys == Cells(trials, scales)
    requires forall i | 0 <= i < |runs| :: runs[i].scale == CellOf(runs[i]).scale
    ensures ok <==> forall i, j | 0 <= i < |runs| && 0 <= j < |runs| && runs[i].scale == runs[j].scale ::
                      runs[i].evidence == runs[j].evidence
  {
    hide TrialName;
    for k := 0 to |scales|
      invariant forall l, t | 0 <= l < k && 1 <= t <= trials ::
                  Evidence(cells, trials, scales, t, scales[l]) == Evidence(cells, trials, scales, 1, scales[l])
    {
      for t := 1 to trials + 1
        invariant forall u | 1 <= u < t ::
                    Evidence(cells, trials, scales, u, scales[k]) == Evidence(cells, trials, scales, 1, scales[k])
      {
        if Evidence(cells, trials, scales, t, scales[k]) != Evidence(cells, trials, scales, 1, scales[k]) {
          Differs(runs, cells, trials, scales, t, scales[k]);
          return false;
        }
      }
    }
    forall i, j | 0 <= i < |runs| && 0 <= j < |runs| && runs[i].scale == runs[j].scale
      ensures runs[i].evidence == runs[j].evidence
    {
      var t := TrialOf(runs, cells, trials, scales, i);
      var u := TrialOf(runs, cells, trials, scales, j);
      var l :| 0 <= l < |scales| && scales[l] == runs[i].scale;
    }
    ok := true;
  }

  function Evidence(cells: map<Cell, Run>, trials: nat, scales: seq<string>, t: nat, scale: string): string
    requires cells.Keys == Cells(trials, scales) && 1 <= t <= trials && scale in scales
  {
    assert TrialName(t) in TrialNames(trials);
    assert Cell(TrialName(t), scale) in Cells(trials, scales);
    cells[Cell(TrialName(t), scale)].evidence
  }

  lemma Differs(runs: seq<Run>, cells: map<Cell, Run>, trials: nat, scales: seq<string>, t: nat, scale: string)
    requires Indexed(runs, cells) && cells.Keys == Cells(trials, scales) && 1 <= t <= trials && scale in scales
    requires forall i | 0 <= i < |runs| :: runs[i].scale == CellOf(runs[i]).scale
    requires Evidence(cells, trials, scales, t, scale) != Evidence(cells, trials, scales, 1, scale)
    ensures exists i, j | 0 <= i < |runs| && 0 <= j < |runs| && runs[i].scale == runs[j].scale ::
              runs[i].evidence != runs[j].evidence
  {
    hide TrialName;
    var c, d := Cell(TrialName(t), scale), Cell(TrialName(1), scale);
    assert c in cells.Keys && d in cells.Keys;
    var i :| 0 <= i < |runs| && runs[i] == cells[c];
    var j :| 0 <= j < |runs| && runs[j] == cells[d];
  }

  lemma TrialOf(runs: seq<Run>, cells: map<Cell, Run>, trials: nat, scales: seq<string>, i: nat) returns (t: nat)
    requires Indexed(runs, cells) && cells.Keys == Cells(trials, scales) && i < |runs|
    requires runs[i].scale == CellOf(runs[i]).scale
    ensures 1 <= t <= trials && runs[i].scale in scales
    ensures runs[i].evidence == Evidence(cells, trials, scales, t, runs[i].scale)
  {
    hide TrialName;
    var c := CellOf(runs[i]);
    assert c in cells.Keys;
    assert c.trial in TrialNames(trials);
    t :| 1 <= t <= trials && TrialName(t) == c.trial;
  }

  // What acceptance means

  lemma TrialNameInjective(i: nat, j: nat)
    requires TrialName(i) == TrialName(j)
    ensures i == j
  {
    hide Padded;
    PaddedRoundTrip(i, 2);
    PaddedRoundTrip(j, 2);
    assert TrialName(i)[6..] == Padded(i, 2) && TrialName(j)[6..] == Padded(j, 2);
  }

  lemma {:induction false} TrialNamesSize(trials: nat)
    ensures |TrialNames(trials)| == trials
  {
    hide TrialName;
    if trials == 0 {
    } else {
      TrialNamesSize(trials - 1);
      if TrialName(trials) in TrialNames(trials - 1) {
        var i :| 1 <= i <= trials - 1 && TrialName(i) == TrialName(trials);
        TrialNameInjective(i, trials);
      }
    }
  }

  function Product(a: set<string>, b: set<string>): set<Cell> {
    set t, s | t in a && s in b :: Cell(t, s)
  }

  lemma {:induction false} ProductSize(a: set<string>, b: set<string>)
    ensures |Product(a, b)| == |a| * |b|
  {
    hide Product;
    ProductSplit(a, b);
    if a == {} {
    } else {
      var x :| x in a;
      ProductSize(a - {x}, b);
      RowSize(x, b);
      var m, n := |a - {x}|, |b|;
      assert (m + 1) * n == m * n + n;
    }
  }

  lemma ProductSplit(a: set<string>, b: set<string>)
    ensures a == {} ==> Product(a, b) == {}
    ensures forall x | x in a :: |Product(a, b)| == |Product(a - {x}, b)| + |set s | s in b :: Cell(x, s)|
  {
    forall x | x in a
      ensures |Product(a, b)| == |Product(a - {x}, b)| + |set s | s in b :: Cell(x, s)|
    {
      var row, others := set s | s in b :: Cell(x, s), Product(a - {x}, b);
      assert Product(a, b) == others + row;
      assert row !! others;
    }
  }

  lemma {:induction false} RowSize(x: string, b: set<string>)
    ensures |set s | s in b :: Cell(x, s)| == |b|
  {
    var row := set s | s in b :: Cell(x, s);
    if b == {} {
      assert row == {};
    } else {
      var y :| y in b;
      RowSize(x, b - {y});
      assert row == (set s | s in b - {y} :: Cell(x, s)) + {Cell(x, y)};
    }
  }

  /** Accepted runs are in bijection with trials and scales, and there are exactly as many. */
  lemma AcceptedBijection(directories: set<string>, runs: seq<Run>, scales: seq<string>, trials: nat, layout: Layout)
    requires Accepts(directories, runs, scales, trials, layout)
    ensures |runs| == trials * |ScaleSet(scales)|
    ensures forall c | c in Cells(trials, scales) ::
              exists i | 0 <= i < |runs| ::
                CellOf(runs[i]) == c && forall j | 0 <= j < |runs| && CellOf(runs[j]) == c :: j == i
  {
    hide TrialNames, TrialName;
    forall c | c in Cells(trials, scales)
      ensures exists i | 0 <= i < |runs| ::
                CellOf(runs[i]) == c && forall j | 0 <= j < |runs| && CellOf(runs[j]) == c :: j == i
    {
      assert Covered(runs, c);
      var i :| 0 <= i < |runs| && CellOf(runs[i]) == c;
    }
    OccupiedSize(runs);
    var occupied := set i | 0 <= i < |runs| :: CellOf(runs[i]);
    forall c | c in Cells(trials, scales)
      ensures c in occupied
    {
      assert Covered(runs, c);
    }
    assert occupied == Cells(trials, scales);
    TrialNamesSize(trials);
    ProductSize(TrialNames(trials), ScaleSet(scales));
    assert Cells(trials, scales) == Product(TrialNames(trials), ScaleSet(scales));
  }

  lemma OccupiedSize(runs: seq<Run>)
    requires (forall i | 0 <= i < |runs| :: Placed(runs[i])) && Separate(runs)
    ensures |set i | 0 <= i < |runs| :: CellOf(runs[i])| == |runs|
  {
    var cells := seq(|runs|, i requires 0 <= i < |runs| => CellOf(runs[i]));
    DistinctSize(cells);
    forall i | 0 <= i < |runs|
      ensures CellOf(runs[i]) in cells
    {
      assert cells[i] == CellOf(runs[i]);
    }
    assert (set c | c in cells) == set i | 0 <= i < |runs| :: CellOf(runs[i]);
  }
}
