/**
 The accepted trial matrix in its own words: exactly one run for every trial number and scale,
 in the directory and with the database of that trial and scale.
 */
module MatrixExact {
  import opened Text
  import opened Wrappers
  import opened TrialMatrix

  /** The directory of a trial: at least two digits. */
  function Directory(k: nat): string {
    "trial-" + (if k < 10 then "0" else "") + NatText(k)
  }

  lemma DirectoryIs(k: nat)
    ensures TrialName(k) == Directory(k)
  {
    hide NatText, Pow10;
    NatTextLength(k, 1);
    assert Pow10(1) == 10 by { TenToTheOne(); }
    if k < 10 {
      assert Padded(k, 2) == Zeros(1) + NatText(k);
      assert Zeros(1) == "0";
    } else {
      assert "" + NatText(k) == NatText(k);
    }
  }

  lemma TenToTheOne()
    ensures Pow10(1) == 10
  {
  }

  /** The run lies in the directory of trial `k` and scale `s`, says so, and has their database. */
  predicate RunAt(run: Run, k: nat, s: string, layout: Layout) {
    && run.parts.Some? && |run.parts.value| == 3
    && run.parts.value[0] == Directory(k) && run.parts.value[1] == s
    && run.scale == s && run.databasePath == layout(Cell(Directory(k), s))
  }

  ghost predicate Somewhere(run: Run, trials: nat, scales: seq<string>, layout: Layout) {
    exists k, s :: 1 <= k <= trials && s in scales && RunAt(run, k, s, layout)
  }

  /** Some run lies there, and no other. */
  ghost predicate OnlyOne(runs: seq<Run>, k: nat, s: string, layout: Layout) {
    exists i | 0 <= i < |runs| ::
      RunAt(runs[i], k, s, layout) && forall j | 0 <= j < |runs| && RunAt(runs[j], k, s, layout) :: j == i
  }

  ghost predicate ExactMatrix(
    directories: set<string>, runs: seq<Run>, scales: seq<string>, trials: nat, layout: Layout)
  {
    && (forall n :: n in directories <==> exists k | 1 <= k <= trials :: Directory(k) == n)
    && trials >= 1 && scales != []
    && (forall i | 0 <= i < |runs| :: Somewhere(runs[i], trials, scales, layout))
    && (forall k, s | 1 <= k <= trials && s in scales :: OnlyOne(runs, k, s, layout))
    && (forall i, j | 0 <= i < j < |runs| :: runs[i].databasePath != runs[j].databasePath)
    && (forall i, j | 0 <= i < j < |runs| :: runs[i].engine == runs[j].engine)
    && (forall i, j | 0 <= i < j < |runs| && runs[i].scale == runs[j].scale :: runs[i].evidence == runs[j].evidence)
  }

  ghost predicate AllPlaced(runs: seq<Run>) {
    forall i | 0 <= i < |runs| :: Placed(runs[i])
  }

  ghost predicate AllFit(runs: seq<Run>, trials: nat, scales: seq<string>, layout: Layout) {
    forall i | 0 <= i < |runs| :: Fits(runs[i], trials, scales, layout)
  }

  lemma NamesAre(trials: nat)
    ensures forall n :: n in TrialNames(trials) <==> exists k | 1 <= k <= trials :: Directory(k) == n
  {
    hide TrialName, Directory;
    forall k: nat
      ensures TrialName(k) == Directory(k)
    {
      DirectoryIs(k);
    }
  }

  lemma FitsIs(run: Run, trials: nat, scales: seq<string>, layout: Layout)
    ensures Fits(run, trials, scales, layout) <==> Somewhere(run, trials, scales, layout)
  {
    hide TrialName, Directory, TrialNames;
    NamesAre(trials);
    if Fits(run, trials, scales, layout) {
      var c := CellOf(run);
      var k :| 1 <= k <= trials && Directory(k) == c.trial;
      assert RunAt(run, k, c.scale, layout);
    }
    if Somewhere(run, trials, scales, layout) {
      var k, s :| 1 <= k <= trials && s in scales && RunAt(run, k, s, layout);
      assert CellOf(run) == Cell(Directory(k), s);
    }
  }

  /** A fitting run lies in a cell exactly when that is its cell. */
  lemma AtIsCell(run: Run, trials: nat, scales: seq<string>, layout: Layout, k: nat, s: string)
    requires Fits(run, trials, scales, layout)
    ensures RunAt(run, k, s, layout) <==> CellOf(run) == Cell(Directory(k), s)
  {
    hide Directory, TrialNames;
  }

  lemma NonEmpty(runs: seq<Run>, scales: seq<string>, trials: nat, layout: Layout)
    requires AllPlaced(runs) && AllFit(runs, trials, scales, layout)
    requires forall c | c in Cells(trials, scales) :: Covered(runs, c)
    ensures runs != [] <==> trials >= 1 && scales != []
  {
    hide TrialName, TrialNames;
    if runs != [] {
      FitsIs(runs[0], trials, scales, layout);
      var k, s :| 1 <= k <= trials && s in scales && RunAt(runs[0], k, s, layout);
    }
    if trials >= 1 && scales != [] {
      assert TrialName(1) in TrialNames(trials);
      assert Cell(TrialName(1), scales[0]) in Cells(trials, scales);
      assert Covered(runs, Cell(TrialName(1), scales[0]));
    }
  }

  /** What the dictionary of cells sees as covered and separate is one run for every trial and scale. */
  lemma OneEach(runs: seq<Run>, scales: seq<string>, trials: nat, layout: Layout)
    requires AllPlaced(runs) && AllFit(runs, trials, scales, layout)
    ensures
      (forall c | c in Cells(trials, scales) :: Covered(runs, c))
      && (forall i, j | 0 <= i < j < |runs| :: CellOf(runs[i]) != CellOf(runs[j]))
      <==> forall k, s | 1 <= k <= trials && s in scales :: OnlyOne(runs, k, s, layout)
  {
    hide TrialName, TrialNames, Directory, Fits, RunAt;
    if (forall c | c in Cells(trials, scales) :: Covered(runs, c))
       && (forall i, j | 0 <= i < j < |runs| :: CellOf(runs[i]) != CellOf(runs[j])) {
      forall k, s | 1 <= k <= trials && s in scales
        ensures OnlyOne(runs, k, s, layout)
      {
        CoveredOnce(runs, scales, trials, layout, k, s);
      }
    }
    if forall k, s | 1 <= k <= trials && s in scales :: OnlyOne(runs, k, s, layout) {
      OnceSeparates(runs, scales, trials, layout);
    }
  }

  lemma FitsPlaced(runs: seq<Run>, trials: nat, scales: seq<string>, layout: Layout)
    requires AllFit(runs, trials, scales, layout)
    ensures AllPlaced(runs)
  {
    hide TrialNames;
  }

  lemma CoveredOnce(runs: seq<Run>, scales: seq<string>, trials: nat, layout: Layout, k: nat, s: string)
    requires AllPlaced(runs) && AllFit(runs, trials, scales, layout)
    requires forall c | c in Cells(trials, scales) :: Covered(runs, c)
    requires forall i, j | 0 <= i < j < |runs| :: CellOf(runs[i]) != CellOf(runs[j])
    requires 1 <= k <= trials && s in scales
    ensures OnlyOne(runs, k, s, layout)
  {
    hide TrialName, TrialNames, Directory, Fits, RunAt;
    NamesAre(trials);
    var c := Cell(Directory(k), s);
    assert c.trial in TrialNames(trials);
    assert c in Cells(trials, scales);
    assert Covered(runs, c);
    var i :| 0 <= i < |runs| && CellOf(runs[i]) == c;
    AtIsCell(runs[i], trials, scales, layout, k, s);
    forall j | 0 <= j < |runs| && RunAt(runs[j], k, s, layout)
      ensures j == i
    {
      AtIsCell(runs[j], trials, scales, layout, k, s);
    }
  }

  lemma OnceSeparates(runs: seq<Run>, scales: seq<string>, trials: nat, layout: Layout)
    requires AllPlaced(runs) && AllFit(runs, trials, scales, layout)
    requires forall k, s | 1 <= k <= trials && s in scales :: OnlyOne(runs, k, s, layout)
    ensures forall c | c in Cells(trials, scales) :: Covered(runs, c)
    ensures forall i, j | 0 <= i < j < |runs| :: CellOf(runs[i]) != CellOf(runs[j])
  {
    hide TrialName, TrialNames, Directory, Fits, RunAt;
    NamesAre(trials);
    forall c | c in Cells(trials, scales)
      ensures Covered(runs, c)
    {
      assert c.trial in TrialNames(trials);
      var k :| 1 <= k <= trials && Directory(k) == c.trial;
      assert OnlyOne(runs, k, c.scale, layout);
      var i :| 0 <= i < |runs| && RunAt(runs[i], k, c.scale, layout);
      AtIsCell(runs[i], trials, scales, layout, k, c.scale);
    }
    forall i, j | 0 <= i < j < |runs|
      ensures CellOf(runs[i]) != CellOf(runs[j])
    {
      FitsIs(runs[i], trials, scales, layout);
      var k, s :| 1 <= k <= trials && s in scales && RunAt(runs[i], k, s, layout);
      assert OnlyOne(runs, k, s, layout);
      AtIsCell(runs[i], trials, scales, layout, k, s);
      AtIsCell(runs[j], trials, scales, layout, k, s);
    }
  }

  /** The checks accept exactly the exact matrices. */
  lemma AcceptsExactly(directories: set<string>, runs: seq<Run>, scales: seq<string>, trials: nat, layout: Layout)
    ensures Accepts(directories, runs, scales, trials, layout)
            <==> ExactMatrix(directories, runs, scales, trials, layout)
  {
    hide TrialName, TrialNames, Directory, Fits, Somewhere, OnlyOne;
    NamesAre(trials);
    assert directories == TrialNames(trials)
      <==> forall n :: n in directories <==> exists k | 1 <= k <= trials :: Directory(k) == n;
    forall i | 0 <= i < |runs|
      ensures Fits(runs[i], trials, scales, layout) <==> Somewhere(runs[i], trials, scales, layout)
    {
      FitsIs(runs[i], trials, scales, layout);
    }
    if AllFit(runs, trials, scales, layout) {
      FitsPlaced(runs, trials, scales, layout);
      OneEach(runs, scales, trials, layout);
      if forall c | c in Cells(trials, scales) :: Covered(runs, c) {
        NonEmpty(runs, scales, trials, layout);
      }
    }
  }
}
