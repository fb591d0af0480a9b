/**
 The benchmark gate: a metric passes when its median leads the best historical value
 and enough single trials do. Values are taken as reals.
 */
module Gate {
  import opened Sorting
  import opened Wrappers

  datatype Direction = Lower | Higher

  /** `is_leading`. */
  predicate Leads(value: real, target: real, direction: Direction) {
    match direction
    case Lower => value <= target
    case Higher => value >= target
  }

  predicate AtMost(a: real, b: real) {
    a <= b
  }

  predicate Ascending(s: seq<real>) {
    forall i, j | 0 <= i < j < |s| :: s[i] <= s[j]
  }

  function Sorted(s: seq<real>): (r: seq<real>)
    ensures Ascending(r) && |r| == |s|
  {
    SortCorrect(s, AtMost);
    assert forall i, j | 0 <= i < j < |s| :: AtMost(Sort(s, AtMost)[i], Sort(s, AtMost)[j]);
    Sort(s, AtMost)
  }

  /** `statistics.median`. */
  function Median(values: seq<real>): real
    requires values != []
  {
    var s, n := Sorted(values), |values|;
    if n % 2 == 1 then s[n / 2] else (s[n / 2 - 1] + s[n / 2]) / 2.0
  }

  /** The number of trials that lead. */
  function Wins(values: seq<real>, target: real, direction: Direction): nat {
    if values == [] then 0
    else
      var k := |values| - 1;
      Wins(values[..k], target, direction) + (if Leads(values[k], target, direction) then 1 else 0)
  }

  // Counting leaders in an ascending list

  lemma {:induction false} WinsBound(s: seq<real>, target: real, direction: Direction)
    ensures Wins(s, target, direction) <= |s|
  {
    if s == [] {
    } else {
      WinsBound(s[..|s| - 1], target, direction);
    }
  }

  /** In ascending order the leaders of a lower-is-better metric come first. */
  lemma {:induction false} LowerPrefix(s: seq<real>, target: real, k: nat)
    requires Ascending(s) && k < |s|
    ensures s[k] <= target <==> Wins(s, target, Lower) > k
  {
    var n := |s| - 1;
    WinsBound(s[..n], target, Lower);
    if k < n {
      LowerPrefix(s[..n], target, k);
    } else if n > 0 {
      LowerPrefix(s[..n], target, n - 1);
    }
  }

  /** And those of a higher-is-better metric come last. */
  lemma {:induction false} HigherSuffix(s: seq<real>, target: real, k: nat)
    requires Ascending(s) && k < |s|
    ensures s[k] >= target <==> Wins(s, target, Higher) >= |s| - k
  {
    var n := |s| - 1;
    WinsBound(s[..n], target, Higher);
    if k < n {
      HigherSuffix(s[..n], target, k);
    } else if n > 0 {
      HigherFirst(s, target);
    }
  }

  lemma {:induction false} HigherFirst(s: seq<real>, target: real)
    requires Ascending(s) && s != []
    ensures Wins(s, target, Higher) == 0 <==> s[|s| - 1] < target
  {
    var n := |s| - 1;
    if n == 0 {
    } else {
      HigherFirst(s[..n], target);
    }
  }

  lemma {:induction false} WinsConcat(a: seq<real>, b: seq<real>, target: real, direction: Direction)
    ensures Wins(a + b, target, direction) == Wins(a, target, direction) + Wins(b, target, direction)
  {
    if b == [] {
      assert a + b == a;
    } else {
      assert (a + b)[..|a + b| - 1] == a + b[..|b| - 1];
      WinsConcat(a, b[..|b| - 1], target, direction);
    }
  }

  lemma {:induction false} WinsInsert(x: real, s: seq<real>, target: real, direction: Direction)
    ensures Wins(Insert(x, s, AtMost), target, direction) == Wins([x] + s, target, direction)
  {
    if s == [] || AtMost(x, s[0]) {
    } else {
      WinsInsert(x, s[1..], target, direction);
      WinsConcat([s[0]], Insert(x, s[1..], AtMost), target, direction);
      WinsConcat([x], s[1..], target, direction);
      WinsConcat([x], s, target, direction);
      WinsConcat([s[0]], s[1..], target, direction);
      assert s == [s[0]] + s[1..];
    }
  }

  /** Sorting does not change the number of leaders. */
  lemma {:induction false} WinsSort(s: seq<real>, target: real, direction: Direction)
    ensures Wins(Sort(s, AtMost), target, direction) == Wins(s, target, direction)
  {
    if s == [] {
    } else {
      var rest := Sort(s[1..], AtMost);
      WinsSort(s[1..], target, direction);
      WinsInsert(s[0], rest, target, direction);
      WinsConcat([s[0]], rest, target, direction);
      WinsConcat([s[0]], s[1..], target, direction);
      assert s == [s[0]] + s[1..];
    }
  }

  // Median against leader count

  /** With an odd number of trials the median leads exactly when a majority of the trials do. */
  lemma MedianIsMajority(values: seq<real>, target: real, direction: Direction)
    requires |values| % 2 == 1
    ensures Leads(Median(values), target, direction) <==> Wins(values, target, direction) >= (|values| + 1) / 2
  {
    hide Sort, Wins, Insert;
    WinsSort(values, target, direction);
    match direction
    case Lower => LowerPrefix(Sorted(values), target, |values| / 2);
    case Higher => HigherSuffix(Sorted(values), target, |values| / 2);
  }

  /** With an even number a majority makes the median lead, and a leading median means at least half lead. */
  lemma MedianOfEven(values: seq<real>, target: real, direction: Direction)
    requires values != [] && |values| % 2 == 0
    ensures Wins(values, target, direction) >= |values| / 2 + 1 ==> Leads(Median(values), target, direction)
    ensures Leads(Median(values), target, direction) ==> Wins(values, target, direction) >= |values| / 2
  {
    hide Sort, Wins, Insert;
    WinsSort(values, target, direction);
    var s, k := Sorted(values), |values| / 2;
    match direction
    case Lower =>
      LowerPrefix(s, target, k);
      LowerPrefix(s, target, k - 1);
    case Higher =>
      HigherSuffix(s, target, k);
      HigherSuffix(s, target, k - 1);
  }

  /** With an even number the median is the mean of the two middle values, each told by what it leads and trails. */
  lemma MedianIsMean(values: seq<real>) returns (lo: real, hi: real)
    requires values != [] && |values| % 2 == 0
    ensures Median(values) == (lo + hi) / 2.0
    ensures Wins(values, lo, Lower) >= |values| / 2 && Wins(values, lo, Higher) >= |values| / 2 + 1
    ensures Wins(values, hi, Lower) >= |values| / 2 + 1 && Wins(values, hi, Higher) >= |values| / 2
  {
    hide Sort, Wins, Insert;
    var s, k := Sorted(values), |values| / 2;
    lo, hi := s[k - 1], s[k];
    WinsSort(values, lo, Lower);
    WinsSort(values, lo, Higher);
    WinsSort(values, hi, Lower);
    WinsSort(values, hi, Higher);
    LowerPrefix(s, lo, k - 1);
    HigherSuffix(s, lo, k - 1);
    LowerPrefix(s, hi, k);
    HigherSuffix(s, hi, k);
  }

  // Historical targets

  /** `best_target`: the least or the greatest of the eligible historical values, or nothing. */
  method BestTarget(history: seq<real>, direction: Direction) returns (target: Option<real>)
    ensures target.None? <==> history == []
    ensures target.Some? ==> target.value in history && forall v | v in history :: Leads(target.value, v, direction)
  {
    if history == [] {
      return None;
    }
    var best := history[0];
    for i := 1 to |history|
      invariant best in history
      invariant forall j | 0 <= j < i :: Leads(best, history[j], direction)
    {
      if !Leads(best, history[i], direction) {
        best := history[i];
      }
    }
    target := Some(best);
  }

  /** Leading the best historical value is leading every historical value. */
  lemma LeadsBest(value: real, best: real, history: seq<real>, direction: Direction)
    requires best in history && forall v | v in history :: Leads(best, v, direction)
    ensures Leads(value, best, direction) <==> forall v | v in history :: Leads(value, v, direction)
  {
  }

  // The gate

  /** One metric: the values of the current trials, where one may be missing, and its two targets. */
  datatype Metric = Metric(
    values: seq<Option<real>>, direction: Direction, critical: bool, raw: Option<real>, durable: Option<real>)

  function Present(values: seq<Option<real>>): seq<real> {
    if values == [] then [] else
      Present(values[..|values| - 1]) + (if values[|values| - 1].Some? then [values[|values| - 1].value] else [])
  }

  /** `current_stats` finds a value for every trial, of which there is at least one. */
  predicate Complete(m: Metric) {
    |Present(m.values)| == |m.values| && m.values != []
  }

  function Required(m: Metric, leaders: nat, criticalLeaders: nat): nat {
    if m.critical && criticalLeaders > leaders then criticalLeaders else leaders
  }

  /** What one metric has to satisfy against one cohort's target. */
  predicate Passes(m: Metric, target: Option<real>, leaders: nat, criticalLeaders: nat) {
    && Complete(m) && target.Some? && Present(m.values) != []
    && Leads(Median(Present(m.values)), target.value, m.direction)
    && Wins(Present(m.values), target.value, m.direction) >= Required(m, leaders, criticalLeaders)
  }

  /** The verdicts of `print_current_table`, for the raw and for the durable cohort. */
  method Gate(metrics: seq<Metric>, leaders: nat, criticalLeaders: nat) returns (raw: bool, durable: bool)
    ensures raw <==> forall m | m in metrics :: Passes(m, m.raw, leaders, criticalLeaders)
    ensures durable <==> forall m | m in metrics :: Passes(m, m.durable, leaders, criticalLeaders)
  {
    hide Median, Wins, Present, Leads;
    raw, durable := true, true;
    for i := 0 to |metrics|
      invariant raw <==> forall j | 0 <= j < i :: Passes(metrics[j], metrics[j].raw, leaders, criticalLeaders)
      invariant durable <==> forall j | 0 <= j < i :: Passes(metrics[j], metrics[j].durable, leaders, criticalLeaders)
    {
      var m := metrics[i];
      if !Complete(m) {
        raw, durable := false, false;
      } else {
        var ok := CohortPasses(m, m.raw, leaders, criticalLeaders);
        raw := raw && ok;
        ok := CohortPasses(m, m.durable, leaders, criticalLeaders);
        durable := durable && ok;
      }
    }
  }

  method CohortPasses(m: Metric, target: Option<real>, leaders: nat, criticalLeaders: nat) returns (ok: bool)
    requires Complete(m)
    ensures ok <==> Passes(m, target, leaders, criticalLeaders)
  {
    var values := Present(m.values);
    if target == None {
      return false;
    }
    var wins := 0;
    for i := 0 to |values|
      invariant wins == Wins(values[..i], target.value, m.direction)
    {
      if Leads(values[i], target.value, m.direction) {
        wins := wins + 1;
      }
      assert values[..i + 1][..i] == values[..i];
    }
    assert values[..|values|] == values;
    ok := Leads(Median(values), target.value, m.direction);
    ok := ok && wins >= Required(m, leaders, criticalLeaders);
  }

  /** With an odd number of trials and a majority required, the median adds nothing to the leader count. */
  lemma LeaderCountDecides(m: Metric, target: Option<real>, leaders: nat, criticalLeaders: nat)
    requires |m.values| % 2 == 1 && 2 * leaders > |m.values|
    ensures Passes(m, target, leaders, criticalLeaders) <==>
              Complete(m) && target.Some?
              && Wins(Present(m.values), target.value, m.direction) >= Required(m, leaders, criticalLeaders)
  {
    hide Median, Wins, Present;
    if Complete(m) && target.Some? {
      MedianIsMajority(Present(m.values), target.value, m.direction);
    }
  }

  /** The values of a metric without gaps are those of its trials, in order. */
  lemma {:induction false} PresentIs(values: seq<Option<real>>)
    ensures |Present(values)| <= |values|
    ensures |Present(values)| == |values| <==> forall i | 0 <= i < |values| :: values[i].Some?
    ensures |Present(values)| == |values| ==> forall i | 0 <= i < |values| :: Present(values)[i] == values[i].value
  {
    if values == [] {
    } else {
      PresentIs(values[..|values| - 1]);
    }
  }

  /** A critical metric passes when it would pass as an ordinary one and the critical number of trials leads. */
  lemma CriticalPasses(m: Metric, target: Option<real>, leaders: nat, criticalLeaders: nat)
    requires m.critical
    ensures Passes(m, target, leaders, criticalLeaders)
            <==> && Passes(m.(critical := false), target, leaders, criticalLeaders)
                 && Wins(Present(m.values), target.value, m.direction) >= criticalLeaders
  {
    hide Median, Wins, Present, Leads;
  }

  /** An ordinary metric ignores the critical number. */
  lemma OrdinaryPasses(m: Metric, target: Option<real>, leaders: nat, criticalLeaders: nat)
    requires !m.critical
    ensures Passes(m, target, leaders, criticalLeaders) <==> Passes(m, target, leaders, 0)
  {
    hide Median, Wins, Present, Leads;
  }

  /**
   With four trials the median decides where the count does not: two leaders are enough for the
   count, but two far-off trials pull the median away.
   */
  lemma MedianMatters()
    ensures
      var far := Metric([Some(1.0), Some(9.0), Some(1.0), Some(9.0)], Lower, false, None, None);
      var near := Metric([Some(1.0), Some(3.0), Some(1.0), Some(3.0)], Lower, false, None, None);
      !Passes(far, Some(2.0), 2, 2) && Passes(near, Some(2.0), 2, 2)
  {
    hide Sort, Wins, Insert;
    FourTrials(9.0);
    FourTrials(3.0);
  }

  lemma FourTrials(x: real)
    requires x > 2.0
    ensures
      var values := [Some(1.0), Some(x), Some(1.0), Some(x)];
      && Present(values) == [1.0, x, 1.0, x] && Median([1.0, x, 1.0, x]) == (1.0 + x) / 2.0
      && Wins([1.0, x, 1.0, x], 2.0, Lower) == 2
  {
    hide Sort, Insert;
    FourPresent(1.0, x);
    FourWins(x, 2.0);
    var lo, hi := MedianIsMean([1.0, x, 1.0, x]);
    FourWins(x, lo);
    FourWins(x, hi);
  }

  lemma FourPresent(a: real, b: real)
    ensures Present([Some(a), Some(b), Some(a), Some(b)]) == [a, b, a, b]
  {
    hide Present;
    var v := [Some(a), Some(b), Some(a), Some(b)];
    PresentIs(v);
    assert |Present(v)| == 4;
    assert forall i | 0 <= i < 4 :: Present(v)[i] == v[i].value;
  }

  /** How many of two ones and two values `x` lead a target. */
  lemma FourWins(x: real, target: real)
    requires x > 2.0
    ensures
      var s := [1.0, x, 1.0, x];
      && Wins(s, target, Lower) == (if 1.0 <= target then 2 else 0) + (if x <= target then 2 else 0)
      && Wins(s, target, Higher) == (if 1.0 >= target then 2 else 0) + (if x >= target then 2 else 0)
  {
    hide Wins;
    var s := [1.0, x, 1.0, x];
    FourOf(1.0, x, target, Lower);
    FourOf(1.0, x, target, Higher);
  }

  lemma FourOf(a: real, b: real, target: real, direction: Direction)
    ensures Wins([a, b, a, b], target, direction)
            == (if Leads(a, target, direction) then 2 else 0) + (if Leads(b, target, direction) then 2 else 0)
  {
    hide Leads;
    assert [a, b, a, b][..3] == [a, b, a] && [a, b, a][..2] == [a, b] && [a, b][..1] == [a] && [a][..0] == [];
    var x, y := if Leads(a, target, direction) then 1 else 0, if Leads(b, target, direction) then 1 else 0;
    assert Wins([a], target, direction) == x;
    assert Wins([a, b], target, direction) == x + y;
    assert Wins([a, b, a], target, direction) == x + y + x;
  }

  const FINAL_EXPECTED_TRIALS := 9
  const FINAL_MINIMUM_LEADERS := 5
  const FINAL_MINIMUM_CRITICAL_LEADERS := 7

  /** The final gate: five of nine trials lead, and seven on a critical metric. */
  lemma FinalGate(m: Metric, target: real)
    requires |m.values| == FINAL_EXPECTED_TRIALS && Complete(m)
    ensures Passes(m, Some(target), FINAL_MINIMUM_LEADERS, FINAL_MINIMUM_CRITICAL_LEADERS) <==>
              Wins(Present(m.values), target, m.direction) >= if m.critical then 7 else 5
  {
    LeaderCountDecides(m, Some(target), FINAL_MINIMUM_LEADERS, FINAL_MINIMUM_CRITICAL_LEADERS);
  }
}
