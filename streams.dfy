/**
 * What the three output files of TransformHealthGrades hold after a pass
 * over well-formed lines: each is the subsequence, in input order, of the
 * records its rule picks, and on input grouped by restaurant (and, for
 * inspections, by date) it has one line per distinct restaurant or
 * inspection.
 */
module Streams {
  import opened Wrappers
  import opened Cleaning
  import opened Normalizer

  predicate AllComplete(recs: seq<Record>)
  {
    forall i :: 0 <= i < |recs| ==> Complete(recs[i])
  }

  /** The record before position `i`, as `prev_parsed_line` holds it. */
  function PrevOf(recs: seq<Record>, i: nat): (r: Option<Record>)
    requires i <= |recs|
    ensures r.None? <==> i == 0
    ensures r.Some? ==> r.value == recs[i - 1]
  {
    if i == 0 then None else Some(recs[i - 1])
  }

  /** Whether the record at position `i` produces a line of entity `e`. */
  predicate Emits(e: Entity, recs: seq<Record>, i: nat)
    requires AllComplete(recs) && i < |recs|
  {
    match e
    case Restaurant => NewRestaurant(recs[i], PrevOf(recs, i))
    case Inspection => NewInspection(recs[i], PrevOf(recs, i))
    case Violation => HasViolation(recs[i])
  }

  /** The lines of entity `e` a pass over `recs` writes. */
  function Emit(e: Entity, recs: seq<Record>): (r: seq<string>)
    requires AllComplete(recs)
    ensures |r| <= |recs|
  {
    if recs == [] then []
    else
      var n := |recs| - 1;
      Emit(e, recs[..n]) + (if Emits(e, recs, n) then [EntityLine(e, recs[n])] else [])
  }

  lemma EmitSnoc(e: Entity, recs: seq<Record>)
    requires AllComplete(recs) && recs != []
    ensures AllComplete(recs[..|recs| - 1])
    ensures |Emit(e, recs)| == |Emit(e, recs[..|recs| - 1])| + (if Emits(e, recs, |recs| - 1) then 1 else 0)
  {
  }

  /** The positions of the records that produce a line of entity `e`. */
  function Picked(e: Entity, recs: seq<Record>): seq<nat>
    requires AllComplete(recs)
  {
    if recs == [] then []
    else
      var n := |recs| - 1;
      Picked(e, recs[..n]) + (if Emits(e, recs, n) then [n] else [])
  }

  predicate Increasing(ps: seq<nat>)
  {
    forall j, k :: 0 <= j < k < |ps| ==> ps[j] < ps[k]
  }

  /** The picked positions are exactly those where the rule holds, in increasing order. */
  lemma {:induction false} PickedExactly(e: Entity, recs: seq<Record>)
    requires AllComplete(recs)
    ensures var ps := Picked(e, recs);
      && Increasing(ps)
      && (forall j :: 0 <= j < |ps| ==> ps[j] < |recs|)
      && (forall i :: 0 <= i < |recs| ==> (i in ps <==> Emits(e, recs, i)))
  {
    if recs != [] {
      var n := |recs| - 1;
      var pre := recs[..n];
      PickedExactly(e, pre);
      assert forall i :: 0 <= i < n ==> Emits(e, pre, i) == Emits(e, recs, i);
    }
  }

  /**
   * Each output file is the order-preserving subsequence of the records
   * its rule picks: one line per picked position, each that record's line.
   */
  lemma {:induction false} EmitPicked(e: Entity, recs: seq<Record>)
    requires AllComplete(recs)
    ensures var ps := Picked(e, recs);
      && |Emit(e, recs)| == |ps|
      && forall j :: 0 <= j < |ps| ==> ps[j] < |recs| && Emit(e, recs)[j] == EntityLine(e, recs[ps[j]])
  {
    if recs != [] {
      var n := |recs| - 1;
      var pre := recs[..n];
      EmitPicked(e, pre);
      assert forall j :: 0 <= j < |Picked(e, pre)| ==> pre[Picked(e, pre)[j]] == recs[Picked(e, pre)[j]];
    }
  }

  /** Every record that starts a restaurant also starts an inspection. */
  lemma RestaurantStartsInspection(recs: seq<Record>)
    requires AllComplete(recs)
    ensures forall i :: i in Picked(Restaurant, recs) ==> i in Picked(Inspection, recs)
  {
    PickedExactly(Restaurant, recs);
    PickedExactly(Inspection, recs);
  }

  /** The number of maximal runs of equal neighbours in `xs`. */
  function Runs<T(==)>(xs: seq<T>): (r: nat)
    ensures r <= |xs|
    ensures xs != [] ==> r >= 1
  {
    if xs == [] then 0
    else
      var n := |xs| - 1;
      Runs(xs[..n]) + (if n == 0 || xs[n] != xs[n - 1] then 1 else 0)
  }

  lemma RunsSnoc<T>(xs: seq<T>)
    requires xs != []
    ensures var n := |xs| - 1; Runs(xs) == Runs(xs[..n]) + (if n == 0 || xs[n] != xs[n - 1] then 1 else 0)
  {
  }

  /** Equal elements are adjacent: nothing different sits between two equal ones. */
  predicate Grouped<T(==)>(xs: seq<T>)
  {
    forall i, j, k :: 0 <= i < j < k < |xs| && xs[i] == xs[k] ==> xs[j] == xs[i]
  }

  function Distinct<T>(xs: seq<T>): set<T>
  {
    set x | x in xs
  }

  lemma GroupedPrefix<T>(xs: seq<T>, m: nat)
    requires Grouped(xs) && m <= |xs|
    ensures Grouped(xs[..m])
  {
    forall i, j, k | 0 <= i < j < k < m && xs[..m][i] == xs[..m][k] ensures xs[..m][j] == xs[..m][i] {
      assert xs[i] == xs[k];
    }
  }

  lemma DistinctSnoc<T>(xs: seq<T>)
    requires xs != []
    ensures Distinct(xs) == Distinct(xs[..|xs| - 1]) + {xs[|xs| - 1]}
  {
    assert xs == xs[..|xs| - 1] + [xs[|xs| - 1]];
  }

  /** In a grouped sequence, a value that differs from its left neighbour has not occurred before. */
  lemma GroupedFresh<T>(xs: seq<T>)
    requires Grouped(xs) && |xs| >= 2 && xs[|xs| - 1] != xs[|xs| - 2]
    ensures xs[|xs| - 1] !in Distinct(xs[..|xs| - 1])
  {
    var n := |xs| - 1;
    forall i | 0 <= i < n ensures xs[..n][i] != xs[n] {
      if i < n - 1 {
        var earlier, left, last := xs[i], xs[n - 1], xs[n];
        assert earlier == last ==> left == earlier;
      }
    }
  }

  /** In a grouped sequence every run is a different value. */
  lemma {:induction false} GroupedRuns<T>(xs: seq<T>)
    requires Grouped(xs)
    ensures Runs(xs) == |Distinct(xs)|
  {
    if xs != [] {
      var n := |xs| - 1;
      GroupedPrefix(xs, n);
      GroupedRuns(xs[..n]);
      DistinctSnoc(xs);
      if n == 0 {
        assert Distinct(xs[..n]) == {};
      } else if xs[n] == xs[n - 1] {
        assert xs[n] in Distinct(xs[..n]) by { assert xs[..n][n - 1] == xs[n]; }
        assert Distinct(xs) == Distinct(xs[..n]);
      } else {
        GroupedFresh(xs);
      }
    }
  }

  /** The value of field `f` in each record. */
  function FieldValues(recs: seq<Record>, f: Field): (r: seq<string>)
    requires AllComplete(recs)
    ensures |r| == |recs|
    ensures forall i :: 0 <= i < |recs| ==> r[i] == recs[i][f]
  {
    seq(|recs|, i requires 0 <= i < |recs| => recs[i][f])
  }

  /** The (camis, inspection_date) key of each record. */
  function InspectionKeys(recs: seq<Record>): (r: seq<(string, string)>)
    requires AllComplete(recs)
    ensures |r| == |recs|
    ensures forall i :: 0 <= i < |recs| ==> r[i] == (recs[i][Camis], recs[i][InspectionDate])
  {
    seq(|recs|, i requires 0 <= i < |recs| => (recs[i][Camis], recs[i][InspectionDate]))
  }

  lemma InspectionKeysPrefix(recs: seq<Record>, m: nat)
    requires AllComplete(recs) && m <= |recs|
    ensures AllComplete(recs[..m]) && InspectionKeys(recs)[..m] == InspectionKeys(recs[..m])
  {
    var pre := recs[..m];
    assert forall i :: 0 <= i < m ==> pre[i] == recs[i];
    var k, kp := InspectionKeys(recs)[..m], InspectionKeys(pre);
    assert |k| == |kp|;
    forall i | 0 <= i < m ensures k[i] == kp[i] {
      assert pre[i] == recs[i];
    }
  }

  /** How many of `xs` are non-empty. */
  function NonEmpty(xs: seq<string>): (r: nat)
    ensures r <= |xs|
  {
    if xs == [] then 0
    else
      var n := |xs| - 1;
      NonEmpty(xs[..n]) + (if xs[n] != "" then 1 else 0)
  }

  /** One restaurant line per run of equal `camis`. */
  lemma {:induction false} RestaurantCount(recs: seq<Record>)
    requires AllComplete(recs)
    ensures |Emit(Restaurant, recs)| == Runs(FieldValues(recs, Camis))
  {
    if recs != [] {
      var n := |recs| - 1;
      RestaurantCount(recs[..n]);
      assert FieldValues(recs, Camis)[..n] == FieldValues(recs[..n], Camis);
    }
  }

  /** A record starts an inspection exactly when its (camis, inspection_date) key differs from the previous record's. */
  lemma InspectionStep(recs: seq<Record>, n: nat)
    requires AllComplete(recs) && 0 < n < |recs|
    ensures Emits(Inspection, recs, n) <==> InspectionKeys(recs)[n] != InspectionKeys(recs)[n - 1]
  {
  }

  /** One inspection line per run of equal (camis, inspection_date). */
  lemma {:induction false} InspectionCount(recs: seq<Record>)
    requires AllComplete(recs)
    ensures |Emit(Inspection, recs)| == Runs(InspectionKeys(recs))
  {
    if recs != [] {
      var n := |recs| - 1;
      InspectionKeysPrefix(recs, n);
      InspectionCount(recs[..n]);
      RunsSnoc(InspectionKeys(recs));
      EmitSnoc(Inspection, recs);
      if n > 0 {
        InspectionStep(recs, n);
      }
    }
  }

  /** One violation line per record with a non-empty `violation_code`. */
  lemma {:induction false} ViolationCount(recs: seq<Record>)
    requires AllComplete(recs)
    ensures |Emit(Violation, recs)| == NonEmpty(FieldValues(recs, ViolationCode))
  {
    if recs != [] {
      var n := |recs| - 1;
      ViolationCount(recs[..n]);
      assert FieldValues(recs, ViolationCode)[..n] == FieldValues(recs[..n], ViolationCode);
    }
  }

  /** On input grouped by restaurant, one restaurant line per distinct `camis`. */
  lemma DistinctRestaurants(recs: seq<Record>)
    requires AllComplete(recs) && Grouped(FieldValues(recs, Camis))
    ensures |Emit(Restaurant, recs)| == |Distinct(FieldValues(recs, Camis))|
  {
    RestaurantCount(recs);
    GroupedRuns(FieldValues(recs, Camis));
  }

  /** On input grouped by inspection, one inspection line per distinct (camis, inspection_date). */
  lemma DistinctInspections(recs: seq<Record>)
    requires AllComplete(recs) && Grouped(InspectionKeys(recs))
    ensures |Emit(Inspection, recs)| == |Distinct(InspectionKeys(recs))|
  {
    InspectionCount(recs);
    GroupedRuns(InspectionKeys(recs));
  }

  /** A line `parse_line` accepts in full: one value per schema column. */
  predicate WellFormed(line: seq<string>)
  {
    |line| == |Schema| && Parse(Schema, line).Ok?
  }

  lemma ParsedComplete(lines: seq<seq<string>>)
    requires forall i :: 0 <= i < |lines| ==> WellFormed(lines[i])
    ensures forall i :: 0 <= i < |lines| ==> Parse(Schema, lines[i]).Ok? && Complete(Parse(Schema, lines[i]).value)
  {
    forall i | 0 <= i < |lines| ensures Parse(Schema, lines[i]).Ok? && Complete(Parse(Schema, lines[i]).value) {
      assert WellFormed(lines[i]);
      ParseComplete(lines[i]);
    }
  }

  /** The records of well-formed lines. */
  function Records(lines: seq<seq<string>>): (r: seq<Record>)
    requires forall i :: 0 <= i < |lines| ==> WellFormed(lines[i])
    ensures |r| == |lines| && AllComplete(r)
    ensures forall i :: 0 <= i < |lines| ==> Parse(Schema, lines[i]) == Ok(r[i])
  {
    ParsedComplete(lines);
    seq(|lines|, i requires 0 <= i < |lines| => Parse(Schema, lines[i]).value)
  }

  /** One turn of the loop on a well-formed line: nothing fails, and each file gets its rule's line. */
  lemma StepComplete(s: ScanState, line: seq<string>, rec: Record)
    requires Parse(Schema, line) == Ok(rec) && BothComplete(rec, s.prev)
    ensures Step(s, line) == Progress(
      ScanState(Some(rec), s.n + 1,
        s.restaurants + (if NewRestaurant(rec, s.prev) then [EntityLine(Restaurant, rec)] else []),
        s.inspections + (if NewInspection(rec, s.prev) then [EntityLine(Inspection, rec)] else []),
        s.violations + (if HasViolation(rec) then [EntityLine(Violation, rec)] else [])),
      None)
  {
  }

  /** The pass over lines that parse to `recs`, each holding every field. */
  lemma {:induction false} ScanRecords(lines: seq<seq<string>>, recs: seq<Record>)
    requires |recs| == |lines| && AllComplete(recs)
    requires forall i :: 0 <= i < |lines| ==> Parse(Schema, lines[i]) == Ok(recs[i])
    ensures ScanLines(lines) == Progress(
      ScanState(PrevOf(recs, |recs|), |lines|,
        Emit(Restaurant, recs), Emit(Inspection, recs), Emit(Violation, recs)),
      None)
  {
    if lines != [] {
      var n := |lines| - 1;
      ScanRecords(lines[..n], recs[..n]);
      var s := ScanLines(lines[..n]).state;
      assert s.prev == PrevOf(recs, n);
      StepComplete(s, lines[n], recs[n]);
    }
  }

  /**
   * A pass over well-formed lines never stops early: it counts every line,
   * ends with the last record as the previous one, and leaves in each file
   * exactly the lines its rule picks.
   */
  lemma ScanWellFormed(lines: seq<seq<string>>)
    requires forall i :: 0 <= i < |lines| ==> WellFormed(lines[i])
    ensures var recs := Records(lines);
      ScanLines(lines) == Progress(
        ScanState(PrevOf(recs, |recs|), |lines|,
          Emit(Restaurant, recs), Emit(Inspection, recs), Emit(Violation, recs)),
        None)
  {
    ScanRecords(lines, Records(lines));
  }
}
