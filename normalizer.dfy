/**
 * The stream normaliser of TransformHealthGrades in doh_pipeline/tasks.py:
 * the three output functions, which decide from the current and the
 * previous record whether to write a restaurant, an inspection and a
 * violation line, and the single pass of `run` over the file, as a class
 * whose fields are the scan state and the three output files.
 */
module Normalizer {
  import opened Wrappers
  import opened Text
  import opened Cleaning

  /**
   * Why the transform stops: a line that `parse_line` rejects, a key an
   * output function reads but the record lacks (a KeyError), or a file
   * without even a header row (`next(reader)` raises StopIteration).
   */
  datatype ScanError = Malformed(cause: ParseError) | MissingKey(field: Field) | NoHeaderRow

  /** The columns of each output line, in the order `output_restaurant`, `output_inspection` and `output_violation` write them. */
  const RestaurantFields: seq<Field> :=
    [Camis, Dba, Boro, Building, Street, Zipcode, Phone, CuisineDescription, InspectionDate]
  const InspectionFields: seq<Field> :=
    [Camis, InspectionDate, Action, Score, Grade, GradeDate, InspectionType]
  const ViolationFields: seq<Field> :=
    [Camis, InspectionDate, ViolationCode, ViolationDescription, CriticalFlag]

  /** The record's values for `fields`, in order. */
  function Values(rec: Record, fields: seq<Field>): (r: seq<string>)
    requires forall i :: 0 <= i < |fields| ==> fields[i] in rec
    ensures |r| == |fields| && forall i :: 0 <= i < |fields| ==> r[i] == rec[fields[i]]
  {
    seq(|fields|, i requires 0 <= i < |fields| => rec[fields[i]])
  }

  /** `rec[f]`, or the KeyError it raises. */
  function Get(rec: Record, f: Field): (r: Result<string, ScanError>)
    ensures r.Ok? <==> f in rec
    ensures r.Ok? ==> r.value == rec[f]
    ensures r.Err? ==> r.error == MissingKey(f)
  {
    if f in rec then Ok(rec[f]) else Err(MissingKey(f))
  }

  /** The tuple `(rec[f0], rec[f1], ...)` of a format operand, evaluated left to right. */
  function GetAll(rec: Record, fields: seq<Field>): (r: Result<seq<string>, ScanError>)
    ensures r.Ok? <==> forall i :: 0 <= i < |fields| ==> fields[i] in rec
    ensures r.Ok? ==> r.value == Values(rec, fields)
    ensures r.Err? ==> exists i :: (0 <= i < |fields| && fields[i] !in rec && r.error == MissingKey(fields[i]) &&
      forall j :: 0 <= j < i ==> fields[j] in rec)
  {
    if fields == [] then Ok([])
    else
      var v :- Get(rec, fields[0]);
      var vs :- GetAll(rec, fields[1..]);
      assert forall i :: 1 <= i < |fields| ==> fields[i] == fields[1..][i - 1];
      Ok([v] + vs)
  }

  /** The current record and, if there is one, the previous one, each holding every field. */
  predicate BothComplete(cur: Record, prev: Option<Record>)
  {
    Complete(cur) && (prev.Some? ==> Complete(prev.value))
  }

  /** The restaurant rule: the first record, or one whose `camis` differs from the previous record's. */
  predicate NewRestaurant(cur: Record, prev: Option<Record>)
    requires BothComplete(cur, prev)
  {
    prev.None? || cur[Camis] != prev.value[Camis]
  }

  /** The inspection rule: a new restaurant, or the same one with a different `inspection_date`. */
  predicate NewInspection(cur: Record, prev: Option<Record>)
    requires BothComplete(cur, prev)
  {
    NewRestaurant(cur, prev) || cur[InspectionDate] != prev.value[InspectionDate]
  }

  /** The violation rule: a non-empty `violation_code`, whatever the previous record. */
  predicate HasViolation(cur: Record)
    requires Complete(cur)
  {
    cur[ViolationCode] != ""
  }

  /** The entity a line of each output file describes. */
  datatype Entity = Restaurant | Inspection | Violation

  function FieldsFor(e: Entity): seq<Field>
  {
    match e
    case Restaurant => RestaurantFields
    case Inspection => InspectionFields
    case Violation => ViolationFields
  }

  /** The line written for entity `e` of a complete record. */
  function EntityLine(e: Entity, rec: Record): string
    requires Complete(rec)
  {
    TabLine(Values(rec, FieldsFor(e)))
  }

  /**
   * `output_restaurant`: the restaurant line when the record is the first
   * or starts a new `camis`, nothing otherwise; a missing key raises.
   */
  function OutputRestaurant(cur: Record, prev: Option<Record>): (r: Result<Option<string>, ScanError>)
    ensures BothComplete(cur, prev) ==>
      r == Ok(if NewRestaurant(cur, prev) then Some(EntityLine(Restaurant, cur)) else None)
    // a KeyError names a key that the record, or the previous record, lacks
    ensures r.Err? ==>
      r.error.MissingKey? && (r.error.field !in cur || (prev.Some? && r.error.field !in prev.value))
    // a partial record holding every key the function reads does not raise
    ensures (forall f :: f in RestaurantFields ==> f in cur) && (prev.Some? ==> Camis in prev.value) ==> r.Ok?
  {
    var display :-
      if prev.None? then Ok(true)
      else
        var c :- Get(cur, Camis);
        var p :- Get(prev.value, Camis);
        Ok(c != p);
    if !display then Ok(None)
    else
      var values :- GetAll(cur, RestaurantFields);
      Ok(Some(TabLine(values)))
  }

  /**
   * `output_inspection`: the inspection line when the record is the first,
   * starts a new `camis` or a new `inspection_date`, nothing otherwise; a
   * missing key raises.
   */
  function OutputInspection(cur: Record, prev: Option<Record>): (r: Result<Option<string>, ScanError>)
    ensures BothComplete(cur, prev) ==>
      r == Ok(if NewInspection(cur, prev) then Some(EntityLine(Inspection, cur)) else None)
    ensures r.Err? ==>
      r.error.MissingKey? && (r.error.field !in cur || (prev.Some? && r.error.field !in prev.value))
    ensures ((forall f :: f in InspectionFields ==> f in cur) &&
             (prev.Some? ==> Camis in prev.value && InspectionDate in prev.value)) ==> r.Ok?
  {
    var display :-
      if prev.None? then Ok(true)
      else
        var c :- Get(cur, Camis);
        var p :- Get(prev.value, Camis);
        if c != p then Ok(true)
        else
          var d :- Get(cur, InspectionDate);
          var q :- Get(prev.value, InspectionDate);
          Ok(d != q);
    if !display then Ok(None)
    else
      var values :- GetAll(cur, InspectionFields);
      Ok(Some(TabLine(values)))
  }

  /** `output_violation`: the violation line when `violation_code` is non-empty, nothing otherwise. */
  function OutputViolation(cur: Record): (r: Result<Option<string>, ScanError>)
    ensures Complete(cur) ==>
      r == Ok(if HasViolation(cur) then Some(EntityLine(Violation, cur)) else None)
    ensures r.Err? ==> r.error.MissingKey? && r.error.field !in cur
    ensures (forall f :: f in ViolationFields ==> f in cur) ==> r.Ok?
  {
    var code :- Get(cur, ViolationCode);
    if code == "" then Ok(None)
    else
      var values :- GetAll(cur, ViolationFields);
      Ok(Some(TabLine(values)))
  }

  /**
   * The state of `run` between lines: the previous record, the count `n`
   * of lines parsed, and what has been written to the three files.
   */
  datatype ScanState = ScanState(
    prev: Option<Record>,
    n: nat,
    restaurants: seq<string>,
    inspections: seq<string>,
    violations: seq<string>)

  const Initial := ScanState(None, 0, [], [], [])

  /** The state reached and, if the pass stopped, why. */
  datatype Progress = Progress(state: ScanState, failure: Option<ScanError>)

  /**
   * One turn of the loop in `run`: parse the line, count it, then write
   * the restaurant, inspection and violation lines in that order, each
   * write done before the next output function can raise; only a line
   * that gets through all three becomes the previous record.
   */
  function Step(s: ScanState, line: seq<string>): Progress
  {
    match Parse(Schema, line)
    case Err(e) => Progress(s, Some(Malformed(e)))
    case Ok(rec) =>
      var s1 := s.(n := s.n + 1);
      match OutputRestaurant(rec, s.prev)
      case Err(e) => Progress(s1, Some(e))
      case Ok(r) =>
        var s2 := s1.(restaurants := s1.restaurants + Written(r));
        match OutputInspection(rec, s.prev)
        case Err(e) => Progress(s2, Some(e))
        case Ok(i) =>
          var s3 := s2.(inspections := s2.inspections + Written(i));
          match OutputViolation(rec)
          case Err(e) => Progress(s3, Some(e))
          case Ok(v) => Progress(s3.(violations := s3.violations + Written(v), prev := Some(rec)), None)
  }

  /** The loop of `run` over the data lines, as a fold that stops at the first failure. */
  function ScanLines(lines: seq<seq<string>>): Progress
  {
    if lines == [] then Progress(Initial, None)
    else
      var p := ScanLines(lines[..|lines| - 1]);
      if p.failure.Some? then p else Step(p.state, lines[|lines| - 1])
  }

  /** `run` on the rows of the CSV file: the first row is the header and is skipped. */
  function Transform(rows: seq<seq<string>>): Progress
  {
    if rows == [] then Progress(Initial, Some(NoHeaderRow)) else ScanLines(rows[1..])
  }

  /** Once the pass has stopped, later lines change nothing. */
  lemma {:induction false} StoppedStaysStopped(lines: seq<seq<string>>, m: nat)
    requires m <= |lines| && ScanLines(lines[..m]).failure.Some?
    ensures ScanLines(lines) == ScanLines(lines[..m])
    decreases |lines| - m
  {
    if m < |lines| {
      assert lines[..m + 1][..m] == lines[..m];
      StoppedStaysStopped(lines, m + 1);
    } else {
      assert lines[..m] == lines;
    }
  }

  /**
   * TransformHealthGrades while `run` executes: the loop's `prev_parsed_line`
   * and `n`, and the contents of the three output files.
   */
  class TransformHealthGrades {
    var prev: Option<Record>
    var n: nat
    var restaurants: seq<string>
    var inspections: seq<string>
    var violations: seq<string>

    function State(): ScanState
      reads this
    {
      ScanState(prev, n, restaurants, inspections, violations)
    }

    constructor ()
      ensures State() == Initial
    {
      prev, n := None, 0;
      restaurants, inspections, violations := [], [], [];
    }

    /** One turn of the loop: parse, count, write the three outputs, remember the record. */
    method ProcessLine(line: seq<string>) returns (failure: Option<ScanError>)
      modifies this
      ensures Progress(State(), failure) == Step(old(State()), line)
    {
      ghost var s0 := State();
      var parsed := ParseLine(Schema, line);
      if parsed.Err? {
        return Some(Malformed(parsed.error));
      }
      var rec := parsed.value;
      n := n + 1;
      ghost var s1 := State();
      assert s1 == s0.(n := s0.n + 1);
      var r := OutputRestaurant(rec, prev);
      if r.Err? {
        assert Step(s0, line) == Progress(s1, Some(r.error));
        return Some(r.error);
      }
      restaurants := restaurants + Written(r.value);
      ghost var s2 := State();
      assert s2 == s1.(restaurants := s1.restaurants + Written(r.value));
      var i := OutputInspection(rec, prev);
      if i.Err? {
        assert Step(s0, line) == Progress(s2, Some(i.error));
        return Some(i.error);
      }
      inspections := inspections + Written(i.value);
      ghost var s3 := State();
      assert s3 == s2.(inspections := s2.inspections + Written(i.value));
      var v := OutputViolation(rec);
      if v.Err? {
        assert Step(s0, line) == Progress(s3, Some(v.error));
        return Some(v.error);
      }
      violations := violations + Written(v.value);
      prev := Some(rec);
      return None;
    }

    /**
     * `run`: open the three files empty, skip the header row, then process
     * every data line in order, stopping at the first failure.
     */
    method Run(rows: seq<seq<string>>) returns (failure: Option<ScanError>)
      modifies this
      ensures Progress(State(), failure) == Transform(rows)
    {
      prev, n := None, 0;
      restaurants, inspections, violations := [], [], [];
      if rows == [] {
        return Some(NoHeaderRow);
      }
      var lines := rows[1..];
      var k := 0;
      while k < |lines|
        invariant 0 <= k <= |lines|
        invariant ScanLines(lines[..k]) == Progress(State(), None)
      {
        assert lines[..k + 1][..k] == lines[..k];
        failure := ProcessLine(lines[k]);
        if failure.Some? {
          StoppedStaysStopped(lines, k + 1);
          return;
        }
        k := k + 1;
      }
      assert lines[..k] == lines;
      return None;
    }
  }
}
