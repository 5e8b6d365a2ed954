/**
 * Record parsing for the inspection-results file (TransformHealthGrades in
 * doh_pipeline/tasks.py): the 18-column positional schema, the per-element
 * cleaning rules, and `parse_line`, which files every cleaned element under
 * its schema field name.
 */
module Cleaning {
  import opened Wrappers
  import opened Text

  /** The field names of `line_schema`, in file order. */
  datatype Field =
    | Camis | Dba | Boro | Building | Street | Zipcode | Phone | CuisineDescription
    | InspectionDate | Action | ViolationCode | ViolationDescription | CriticalFlag
    | Score | Grade | GradeDate | RecordDate | InspectionType

  /** The declared column types; only `Date` changes how an element is cleaned. */
  datatype FieldType = Int | Varchar | Date

  datatype Column = Column(field: Field, kind: FieldType)

  /** `line_schema`: position i of a raw line holds field `Schema[i].field`. */
  const Schema: seq<Column> := [
    Column(Camis, Int),
    Column(Dba, Varchar),
    Column(Boro, Varchar),
    Column(Building, Varchar),
    Column(Street, Varchar),
    Column(Zipcode, Int),
    Column(Phone, Varchar),
    Column(CuisineDescription, Varchar),
    Column(InspectionDate, Date),
    Column(Action, Varchar),
    Column(ViolationCode, Int),
    Column(ViolationDescription, Varchar),
    Column(CriticalFlag, Varchar),
    Column(Score, Int),
    Column(Grade, Varchar),
    Column(GradeDate, Date),
    Column(RecordDate, Date),
    Column(InspectionType, Varchar)
  ]

  /** A parsed line: the dictionary `parse_line` builds, keyed by field. */
  type Record = map<Field, string>

  /** A record that holds every field of the schema. */
  predicate Complete(r: Record)
  {
    forall f: Field :: f in r
  }

  /** The two ways `parse_line` raises: an IndexError on `line_schema[n]`, or one on the date parts. */
  datatype ParseError =
    | TooManyElements(position: nat)
    | DateTooFewParts(field: Field, value: string)

  /** The value `clean_elements` produces for a non-empty date: `p0/p1/p2...` becomes `p2/p0/p1`. */
  function RewriteDate(parts: seq<string>): (r: string)
    requires |parts| >= 3
    ensures '/' in r
  {
    var r := parts[2] + "/" + parts[0] + "/" + parts[1];
    assert r[|parts[2]|] == '/';
    r
  }

  /**
   * `clean_elements`: strip the element; an empty one stays empty except a
   * grade, which becomes "Unknown"; a grade of "Z" becomes "Pending"; a
   * non-empty date is re-ordered from month/day/year to year/month/day.
   */
  function CleanElement(element: string, field: Field, kind: FieldType): (r: Result<string, ParseError>)
    // the only failure: a non-empty, non-sentinel date with fewer than three parts
    ensures r.Err? <==>
      kind == Date && Strip(element, Whitespace) != "" &&
      !(field == Grade && Strip(element, Whitespace) == "Z") &&
      |Split(Strip(element, Whitespace), '/')| < 3
    // a cleaned grade is never empty and never the pending sentinel
    ensures r.Ok? && field == Grade ==> r.value != "" && r.value != "Z"
    // outside the date rewrite, the value carries no surrounding whitespace
    ensures r.Ok? && kind != Date ==> Unpadded(r.value, Whitespace)
  {
    var e := Strip(element, Whitespace);
    assert Unpadded("Unknown", Whitespace) && Unpadded("Pending", Whitespace);
    if e == "" then
      Ok(if field == Grade then "Unknown" else e)
    else if field == Grade && e == "Z" then
      Ok("Pending")
    else if kind == Date then
      var parts := Split(e, '/');
      if |parts| < 3 then Err(DateTooFewParts(field, e)) else Ok(RewriteDate(parts))
    else
      Ok(e)
  }

  /**
   * The non-date rules of `clean_elements`: an element that strips to
   * nothing becomes "" ("Unknown" for a grade); a grade of "Z" becomes
   * "Pending"; anything else outside a date is returned stripped.
   */
  lemma CleanRules(element: string, field: Field, kind: FieldType)
    ensures Strip(element, Whitespace) == "" ==>
      CleanElement(element, field, kind) == Ok(if field == Grade then "Unknown" else "")
    ensures field == Grade && Strip(element, Whitespace) == "Z" ==>
      CleanElement(element, field, kind) == Ok("Pending")
    ensures (kind != Date && Strip(element, Whitespace) != "" &&
      !(field == Grade && Strip(element, Whitespace) == "Z")) ==>
      CleanElement(element, field, kind) == Ok(Strip(element, Whitespace))
  {
  }

  /**
   * A date written `p0/p1/p2/...` is rewritten `p2/p0/p1`, whatever the
   * parts hold (there is no calendar check), and parts after the third are
   * dropped.
   */
  lemma CleanDate(parts: seq<string>, field: Field)
    requires |parts| >= 3 && forall i :: 0 <= i < |parts| ==> '/' !in parts[i]
    requires Unpadded(Join(parts, '/'), Whitespace)
    ensures CleanElement(Join(parts, '/'), field, Date) == Ok(parts[2] + "/" + parts[0] + "/" + parts[1])
  {
    var e := Join(parts, '/');
    StripUnpadded(e, Whitespace);
    SplitJoin(parts, '/');
    assert e[|parts[0]|] == '/';
  }

  /** The position of each field in the schema. */
  function Position(f: Field): nat
  {
    match f
    case Camis => 0 case Dba => 1 case Boro => 2 case Building => 3 case Street => 4
    case Zipcode => 5 case Phone => 6 case CuisineDescription => 7 case InspectionDate => 8
    case Action => 9 case ViolationCode => 10 case ViolationDescription => 11
    case CriticalFlag => 12 case Score => 13 case Grade => 14 case GradeDate => 15
    case RecordDate => 16 case InspectionType => 17
  }

  /**
   * The schema lists every field exactly once: position i holds the field
   * whose position is i, so no parsed element overwrites another.
   */
  lemma SchemaPositions()
    ensures |Schema| == 18
    ensures forall i :: 0 <= i < |Schema| ==> Position(Schema[i].field) == i
    ensures forall f: Field :: Position(f) < |Schema| && Schema[Position(f)].field == f
  {
    forall f: Field ensures Position(f) < |Schema| && Schema[Position(f)].field == f {
      match f
      case Camis => case Dba => case Boro => case Building => case Street =>
      case Zipcode => case Phone => case CuisineDescription => case InspectionDate =>
      case Action => case ViolationCode => case ViolationDescription =>
      case CriticalFlag => case Score => case Grade => case GradeDate =>
      case RecordDate => case InspectionType =>
    }
  }

  /** No two positions of `schema` name the same field. */
  predicate DistinctFields(schema: seq<Column>)
  {
    forall i, j :: 0 <= i < j < |schema| ==> schema[i].field != schema[j].field
  }

  /** `line_schema` names no field twice. */
  lemma SchemaDistinct()
    ensures DistinctFields(Schema)
  {
    SchemaPositions();
  }

  /**
   * What the loop of `parse_line` does with the element at position `k`:
   * the IndexError of `line_schema[n]` past the schema's end, or the
   * dictionary entry it stores.
   */
  function ElementOutcome(schema: seq<Column>, line: seq<string>, k: nat): (r: Result<(Field, string), ParseError>)
    requires k < |line|
    ensures r.Ok? ==> k < |schema| && r.value.0 == schema[k].field
  {
    if k < |schema| then
      match CleanElement(line[k], schema[k].field, schema[k].kind)
      case Ok(v) => Ok((schema[k].field, v))
      case Err(e) => Err(e)
    else Err(TooManyElements(k))
  }

  /** The outcome of every element of `line`, in order. */
  function Outcomes(schema: seq<Column>, line: seq<string>): (r: seq<Result<(Field, string), ParseError>>)
    ensures |r| == |line|
    ensures forall k :: 0 <= k < |line| ==> r[k] == ElementOutcome(schema, line, k)
  {
    seq(|line|, k requires 0 <= k < |line| => ElementOutcome(schema, line, k))
  }

  /**
   * The dictionary the loop builds from the element outcomes, taken in
   * order: the first failing element decides the error.
   */
  function Assemble(outs: seq<Result<(Field, string), ParseError>>): Result<Record, ParseError>
  {
    if outs == [] then Ok(map[])
    else
      var n := |outs| - 1;
      match Assemble(outs[..n])
      case Err(e) => Err(e)
      case Ok(rec) =>
        match outs[n]
        case Err(e) => Err(e)
        case Ok(entry) => Ok(rec[entry.0 := entry.1])
  }

  /** `parse_line` against the schema `schema` (the source always passes `line_schema`, that is `Schema`). */
  function Parse(schema: seq<Column>, line: seq<string>): Result<Record, ParseError>
  {
    Assemble(Outcomes(schema, line))
  }

  /** No two successful outcomes store the same key. */
  predicate DistinctKeys(outs: seq<Result<(Field, string), ParseError>>)
  {
    forall i, j :: 0 <= i < j < |outs| && outs[i].Ok? && outs[j].Ok? ==> outs[i].value.0 != outs[j].value.0
  }

  predicate AllOk(outs: seq<Result<(Field, string), ParseError>>)
  {
    forall k :: 0 <= k < |outs| ==> outs[k].Ok?
  }

  /** The dictionary is built exactly when no element fails. */
  lemma {:induction false} AssembleOk(outs: seq<Result<(Field, string), ParseError>>)
    ensures Assemble(outs).Ok? <==> AllOk(outs)
  {
    if outs != [] {
      var n := |outs| - 1;
      AssembleOk(outs[..n]);
      assert forall k :: 0 <= k < n ==> outs[..n][k] == outs[k];
    }
  }

  /** The keys the entries store. */
  function KeysOf(outs: seq<Result<(Field, string), ParseError>>): set<Field>
    requires AllOk(outs)
  {
    set k | 0 <= k < |outs| :: outs[k].value.0
  }

  /** The built dictionary has exactly the keys of the entries. */
  lemma {:induction false} AssembleKeys(outs: seq<Result<(Field, string), ParseError>>)
    requires AllOk(outs)
    ensures Assemble(outs).Ok? && Assemble(outs).value.Keys == KeysOf(outs)
  {
    if outs != [] {
      var n := |outs| - 1;
      AssembleKeys(outs[..n]);
      assert KeysOf(outs) == KeysOf(outs[..n]) + {outs[n].value.0};
    }
  }

  /** With distinct keys, each entry's value survives in the built dictionary. */
  lemma {:induction false} AssembleValues(outs: seq<Result<(Field, string), ParseError>>)
    requires AllOk(outs) && DistinctKeys(outs)
    ensures Assemble(outs).Ok?
    ensures forall k :: 0 <= k < |outs| ==>
      outs[k].value.0 in Assemble(outs).value && Assemble(outs).value[outs[k].value.0] == outs[k].value.1
  {
    if outs != [] {
      var n := |outs| - 1;
      assert DistinctKeys(outs[..n]);
      AssembleValues(outs[..n]);
    }
  }

  /** A failing dictionary build reports the error of the first element that fails. */
  lemma {:induction false} AssembleFailure(outs: seq<Result<(Field, string), ParseError>>)
    requires Assemble(outs).Err?
    ensures exists k :: (0 <= k < |outs| && outs[k] == Err(Assemble(outs).error) &&
      (forall j :: 0 <= j < k ==> outs[j].Ok?))
  {
    var n := |outs| - 1;
    var pre := outs[..n];
    if Assemble(pre).Err? {
      AssembleFailure(pre);
      var k :| 0 <= k < n && pre[k] == Err(Assemble(pre).error) && (forall j :: 0 <= j < k ==> pre[j].Ok?);
      assert Assemble(outs) == Assemble(pre);
      assert forall j :: 0 <= j <= k ==> outs[j] == pre[j];
      assert outs[k] == Err(Assemble(outs).error);
    } else {
      AssembleOk(pre);
      assert forall j :: 0 <= j < n ==> pre[j] == outs[j];
      assert outs[n] == Err(Assemble(outs).error);
    }
  }

  /** The fields named by the first `n` positions of `schema`. */
  function FieldsOf(schema: seq<Column>, n: nat): set<Field>
    requires n <= |schema|
  {
    set k | 0 <= k < n :: schema[k].field
  }

  /** `parse_line` succeeds exactly when every element cleans, so never with more elements than the schema has. */
  lemma ParseOk(schema: seq<Column>, line: seq<string>)
    ensures Parse(schema, line).Ok? <==> forall k :: 0 <= k < |line| ==> ElementOutcome(schema, line, k).Ok?
    ensures Parse(schema, line).Ok? ==> |line| <= |schema|
  {
    var outs := Outcomes(schema, line);
    AssembleOk(outs);
  }

  /**
   * A parsed record's keys are the fields of the line's positions, each
   * holding its element cleaned under its schema entry.
   */
  lemma ParseRecord(schema: seq<Column>, line: seq<string>)
    requires DistinctFields(schema)
    requires Parse(schema, line).Ok?
    ensures |line| <= |schema|
    ensures Parse(schema, line).value.Keys == FieldsOf(schema, |line|)
    ensures forall k :: 0 <= k < |line| ==> (ElementOutcome(schema, line, k).Ok? &&
      Parse(schema, line).value[schema[k].field] == ElementOutcome(schema, line, k).value.1)
  {
    var outs := Outcomes(schema, line);
    ParseOk(schema, line);
    AssembleOk(outs);
    AssembleKeys(outs);
    forall f ensures f in KeysOf(outs) <==> f in FieldsOf(schema, |line|) {
      if f in FieldsOf(schema, |line|) {
        var k :| 0 <= k < |line| && schema[k].field == f;
        assert outs[k].value.0 == f;
      }
    }
    AssembleValues(outs);
  }

  /** A failing `parse_line` reports the error of the first element that fails. */
  lemma ParseFailure(schema: seq<Column>, line: seq<string>)
    requires Parse(schema, line).Err?
    ensures exists k :: (0 <= k < |line| && ElementOutcome(schema, line, k) == Err(Parse(schema, line).error) &&
      (forall j :: 0 <= j < k ==> ElementOutcome(schema, line, j).Ok?))
  {
    AssembleFailure(Outcomes(schema, line));
  }

  lemma FieldsOfStep(schema: seq<Column>, n: nat)
    requires n < |schema|
    ensures FieldsOf(schema, n + 1) == FieldsOf(schema, n) + {schema[n].field}
  {
  }

  /** With distinct fields, the field of position `n` is not among those of the earlier positions. */
  lemma FreshField(schema: seq<Column>, n: nat)
    requires DistinctFields(schema) && n < |schema|
    ensures schema[n].field !in FieldsOf(schema, n)
  {
  }

  /** With distinct fields, the first `n` positions name `n` fields. */
  lemma {:induction false} FieldsOfSize(schema: seq<Column>, n: nat)
    requires DistinctFields(schema) && n <= |schema|
    ensures |FieldsOf(schema, n)| == n
  {
    if n > 0 {
      FieldsOfSize(schema, n - 1);
      FieldsOfStep(schema, n - 1);
      FreshField(schema, n - 1);
    }
  }

  /** A parsed record has exactly one key per element of the line. */
  lemma ParseOneKeyPerElement(line: seq<string>)
    requires Parse(Schema, line).Ok?
    ensures |Parse(Schema, line).value| == |line| <= |Schema|
  {
    SchemaDistinct();
    ParseRecord(Schema, line);
    FieldsOfSize(Schema, |line|);
  }

  /** A line of exactly the schema's 18 elements that parses yields a record with every field. */
  lemma ParseComplete(line: seq<string>)
    requires |line| == |Schema| && Parse(Schema, line).Ok?
    ensures Complete(Parse(Schema, line).value)
  {
    SchemaDistinct();
    ParseRecord(Schema, line);
    forall f: Field ensures f in Parse(Schema, line).value {
      SchemaPositions();
      var k := Position(f);
      assert f == Schema[k].field;
      assert f in FieldsOf(Schema, |line|);
    }
  }

  /** `parse_line` as the source writes it: a loop filling a dictionary, counting positions in `n`. */
  method ParseLine(schema: seq<Column>, line: seq<string>) returns (r: Result<Record, ParseError>)
    ensures r == Parse(schema, line)
  {
    ghost var outs := Outcomes(schema, line);
    var result: Record := map[];
    var n := 0;
    while n < |line|
      invariant 0 <= n <= |line|
      invariant Assemble(outs[..n]) == Ok(result)
    {
      assert outs[..n + 1][..n] == outs[..n];
      if n >= |schema| {
        AssembleFailureSticks(outs, n + 1);
        return Err(TooManyElements(n));
      }
      var v := CleanElement(line[n], schema[n].field, schema[n].kind);
      if v.Err? {
        AssembleFailureSticks(outs, n + 1);
        return Err(v.error);
      }
      result := result[schema[n].field := v.value];
      n := n + 1;
    }
    assert outs[..n] == outs;
    return Ok(result);
  }

  /** Once a prefix of the outcomes fails, building from all of them fails with the same error. */
  lemma {:induction false} AssembleFailureSticks(outs: seq<Result<(Field, string), ParseError>>, m: nat)
    requires m <= |outs| && Assemble(outs[..m]).Err?
    ensures Assemble(outs) == Assemble(outs[..m])
    decreases |outs| - m
  {
    if m < |outs| {
      assert outs[..m + 1][..m] == outs[..m];
      AssembleFailureSticks(outs, m + 1);
    } else {
      assert outs[..m] == outs;
    }
  }
}
