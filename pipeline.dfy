/**
 * The hand-over between the two stages of doh_pipeline/tasks.py: each
 * line TransformHealthGrades writes is read back by the matching
 * LoadMysqlTask subclass as exactly the fields that were written, one per
 * column of its table and one per placeholder of its INSERT.
 */
module Pipeline {
  import opened Text
  import opened Cleaning
  import opened Normalizer
  import opened Streams
  import opened Loader

  /** The loader that reads the file of each entity. */
  function ConfigFor(e: Entity): LoadConfig
  {
    match e
    case Restaurant => Loader.Restaurants
    case Inspection => Loader.Inspections
    case Violation => Loader.Violations
  }

  /** The written lines have 9, 7 and 5 fields, as many as the loading table has columns. */
  lemma WidthsAgree(e: Entity)
    ensures |FieldsFor(e)| == |ConfigFor(e).columns|
    ensures |RestaurantFields| == 9 && |InspectionFields| == 7 && |ViolationFields| == 5
  {
  }

  /** A record none of whose values holds a tab or a newline. */
  predicate TabSafeRecord(rec: Record)
  {
    forall f :: f in rec ==> TabSafe(rec[f])
  }

  /** A line written for a record is read back as that record's fields, one per column. */
  lemma LineReadBack(e: Entity, rec: Record)
    requires Complete(rec) && TabSafeRecord(rec)
    ensures SplitRow(EntityLine(e, rec)) == Values(rec, FieldsFor(e))
    ensures |SplitRow(EntityLine(e, rec))| == |ConfigFor(e).columns|
  {
    var values := Values(rec, FieldsFor(e));
    assert values[0] == rec[Camis];
    TabLineRoundTrip(values);
  }

  /**
   * Loading a file the normaliser wrote submits, in order, the fields of
   * exactly the records the file's rule picked.
   */
  lemma LoadedRows(e: Entity, recs: seq<Record>)
    requires AllComplete(recs) && forall i :: 0 <= i < |recs| ==> TabSafeRecord(recs[i])
    ensures var ps := Picked(e, recs);
      var rows := Rows(Emit(e, recs));
      && |rows| == |ps|
      && forall j :: 0 <= j < |ps| ==> ps[j] < |recs| && rows[j] == Values(recs[ps[j]], FieldsFor(e))
  {
    var ps := Picked(e, recs);
    EmitPicked(e, recs);
    forall j | 0 <= j < |ps| ensures Rows(Emit(e, recs))[j] == Values(recs[ps[j]], FieldsFor(e)) {
      LineReadBack(e, recs[ps[j]]);
    }
  }

  /**
   * On a file whose data lines are all well-formed and grouped by
   * restaurant, TransformHealthGrades writes one restaurant line per
   * distinct `camis`.
   */
  lemma OneLinePerRestaurant(rows: seq<seq<string>>)
    requires rows != [] && forall i :: 0 <= i < |rows| - 1 ==> WellFormed(rows[1..][i])
    requires Grouped(FieldValues(Records(rows[1..]), Camis))
    ensures Transform(rows).failure.None?
    ensures |Transform(rows).state.restaurants| == |Distinct(FieldValues(Records(rows[1..]), Camis))|
  {
    ScanWellFormed(rows[1..]);
    DistinctRestaurants(Records(rows[1..]));
  }
}
