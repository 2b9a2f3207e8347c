/** The per-action decision logic of the main loop: which snapshots are
    compared, where the ancestor heuristic substitutes one, the region
    filter, and one output row per fired category. */
module Rows {
  import opened Wrappers
  import opened Osm
  import opened Kinds
  import opened Tags
  import opened Ancestor
  import opened Extract

  /** The region label for a row position. The spatial index itself is
      outside this model, so it is a parameter. */
  type RegionLookup = Position -> Option<string>

  /** One output row: the object's shared fields, the action on the whole
      object, the region label, and one fired category with its action. */
  datatype Row = Row(data: Extracted, objAction: Change, region: Option<string>, kind: Category, action: Change)

  /** The snapshot the row describes (`obj`) and the one it is compared with
      (`old`): `old` is absent for a creation. */
  function Snapshots(a: Action): (Obj, Option<Obj>)
  {
    match a
    case CreateAction(o) => (o, None)
    case ModifyAction(o, n) => (n, Some(o))
    case DeleteAction(o, n) => (n, Some(o))
  }

  /** The ancestor substitution: a created way is compared with the old
      snapshot of the modified way it was split from, and a deleted way's
      new side becomes the new snapshot of the way it was merged into. */
  function ResolveAncestor(a: Action, adiff: seq<Action>): (r: Result<(Obj, Option<Obj>), Fault>)
    ensures Snapshots(a).0.kind != Way || a.ModifyAction? ==> r == Ok(Snapshots(a))
    ensures r.Err? <==>
              && !a.ModifyAction? && Snapshots(a).0.kind == Way
              && FindWayInAnotherModified(if a.CreateAction? then a.obj else a.oldSnap, adiff, a.CreateAction?).Err?
    ensures r.Err? ==> r.error == EmptyMemberList
    // A created way: compared with the old side of the earliest modified way containing it.
    ensures a.CreateAction? && r.Ok? ==> r.value.0 == a.obj
    ensures a.CreateAction? && a.obj.kind == Way && |a.obj.nds| > 0 ==>
              && ((forall i :: !QualifiesAt(a.obj, adiff, i, true)) ==> r == Ok((a.obj, None)))
              && forall i :: QualifiesAt(a.obj, adiff, i, true)
                             && (forall j :: 0 <= j < i ==> !QualifiesAt(a.obj, adiff, j, true))
                             ==> r == Ok((a.obj, Some(adiff[i].oldSnap)))
    // A deleted way: its new side is replaced by the new side of the earliest
    // modified way containing its old side.
    ensures a.DeleteAction? && r.Ok? ==> r.value.1 == Some(a.oldSnap)
    ensures a.DeleteAction? && a.oldSnap.kind != Way ==> r == Ok(Snapshots(a))
    // A way without members is never substituted: its search finds nothing or fails.
    ensures a.CreateAction? && |a.obj.nds| == 0 && r.Ok? ==> r == Ok(Snapshots(a))
    ensures a.DeleteAction? && |a.oldSnap.nds| == 0 && r.Ok? ==> r == Ok(Snapshots(a))
    ensures a.DeleteAction? && a.newSnap.kind == Way && a.oldSnap.kind == Way && |a.oldSnap.nds| > 0 ==>
              && ((forall i :: !QualifiesAt(a.oldSnap, adiff, i, false)) ==> r == Ok((a.newSnap, Some(a.oldSnap))))
              && forall i :: QualifiesAt(a.oldSnap, adiff, i, false)
                             && (forall j :: 0 <= j < i ==> !QualifiesAt(a.oldSnap, adiff, j, false))
                             ==> r == Ok((adiff[i].newSnap, Some(a.oldSnap)))
  {
    var (obj, prev) := Snapshots(a);
    if obj.kind != Way then Ok((obj, prev))
    else match a
      case CreateAction(_) =>
        (match FindWayInAnotherModified(obj, adiff, true)
         case Err(e) => Err(e)
         case Ok(None) => Ok((obj, prev))
         case Ok(Some(anc)) => Ok((obj, Some(anc))))
      case DeleteAction(o, _) =>
        (match FindWayInAnotherModified(o, adiff, false)
         case Err(e) => Err(e)
         case Ok(None) => Ok((obj, prev))
         case Ok(Some(anc)) => Ok((anc, prev)))
      case ModifyAction(_, _) => Ok((obj, prev))
  }

  /** The region label, when a region index was loaded. */
  function RegionOf(regions: Option<RegionLookup>, p: Position): Option<string>
  {
    match regions
    case None => None
    case Some(find) => find(p)
  }

  /** The rows written for one object once its fields are known: none when a
      region filter is active and the position has no truthy label, else one
      per entry of `get_kinds`, in its order. */
  function EmitRows(data: Extracted, objAction: Change, regions: Option<RegionLookup>,
                    obj: Obj, prev: Option<Obj>): (rows: seq<Row>)
    requires data.Record?
    ensures regions.Some? && !Truthy(RegionOf(regions, data.position)) ==> rows == []
    ensures regions.None? || Truthy(RegionOf(regions, data.position)) ==> |rows| == |GetKinds(obj, prev)|
    ensures forall i :: 0 <= i < |rows| ==>
              && i < |GetKinds(obj, prev)|
              && rows[i].kind == GetKinds(obj, prev)[i].0
              && rows[i].action == GetKinds(obj, prev)[i].1
              && rows[i].data == data && rows[i].objAction == objAction
              && rows[i].region == RegionOf(regions, data.position)
    ensures regions.Some? ==> Labelled(rows)
  {
    var region := RegionOf(regions, data.position);
    if regions.Some? && !Truthy(region) then []
    else
      var kinds := GetKinds(obj, prev);
      seq(|kinds|, i requires 0 <= i < |kinds| => Row(data, objAction, region, kinds[i].0, kinds[i].1))
  }

  /** The main loop's body for one action, exactly as written: relations are
      skipped, the fields are extracted, the ancestor is searched, and then
      the fields are used without checking whether the object was dropped. */
  function ProcessActionAsWritten(a: Action, adiff: seq<Action>, regions: Option<RegionLookup>): (r: Result<seq<Row>, Fault>)
    ensures Snapshots(a).0.kind == Relation ==> r == Ok([])
    ensures Snapshots(a).0.kind != Relation && InitData(Snapshots(a).0, Snapshots(a).1) == Ok(Dropped) ==> r.Err?
    ensures (Snapshots(a).0.kind != Relation && InitData(Snapshots(a).0, Snapshots(a).1) == Ok(Dropped)
             && ResolveAncestor(a, adiff).Ok?) ==> r == Err(DroppedRecordUsed)
    ensures (Snapshots(a).0.kind != Relation && InitData(Snapshots(a).0, Snapshots(a).1) == Ok(Dropped)
             && ResolveAncestor(a, adiff).Err?) ==> r == Err(ResolveAncestor(a, adiff).error)
    ensures regions.Some? && r.Ok? ==> Labelled(r.value)
  {
    var (obj, prev) := Snapshots(a);
    if obj.kind == Relation then Ok([])
    else match InitData(obj, prev)
      case Err(e) => Err(e)
      case Ok(data) =>
        match ResolveAncestor(a, adiff)
        case Err(e) => Err(e)
        case Ok((o, p)) =>
          if data.Dropped? then Err(DroppedRecordUsed)
          else Ok(EmitRows(data, a.Type(), regions, o, p))
  }

  /** The main loop's body for one action with the drop signal honoured: an
      object the extractor drops emits no rows and is not searched for an
      ancestor. Otherwise it agrees with the code as written. */
  function ProcessAction(a: Action, adiff: seq<Action>, regions: Option<RegionLookup>): (r: Result<seq<Row>, Fault>)
    ensures Snapshots(a).0.kind == Relation ==> r == Ok([])
    ensures Snapshots(a).0.kind != Relation && InitData(Snapshots(a).0, Snapshots(a).1) == Ok(Dropped) ==> r == Ok([])
    ensures Snapshots(a).0.kind != Relation && InitData(Snapshots(a).0, Snapshots(a).1).Err? ==>
              r == Err(InitData(Snapshots(a).0, Snapshots(a).1).error)
    ensures regions.Some? && r.Ok? ==> Labelled(r.value)
    ensures r.Ok? ==> forall i :: 0 <= i < |r.value| ==> r.value[i].objAction == a.Type() && r.value[i].data.Record?
    ensures r != Err(DroppedRecordUsed)
    ensures Snapshots(a).0.kind != Relation && InitData(Snapshots(a).0, Snapshots(a).1).Ok?
            && InitData(Snapshots(a).0, Snapshots(a).1).value.Record? ==>
              var data := InitData(Snapshots(a).0, Snapshots(a).1).value;
              && (r.Err? <==> ResolveAncestor(a, adiff).Err?)
              && (r.Ok? ==>
                    var (o, p) := ResolveAncestor(a, adiff).value;
                    var kinds := GetKinds(o, p);
                    && (regions.Some? && !Truthy(RegionOf(regions, data.position)) ==> r.value == [])
                    && (regions.None? || Truthy(RegionOf(regions, data.position)) ==> |r.value| == |kinds|)
                    && forall i :: 0 <= i < |r.value| ==>
                         && i < |kinds|
                         && r.value[i].data == data
                         && r.value[i].kind == kinds[i].0 && r.value[i].action == kinds[i].1
                         && r.value[i].region == RegionOf(regions, data.position))
  {
    var (obj, prev) := Snapshots(a);
    if obj.kind == Relation then Ok([])
    else match InitData(obj, prev)
      case Err(e) => Err(e)
      case Ok(Dropped) => Ok([])
      case Ok(data) =>
        match ResolveAncestor(a, adiff)
        case Err(e) => Err(e)
        case Ok((o, p)) => Ok(EmitRows(data, a.Type(), regions, o, p))
  }

  /** The fix changes nothing for objects that are not dropped. */
  lemma ProcessActionAgreesWhenKept(a: Action, adiff: seq<Action>, regions: Option<RegionLookup>)
    requires Snapshots(a).0.kind == Relation || InitData(Snapshots(a).0, Snapshots(a).1) != Ok(Dropped)
    ensures ProcessAction(a, adiff, regions) == ProcessActionAsWritten(a, adiff, regions)
  {
  }

  /** Every row carries a truthy region label. */
  predicate Labelled(rows: seq<Row>)
  {
    forall i :: 0 <= i < |rows| ==> Truthy(rows[i].region)
  }

  /** What a run leaves behind: the rows written, in order, and the
      exception that stopped it, if any. Rows are written as each action is
      processed, so a run that aborts keeps the rows of earlier actions. */
  datatype Output = Output(rows: seq<Row>, aborted: Option<Fault>)

  /** The rows of the given per-action results, in order (reference
      definition, built from the last result backwards). */
  function Concat(results: seq<Result<seq<Row>, Fault>>): seq<Row>
    requires forall k :: 0 <= k < |results| ==> results[k].Ok?
  {
    if |results| == 0 then []
    else Concat(results[..|results| - 1]) + results[|results| - 1].value
  }

  /** The rows of a list of results are those of its first result followed
      by those of the rest. */
  lemma {:induction false} ConcatFront(results: seq<Result<seq<Row>, Fault>>)
    requires |results| > 0
    requires forall k :: 0 <= k < |results| ==> results[k].Ok?
    ensures Concat(results) == results[0].value + Concat(results[1..])
  {
    if |results| > 1 {
      var init := results[..|results| - 1];
      ConcatFront(init);
      assert init[1..] == results[1..][..|results[1..]| - 1];
      assert init[0] == results[0];
      var last := results[|results| - 1].value;
      assert (results[0].value + Concat(init[1..])) + last == results[0].value + (Concat(init[1..]) + last);
    } else {
      assert results[..0] == [];
      assert results[1..] == [];
    }
  }

  /** The write loop over per-action results: it stops at the first
      exception, keeping the rows written before it. */
  function Collect(results: seq<Result<seq<Row>, Fault>>): (out: Output)
    ensures out.aborted.None? <==> forall k :: 0 <= k < |results| ==> results[k].Ok?
    ensures out.aborted.None? ==> out.rows == Concat(results)
    ensures out.aborted.Some? ==>
              exists f :: && 0 <= f < |results| && results[f] == Err(out.aborted.value)
                          && (forall k :: 0 <= k < f ==> results[k].Ok?)
                          && out.rows == Concat(results[..f])
    ensures (forall k :: 0 <= k < |results| && results[k].Ok? ==> Labelled(results[k].value)) ==> Labelled(out.rows)
  {
    if |results| == 0 then Output([], None)
    else match results[0]
      case Err(e) =>
        assert results[..0] == [];
        Output([], Some(e))
      case Ok(rows) =>
        var rest := Collect(results[1..]);
        assert forall k :: 1 <= k < |results| ==> results[k] == results[1..][k - 1];
        LabelledConcat(rows, rest.rows);
        if rest.aborted.Some? then
          CollectAborted(results, rest);
          Output(rows + rest.rows, rest.aborted)
        else
          ConcatFront(results);
          Output(rows + rest.rows, rest.aborted)
  }

  /** A fault after a first successful result is the fault of the rest,
      one position later, and the rows before it gain the first result's. */
  lemma CollectAborted(results: seq<Result<seq<Row>, Fault>>, rest: Output)
    requires |results| > 0 && results[0].Ok? && rest.aborted.Some?
    requires exists f :: && 0 <= f < |results[1..]| && results[1..][f] == Err(rest.aborted.value)
                         && (forall k :: 0 <= k < f ==> results[1..][k].Ok?)
                         && rest.rows == Concat(results[1..][..f])
    ensures exists f :: && 0 <= f < |results| && results[f] == Err(rest.aborted.value)
                        && (forall k :: 0 <= k < f ==> results[k].Ok?)
                        && results[0].value + rest.rows == Concat(results[..f])
  {
    var f :| && 0 <= f < |results[1..]| && results[1..][f] == Err(rest.aborted.value)
             && (forall k :: 0 <= k < f ==> results[1..][k].Ok?)
             && rest.rows == Concat(results[1..][..f]);
    assert forall k :: 1 <= k <= f + 1 ==> results[k] == results[1..][k - 1];
    var prefix := results[..f + 1];
    assert prefix[1..] == results[1..][..f];
    ConcatFront(prefix);
    assert results[f + 1] == Err(rest.aborted.value);
  }

  /** Labelled rows stay labelled when concatenated. */
  lemma LabelledConcat(a: seq<Row>, b: seq<Row>)
    ensures Labelled(a) && Labelled(b) ==> Labelled(a + b)
  {
    assert forall i :: |a| <= i < |a + b| ==> (a + b)[i] == b[i - |a|];
  }

  /** The outcome of the loop body for each action, in document order:
      as written, or with the drop signal honoured. */
  function Outcomes(adiff: seq<Action>, regions: Option<RegionLookup>, asWritten: bool): seq<Result<seq<Row>, Fault>>
  {
    seq(|adiff|, k requires 0 <= k < |adiff| =>
      if asWritten then ProcessActionAsWritten(adiff[k], adiff, regions) else ProcessAction(adiff[k], adiff, regions))
  }

  /** The main loop over all actions in document order, as written: the rows
      of every action up to the first exception, which ends the run. */
  function Run(adiff: seq<Action>, regions: Option<RegionLookup>): (out: Output)
    ensures regions.Some? ==> Labelled(out.rows)
    ensures out.aborted.None? <==> forall k :: 0 <= k < |adiff| ==> ProcessActionAsWritten(adiff[k], adiff, regions).Ok?
    ensures out.aborted.None? ==> out.rows == Concat(Outcomes(adiff, regions, true))
    ensures out.aborted.Some? ==>
              exists f :: && 0 <= f < |adiff| && ProcessActionAsWritten(adiff[f], adiff, regions) == Err(out.aborted.value)
                          && (forall k :: 0 <= k < f ==> ProcessActionAsWritten(adiff[k], adiff, regions).Ok?)
                          && out.rows == Concat(Outcomes(adiff, regions, true)[..f])
  {
    var results := Outcomes(adiff, regions, true);
    assert forall k :: 0 <= k < |results| ==> results[k] == ProcessActionAsWritten(adiff[k], adiff, regions);
    Collect(results)
  }

  /** The main loop with the drop signal honoured: a dropped object never
      aborts the run, it only contributes no rows. */
  function RunCorrected(adiff: seq<Action>, regions: Option<RegionLookup>): (out: Output)
    ensures regions.Some? ==> Labelled(out.rows)
    ensures out.aborted.None? <==> forall k :: 0 <= k < |adiff| ==> ProcessAction(adiff[k], adiff, regions).Ok?
    ensures out.aborted.None? ==> out.rows == Concat(Outcomes(adiff, regions, false))
    ensures out.aborted.Some? ==>
              && out.aborted != Some(DroppedRecordUsed)
              && exists f :: && 0 <= f < |adiff| && ProcessAction(adiff[f], adiff, regions) == Err(out.aborted.value)
                             && (forall k :: 0 <= k < f ==> ProcessAction(adiff[k], adiff, regions).Ok?)
                             && out.rows == Concat(Outcomes(adiff, regions, false)[..f])
  {
    var results := Outcomes(adiff, regions, false);
    assert forall k :: 0 <= k < |results| ==> results[k] == ProcessAction(adiff[k], adiff, regions);
    Collect(results)
  }

  /** When no object is dropped the fix is invisible: both runs write the
      same rows and stop on the same fault. */
  lemma RunAgreesWhenKept(adiff: seq<Action>, regions: Option<RegionLookup>)
    requires forall k :: 0 <= k < |adiff| ==>
               Snapshots(adiff[k]).0.kind == Relation || InitData(Snapshots(adiff[k]).0, Snapshots(adiff[k]).1) != Ok(Dropped)
    ensures Run(adiff, regions) == RunCorrected(adiff, regions)
  {
    forall k | 0 <= k < |adiff| ensures Outcomes(adiff, regions, true)[k] == Outcomes(adiff, regions, false)[k] {
      ProcessActionAgreesWhenKept(adiff[k], adiff, regions);
    }
    assert Outcomes(adiff, regions, true) == Outcomes(adiff, regions, false);
  }

  /** A created way with one located member and its bounds. */
  function ShortWay(): Obj
  {
    Obj(Way, "7", "1", "100", "5", "mapper", "2023-05-01T10:20:30Z", None, None, [],
        [Nd(Some("1"), Some("55.7"), Some("37.6"))], Some(Bounds("55.7", "37.6", "55.7", "37.6")))
  }

  /** As written, a way the extractor drops aborts the run instead of being
      skipped; honouring the drop signal skips it. */
  lemma DroppedWayAbortsAsWritten()
    ensures InitData(ShortWay(), None) == Ok(Dropped)
    ensures ProcessActionAsWritten(CreateAction(ShortWay()), [CreateAction(ShortWay())], None) == Err(DroppedRecordUsed)
    ensures ProcessAction(CreateAction(ShortWay()), [CreateAction(ShortWay())], None) == Ok([])
    ensures Run([CreateAction(ShortWay())], None) == Output([], Some(DroppedRecordUsed))
    ensures RunCorrected([CreateAction(ShortWay())], None) == Output([], None)
  {
    assert !Measurable(ShortWay().nds);
  }

  /** A created bus stop node, placed at lon 10, lat 20. */
  function BusStop(): Obj
  {
    Obj(Node, "1", "1", "100", "5", "mapper", "2023-05-01T10:20:30Z", Some("20.0"), Some("10.0"),
        [Tag("highway", Some("bus_stop"))], [], None)
  }

  /** Without a region index, creating a bus stop writes exactly one `stop`
      row, created, at the node's own coordinates and with no region. */
  lemma BusStopCreatesOneRow()
    ensures ProcessAction(CreateAction(BusStop()), [CreateAction(BusStop())], None).Ok?
    ensures var rows := ProcessAction(CreateAction(BusStop()), [CreateAction(BusStop())], None).value;
            && |rows| == 1
            && rows[0].kind == Stop && rows[0].action == Create && rows[0].objAction == Create
            && rows[0].region == None && rows[0].data.position == PointAt("20.0", "10.0")
  {
    var o := BusStop();
    assert "traffic_calming" != "highway" && "crossing:island" != "highway";
    assert GetTagValue("highway", Some(o)) == Some("bus_stop");
    assert Some("bus_stop") != Some("crossing");
    var none: Option<Change> := None;
    var raw := [(TrafficCalming, none), (CrossingIsland, none), (Stop, Some(Create))];
    assert Rules(o, None) == raw;
    assert KeepFired(raw[2..]) == [(Stop, Create)];
    assert KeepFired(raw[1..]) == [(Stop, Create)];
    assert GetKinds(o, None) == [(Stop, Create)];
    var a := CreateAction(o);
    assert GetPosition(o, None) == Ok(PointAt("20.0", "10.0"));
    var data := InitData(o, None);
    assert data.Ok? && data.value.Record?;
    assert ResolveAncestor(a, [a]) == Ok((o, None));
    var rows := EmitRows(data.value, Create, None, o, None);
    assert |rows| == 1;
    assert ProcessAction(a, [a], None) == Ok(rows);
  }
}
