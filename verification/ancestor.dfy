/** The split/merge heuristic: is one way's member list mostly inside
    another's, and which modified way is a created or deleted way's ancestor. */
module Ancestor {
  import opened Wrappers
  import opened Osm

  /** The `ref` attributes of a way's members, in order. */
  function Refs(nds: seq<Nd>): (r: seq<Option<string>>)
    ensures |r| == |nds|
    ensures forall i :: 0 <= i < |nds| ==> r[i] == nds[i].ref
  {
    if |nds| == 0 then [] else [nds[0].ref] + Refs(nds[1..])
  }

  /** How many entries of `xs` (with repetition) occur somewhere in `ys`. */
  function CountIn(xs: seq<Option<string>>, ys: seq<Option<string>>): (r: nat)
    ensures r <= |xs|
  {
    if |xs| == 0 then 0 else (if xs[0] in ys then 1 else 0) + CountIn(xs[1..], ys)
  }

  /** Every entry of `xs` occurs in `ys` exactly when all of them are counted. */
  lemma {:induction false} CountInAll(xs: seq<Option<string>>, ys: seq<Option<string>>)
    ensures CountIn(xs, ys) == |xs| <==> forall i :: 0 <= i < |xs| ==> xs[i] in ys
  {
    if |xs| > 0 {
      CountInAll(xs[1..], ys);
      assert forall i :: 1 <= i < |xs| ==> xs[i] == xs[1..][i - 1];
    }
  }

  /** Counting against a list that contains more references counts at least as many. */
  lemma {:induction false} CountInMonotone(xs: seq<Option<string>>, ys: seq<Option<string>>, zs: seq<Option<string>>)
    requires forall y :: y in ys ==> y in zs
    ensures CountIn(xs, ys) <= CountIn(xs, zs)
  {
    if |xs| > 0 {
      CountInMonotone(xs[1..], ys, zs);
    }
  }

  /** `is_way_inside`: the way's first and last references occur in the other
      way's member list, and so do strictly more than half of its references
      (`cnt > len / 2` on true division, that is `2 * cnt > len`). The source
      indexes `nodes[0]`, so the way must have a member. */
  predicate IsWayInside(way: Obj, another: Obj)
    requires |way.nds| > 0
    ensures IsWayInside(way, another) <==>
              && way.nds[0].ref in Refs(another.nds)
              && way.nds[|way.nds| - 1].ref in Refs(another.nds)
              && CountIn(Refs(way.nds), Refs(another.nds)) >= |way.nds| / 2 + 1
    ensures IsWayInside(way, another) ==> |another.nds| > 0
  {
    var nodes := Refs(way.nds);
    var anodes := Refs(another.nds);
    && nodes[0] in anodes
    && nodes[|nodes| - 1] in anodes
    && 2 * CountIn(nodes, anodes) > |nodes|
  }

  /** The references of `a` all occur among those of `b`. */
  predicate RefsCovered(a: Obj, b: Obj)
  {
    forall i :: 0 <= i < |a.nds| ==> a.nds[i].ref in Refs(b.nds)
  }

  /** A way whose references all occur in the other way is inside it; in
      particular every non-empty way is inside itself. */
  lemma CoveredWayIsInside(way: Obj, another: Obj)
    requires |way.nds| > 0
    requires RefsCovered(way, another)
    ensures IsWayInside(way, another)
  {
    CountInAll(Refs(way.nds), Refs(another.nds));
  }

  lemma WayInsideItself(way: Obj)
    requires |way.nds| > 0
    ensures IsWayInside(way, way)
  {
    CoveredWayIsInside(way, way);
  }

  /** Being inside is preserved when the other way gains references. */
  lemma InsideLargerWay(way: Obj, a: Obj, b: Obj)
    requires |way.nds| > 0
    requires IsWayInside(way, a)
    requires RefsCovered(a, b)
    ensures IsWayInside(way, b)
  {
    var ra, rb := Refs(a.nds), Refs(b.nds);
    forall y | y in ra ensures y in rb {
      var k :| 0 <= k < |ra| && ra[k] == y;
    }
    CountInMonotone(Refs(way.nds), ra, rb);
  }

  /** The snapshot of a `modify` action that a created way (its `old`) or a
      deleted way (its `new`) is compared against. */
  function Candidate(a: Action, isCreated: bool): Obj
    requires a.ModifyAction?
  {
    if isCreated then a.oldSnap else a.newSnap
  }

  /** Action `i` is a `modify` whose compared snapshot is a way. */
  predicate WayCandidateAt(adiff: seq<Action>, i: int, isCreated: bool)
  {
    0 <= i < |adiff| && adiff[i].ModifyAction? && Candidate(adiff[i], isCreated).kind == Way
  }

  /** Action `i` is a `modify` whose compared snapshot is a way containing `way`. */
  predicate QualifiesAt(way: Obj, adiff: seq<Action>, i: int, isCreated: bool)
    requires |way.nds| > 0
  {
    WayCandidateAt(adiff, i, isCreated) && IsWayInside(way, Candidate(adiff[i], isCreated))
  }

  /** The scan over actions, in document order. */
  function Scan(way: Obj, adiff: seq<Action>, isCreated: bool): (r: Result<Option<Obj>, Fault>)
    ensures r.Ok? && r.value.Some? ==>
              && r.value.value.kind == Way && |way.nds| > 0 && IsWayInside(way, r.value.value)
              && exists i :: 0 <= i < |adiff| && adiff[i].ModifyAction? && r.value.value == Candidate(adiff[i], isCreated)
    ensures r.Err? ==> |way.nds| == 0 && r.error == EmptyMemberList
  {
    if |adiff| == 0 then Ok(None)
    else if !adiff[0].ModifyAction? then Scan(way, adiff[1..], isCreated)
    else
      var candidate := Candidate(adiff[0], isCreated);
      if candidate.kind != Way then Scan(way, adiff[1..], isCreated)
      else if |way.nds| == 0 then Err(EmptyMemberList)
      else if IsWayInside(way, candidate) then Ok(Some(candidate))
      else Scan(way, adiff[1..], isCreated)
  }

  lemma {:induction false} ScanFailsOnEmptyWay(way: Obj, adiff: seq<Action>, isCreated: bool)
    requires |way.nds| == 0
    ensures Scan(way, adiff, isCreated).Err? <==> exists i :: WayCandidateAt(adiff, i, isCreated)
  {
    if |adiff| > 0 {
      ScanFailsOnEmptyWay(way, adiff[1..], isCreated);
      if !WayCandidateAt(adiff, 0, isCreated) {
        assert Scan(way, adiff, isCreated) == Scan(way, adiff[1..], isCreated);
      }
      if exists i :: WayCandidateAt(adiff[1..], i, isCreated) {
        var i :| WayCandidateAt(adiff[1..], i, isCreated);
        assert WayCandidateAt(adiff, i + 1, isCreated);
      }
      if exists i :: WayCandidateAt(adiff, i, isCreated) {
        var i :| WayCandidateAt(adiff, i, isCreated);
        if i > 0 {
          assert WayCandidateAt(adiff[1..], i - 1, isCreated);
        }
      }
    }
  }

  /** Dropping the first action shifts every later position down by one. */
  lemma QualifiesShift(way: Obj, adiff: seq<Action>, i: int, isCreated: bool)
    requires |way.nds| > 0 && 0 < i < |adiff|
    ensures QualifiesAt(way, adiff, i, isCreated) == QualifiesAt(way, adiff[1..], i - 1, isCreated)
  {
    assert adiff[1..][i - 1] == adiff[i];
  }

  /** Past a first action that does not qualify, the first qualifying
      position of the rest is the first overall, one later. */
  lemma FirstAfterHead(way: Obj, adiff: seq<Action>, k: int, isCreated: bool)
    requires |way.nds| > 0 && |adiff| > 0 && !QualifiesAt(way, adiff, 0, isCreated)
    requires QualifiesAt(way, adiff[1..], k, isCreated)
    requires forall j :: 0 <= j < k ==> !QualifiesAt(way, adiff[1..], j, isCreated)
    ensures QualifiesAt(way, adiff, k + 1, isCreated)
    ensures Candidate(adiff[k + 1], isCreated) == Candidate(adiff[1..][k], isCreated)
    ensures forall j :: 0 <= j < k + 1 ==> !QualifiesAt(way, adiff, j, isCreated)
  {
    QualifiesShift(way, adiff, k + 1, isCreated);
    forall j | 0 < j < k + 1 ensures !QualifiesAt(way, adiff, j, isCreated) {
      QualifiesShift(way, adiff, j, isCreated);
    }
  }

  /** Past a first action that does not qualify, no position qualifies when
      none of the rest does. */
  lemma NoneAfterHead(way: Obj, adiff: seq<Action>, isCreated: bool)
    requires |way.nds| > 0 && |adiff| > 0 && !QualifiesAt(way, adiff, 0, isCreated)
    ensures (forall i :: !QualifiesAt(way, adiff[1..], i, isCreated)) <==> forall i :: !QualifiesAt(way, adiff, i, isCreated)
  {
    if forall i :: !QualifiesAt(way, adiff[1..], i, isCreated) {
      forall i ensures !QualifiesAt(way, adiff, i, isCreated) {
        if 0 < i < |adiff| {
          QualifiesShift(way, adiff, i, isCreated);
        }
      }
    }
    if forall i :: !QualifiesAt(way, adiff, i, isCreated) {
      forall i ensures !QualifiesAt(way, adiff[1..], i, isCreated) {
        if 0 <= i < |adiff| - 1 {
          QualifiesShift(way, adiff, i + 1, isCreated);
        }
      }
    }
  }

  lemma {:induction false} ScanFindsFirst(way: Obj, adiff: seq<Action>, isCreated: bool)
    requires |way.nds| > 0
    ensures Scan(way, adiff, isCreated).Ok?
    ensures Scan(way, adiff, isCreated).value.None? <==> forall i :: !QualifiesAt(way, adiff, i, isCreated)
    ensures Scan(way, adiff, isCreated).value.Some? ==>
              exists i :: && QualifiesAt(way, adiff, i, isCreated)
                          && Scan(way, adiff, isCreated).value.value == Candidate(adiff[i], isCreated)
                          && forall j :: 0 <= j < i ==> !QualifiesAt(way, adiff, j, isCreated)
  {
    if |adiff| > 0 {
      ScanFindsFirst(way, adiff[1..], isCreated);
      var r := Scan(way, adiff, isCreated);
      if QualifiesAt(way, adiff, 0, isCreated) {
        assert r.value == Some(Candidate(adiff[0], isCreated));
      } else {
        assert r == Scan(way, adiff[1..], isCreated);
        NoneAfterHead(way, adiff, isCreated);
        if r.value.Some? {
          var k :| && QualifiesAt(way, adiff[1..], k, isCreated)
                   && r.value.value == Candidate(adiff[1..][k], isCreated)
                   && forall j :: 0 <= j < k ==> !QualifiesAt(way, adiff[1..], j, isCreated);
          FirstAfterHead(way, adiff, k, isCreated);
        }
      }
    }
  }

  /** `find_way_in_another_modified`: the first `modify` action, in document
      order, whose old (for a created way) or new (for a deleted way) snapshot
      is a way that contains `way`. Nothing for a non-way. The scan fails as
      soon as it has to compare a way without members. */
  function FindWayInAnotherModified(way: Obj, adiff: seq<Action>, isCreated: bool): (r: Result<Option<Obj>, Fault>)
    ensures way.kind != Way ==> r == Ok(None)
    ensures r.Err? ==> r.error == EmptyMemberList
    ensures |way.nds| == 0 && r.Ok? ==> r == Ok(None)
    ensures r.Err? <==> way.kind == Way && |way.nds| == 0 && exists i :: WayCandidateAt(adiff, i, isCreated)
    ensures way.kind == Way && |way.nds| > 0 ==>
              (r == Ok(None) <==> forall i :: !QualifiesAt(way, adiff, i, isCreated))
    ensures r.Ok? && r.value.Some? ==>
              && way.kind == Way && |way.nds| > 0
              && r.value.value.kind == Way
              && IsWayInside(way, r.value.value)
              && exists i :: && QualifiesAt(way, adiff, i, isCreated)
                             && r.value.value == Candidate(adiff[i], isCreated)
                             && forall j :: 0 <= j < i ==> !QualifiesAt(way, adiff, j, isCreated)
  {
    if way.kind != Way then Ok(None)
    else if |way.nds| == 0 then
      ScanFailsOnEmptyWay(way, adiff, isCreated);
      assert Scan(way, adiff, isCreated).Ok? ==> Scan(way, adiff, isCreated) == Ok(None) by {
        ScanWithoutMembers(way, adiff, isCreated);
      }
      Scan(way, adiff, isCreated)
    else
      ScanFindsFirst(way, adiff, isCreated);
      Scan(way, adiff, isCreated)
  }

  /** A way without members is never found inside anything: the scan either
      fails or finds nothing. */
  lemma {:induction false} ScanWithoutMembers(way: Obj, adiff: seq<Action>, isCreated: bool)
    requires |way.nds| == 0
    ensures Scan(way, adiff, isCreated).Ok? ==> Scan(way, adiff, isCreated) == Ok(None)
  {
    if |adiff| > 0 {
      ScanWithoutMembers(way, adiff[1..], isCreated);
    }
  }
}
