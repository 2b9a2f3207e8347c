/** Classification of one object's tag change into road-change categories
    (`get_kinds`). */
module Kinds {
  import opened Wrappers
  import opened Osm
  import opened Tags

  /** The categories, declared in the order the rules are tried. */
  datatype Category = TrafficCalming | Crossing | CrossingIsland | Stop | Maxspeed | Lanes | Lit
  {
    /** The category name written to the `kind` column. */
    function Name(): string
    {
      match this
      case TrafficCalming => "traffic_calming"
      case Crossing => "crossing"
      case CrossingIsland => "crossing_island"
      case Stop => "stop"
      case Maxspeed => "maxspeed"
      case Lanes => "lanes"
      case Lit => "lit"
    }

    /** Position of the category's rule among all rules. */
    function Rank(): nat
    {
      match this
      case TrafficCalming => 0
      case Crossing => 1
      case CrossingIsland => 2
      case Stop => 3
      case Maxspeed => 4
      case Lanes => 5
      case Lit => 6
    }

    predicate ForNodes()
    {
      this in {TrafficCalming, Crossing, CrossingIsland, Stop}
    }

    predicate ForWays()
    {
      this in {Maxspeed, Lanes, Lit}
    }
  }

  /** A fired category with the kind of change it records. */
  type Fired = (Category, Change)

  /** Categories strictly increase in rule order along the list. */
  predicate InRuleOrder<T>(r: seq<(Category, T)>)
  {
    forall i, j :: 0 <= i < j < |r| ==> r[i].0.Rank() < r[j].0.Rank()
  }

  /** `[r for r in result if r[1]]`: keep the pairs whose action is not null,
      in their original order. */
  function KeepFired(raw: seq<(Category, Option<Change>)>): (r: seq<Fired>)
    ensures |r| <= |raw|
    ensures forall i :: 0 <= i < |r| ==> (r[i].0, Some(r[i].1)) in raw
    ensures forall p :: p in raw && p.1.Some? ==> (p.0, p.1.value) in r
  {
    if |raw| == 0 then []
    else if raw[0].1.Some? then [(raw[0].0, raw[0].1.value)] + KeepFired(raw[1..])
    else KeepFired(raw[1..])
  }

  /** Dropping null actions keeps the rule order. */
  lemma {:induction false} KeepFiredInOrder(raw: seq<(Category, Option<Change>)>)
    requires InRuleOrder(raw)
    ensures InRuleOrder(KeepFired(raw))
  {
    if |raw| > 0 {
      var tail := raw[1..];
      assert InRuleOrder(tail) by {
        forall i, j | 0 <= i < j < |tail| ensures tail[i].0.Rank() < tail[j].0.Rank() {
          assert tail[i] == raw[i + 1] && tail[j] == raw[j + 1];
        }
      }
      KeepFiredInOrder(tail);
      if raw[0].1.Some? {
        KeptAfterHead(raw);
        ConsInOrder((raw[0].0, raw[0].1.value), KeepFired(tail));
      }
    }
  }

  /** What is kept from the tail ranks after the head. */
  lemma KeptAfterHead(raw: seq<(Category, Option<Change>)>)
    requires |raw| > 0 && InRuleOrder(raw)
    ensures forall i :: 0 <= i < |KeepFired(raw[1..])| ==> raw[0].0.Rank() < KeepFired(raw[1..])[i].0.Rank()
  {
    var tail := raw[1..];
    var rest := KeepFired(tail);
    forall i | 0 <= i < |rest| ensures raw[0].0.Rank() < rest[i].0.Rank() {
      var k :| 0 <= k < |tail| && tail[k] == (rest[i].0, Some(rest[i].1));
      assert tail[k] == raw[k + 1];
    }
  }

  lemma ConsInOrder(head: Fired, rest: seq<Fired>)
    requires InRuleOrder(rest)
    requires forall i :: 0 <= i < |rest| ==> head.0.Rank() < rest[i].0.Rank()
    ensures InRuleOrder([head] + rest)
  {
    var r := [head] + rest;
    forall i, j | 0 <= i < j < |r| ensures r[i].0.Rank() < r[j].0.Rank() {
      assert r[j] == rest[j - 1];
      if i > 0 {
        assert r[i] == rest[i - 1];
      }
    }
  }

  /** Independent description of one category: the action it fires with for
      this (new, old) pair of snapshots, or `None` if it does not fire. */
  function CategoryAction(c: Category, obj: Obj, prev: Option<Obj>): Option<Change>
  {
    var o := Some(obj);
    if obj.kind == Node then
      match c
      case TrafficCalming => GetTagAction("traffic_calming", o, prev)
      case Crossing => IsNewTagAction("highway", "crossing", o, prev)
      case CrossingIsland =>
        if IsNewTagAction("highway", "crossing", o, prev).Some? then None
        else GetTagAction("crossing:island", o, prev)
      case Stop => IsNewTagAction("highway", "bus_stop", o, prev)
      case _ => None
    else if obj.kind == Way then
      match c
      case Maxspeed =>
        ReduceTagActions([GetTagAction("maxspeed", o, prev), GetTagAction("maxspeed:backward", o, prev),
                          GetTagAction("maxspeed:forward", o, prev)])
      case Lanes =>
        ReduceTagActions([GetTagAction("lanes", o, prev), GetTagAction("lanes:backward", o, prev),
                          GetTagAction("lanes:forward", o, prev)])
      case Lit => GetTagAction("lit", o, prev)
      case _ => None
    else None
  }

  /** The rule list of `get_kinds`, before null actions are dropped. */
  function Rules(obj: Obj, prev: Option<Obj>): seq<(Category, Option<Change>)>
  {
    var o := Some(obj);
    if obj.kind == Node then
      var ta := IsNewTagAction("highway", "crossing", o, prev);
      [(TrafficCalming, GetTagAction("traffic_calming", o, prev))]
      + (if ta.Some? then [(Crossing, ta)] else [(CrossingIsland, GetTagAction("crossing:island", o, prev))])
      + [(Stop, IsNewTagAction("highway", "bus_stop", o, prev))]
    else if obj.kind == Way then
      [(Maxspeed, ReduceTagActions([GetTagAction("maxspeed", o, prev),
                                    GetTagAction("maxspeed:backward", o, prev),
                                    GetTagAction("maxspeed:forward", o, prev)])),
       (Lanes, ReduceTagActions([GetTagAction("lanes", o, prev),
                                 GetTagAction("lanes:backward", o, prev),
                                 GetTagAction("lanes:forward", o, prev)])),
       (Lit, GetTagAction("lit", o, prev))]
    else []
  }

  /** On a node, each rule's pair is its category with that category's
      action, and every category that fires has a rule. */
  lemma NodeRulesDescribeCategories(obj: Obj, prev: Option<Obj>)
    requires obj.kind == Node
    ensures forall p :: p in Rules(obj, prev) ==> p.1 == CategoryAction(p.0, obj, prev)
    ensures forall c :: CategoryAction(c, obj, prev).Some? ==> (c, CategoryAction(c, obj, prev)) in Rules(obj, prev)
    ensures InRuleOrder(Rules(obj, prev))
    ensures |Rules(obj, prev)| == 3
    ensures forall p :: p in Rules(obj, prev) ==> p.0.ForNodes()
  {
    var o := Some(obj);
    var ta := IsNewTagAction("highway", "crossing", o, prev);
    var raw := Rules(obj, prev);
    if ta.Some? {
      assert raw == [(TrafficCalming, GetTagAction("traffic_calming", o, prev)), (Crossing, ta),
                     (Stop, IsNewTagAction("highway", "bus_stop", o, prev))];
    } else {
      assert raw == [(TrafficCalming, GetTagAction("traffic_calming", o, prev)),
                     (CrossingIsland, GetTagAction("crossing:island", o, prev)),
                     (Stop, IsNewTagAction("highway", "bus_stop", o, prev))];
    }
  }

  /** On a way, each rule's pair is its category with that category's
      action, and every category that fires has a rule. */
  lemma WayRulesDescribeCategories(obj: Obj, prev: Option<Obj>)
    requires obj.kind == Way
    ensures forall p :: p in Rules(obj, prev) ==> p.1 == CategoryAction(p.0, obj, prev)
    ensures forall c :: CategoryAction(c, obj, prev).Some? ==> (c, CategoryAction(c, obj, prev)) in Rules(obj, prev)
    ensures InRuleOrder(Rules(obj, prev))
    ensures |Rules(obj, prev)| == 3
    ensures forall p :: p in Rules(obj, prev) ==> p.0.ForWays()
  {
    var raw := Rules(obj, prev);
    assert raw == [(Maxspeed, CategoryAction(Maxspeed, obj, prev)), (Lanes, CategoryAction(Lanes, obj, prev)),
                   (Lit, CategoryAction(Lit, obj, prev))];
    forall c | CategoryAction(c, obj, prev).Some? ensures (c, CategoryAction(c, obj, prev)) in raw {
      match c
      case Maxspeed => assert raw[0] == (c, CategoryAction(c, obj, prev));
      case Lanes => assert raw[1] == (c, CategoryAction(c, obj, prev));
      case Lit => assert raw[2] == (c, CategoryAction(c, obj, prev));
      case _ =>
    }
  }

  /** Each rule's pair is its category with that category's action, every
      category that fires has a rule, and the rules are in rule order. */
  lemma RulesDescribeCategories(obj: Obj, prev: Option<Obj>)
    ensures forall p :: p in Rules(obj, prev) ==> p.1 == CategoryAction(p.0, obj, prev)
    ensures forall c :: CategoryAction(c, obj, prev).Some? ==> (c, CategoryAction(c, obj, prev)) in Rules(obj, prev)
    ensures InRuleOrder(Rules(obj, prev))
    ensures |Rules(obj, prev)| <= 3
    ensures obj.kind == Node ==> forall p :: p in Rules(obj, prev) ==> p.0.ForNodes()
    ensures obj.kind == Way ==> forall p :: p in Rules(obj, prev) ==> p.0.ForWays()
    ensures obj.kind != Node && obj.kind != Way ==> Rules(obj, prev) == []
  {
    if obj.kind == Node {
      NodeRulesDescribeCategories(obj, prev);
    } else if obj.kind == Way {
      WayRulesDescribeCategories(obj, prev);
    }
  }

  /** `get_kinds`: the categories whose change fired between `prev` and `obj`,
      each with its action, in rule order. A category is in the result exactly
      when `CategoryAction` says it fires, and then with that action. */
  function GetKinds(obj: Obj, prev: Option<Obj>): (r: seq<Fired>)
    ensures forall i :: 0 <= i < |r| ==> CategoryAction(r[i].0, obj, prev) == Some(r[i].1)
    ensures forall c :: CategoryAction(c, obj, prev).Some? ==> (c, CategoryAction(c, obj, prev).value) in r
    ensures r == [] <==> forall c :: CategoryAction(c, obj, prev).None?
    ensures InRuleOrder(r)
    ensures |r| <= 3
    ensures obj.kind == Node ==> forall i :: 0 <= i < |r| ==> r[i].0.ForNodes()
    ensures obj.kind == Way ==> forall i :: 0 <= i < |r| ==> r[i].0.ForWays()
    ensures obj.kind != Node && obj.kind != Way ==> r == []
  {
    var raw := Rules(obj, prev);
    RulesDescribeCategories(obj, prev);
    KeepFiredInOrder(raw);
    var r := KeepFired(raw);
    assert |r| > 0 ==> CategoryAction(r[0].0, obj, prev).Some?;
    r
  }

  /** A node never fires both `crossing` and `crossing_island`: the island
      rule is only the fallback of the crossing rule. */
  lemma CrossingExcludesIsland(obj: Obj, prev: Option<Obj>, i: int, j: int)
    requires 0 <= i < |GetKinds(obj, prev)| && 0 <= j < |GetKinds(obj, prev)|
    requires GetKinds(obj, prev)[i].0 == Crossing
    ensures GetKinds(obj, prev)[j].0 != CrossingIsland
  {
  }

  /** Snapshots with identical tag lists (in particular an object compared
      with itself) fire no category. */
  lemma NoKindsWithoutTagChange(obj: Obj, prev: Obj)
    requires obj.tags == prev.tags
    ensures GetKinds(obj, Some(prev)) == []
  {
    var r := GetKinds(obj, Some(prev));
    forall c ensures CategoryAction(c, obj, Some(prev)) == None {
      var o, p := Some(obj), Some(prev);
      var none: Option<Change> := None;
      assert [GetTagAction("maxspeed", o, p), GetTagAction("maxspeed:backward", o, p),
              GetTagAction("maxspeed:forward", o, p)] == [none, none, none];
      assert [GetTagAction("lanes", o, p), GetTagAction("lanes:backward", o, p),
              GetTagAction("lanes:forward", o, p)] == [none, none, none];
    }
  }

  /** A speed limit split into directions: `maxspeed=50` is replaced by
      `maxspeed:forward=60` and `maxspeed:backward=50`. The three keys give a
      deletion and two creations, which reduce to one `maxspeed` modification. */
  lemma MaxspeedSplitIsModify()
    ensures GetKinds(
              Obj(Way, "1", "2", "1", "1", "u", "t", None, None,
                  [Tag("maxspeed:forward", Some("60")), Tag("maxspeed:backward", Some("50"))], [], None),
              Some(Obj(Way, "1", "1", "1", "1", "u", "t", None, None, [Tag("maxspeed", Some("50"))], [], None)))
            == [(Maxspeed, Modify)]
  {
    var o := Obj(Way, "1", "2", "1", "1", "u", "t", None, None,
                 [Tag("maxspeed:forward", Some("60")), Tag("maxspeed:backward", Some("50"))], [], None);
    var p := Some(Obj(Way, "1", "1", "1", "1", "u", "t", None, None, [Tag("maxspeed", Some("50"))], [], None));
    assert "maxspeed" != "maxspeed:forward" && "maxspeed" != "maxspeed:backward";
    assert "maxspeed:backward" != "maxspeed:forward";
    assert "lanes" != "maxspeed" && "lanes:backward" != "maxspeed" && "lanes:forward" != "maxspeed";
    assert "lanes" != "maxspeed:forward" && "lanes:backward" != "maxspeed:forward" && "lanes:forward" != "maxspeed:forward";
    assert "lanes" != "maxspeed:backward" && "lanes:backward" != "maxspeed:backward" && "lanes:forward" != "maxspeed:backward";
    assert "lit" != "maxspeed" && "lit" != "maxspeed:forward" && "lit" != "maxspeed:backward";
    var args := [GetTagAction("maxspeed", Some(o), p), GetTagAction("maxspeed:backward", Some(o), p),
                 GetTagAction("maxspeed:forward", Some(o), p)];
    assert args == [Some(Delete), Some(Create), Some(Create)];
    ReduceDisagreeing(args, 0, 1);
    var none: Option<Change> := None;
    assert GetTagAction("lanes", Some(o), p) == None;
    assert GetTagAction("lanes:backward", Some(o), p) == None;
    assert GetTagAction("lanes:forward", Some(o), p) == None;
    assert ReduceTagActions([none, none, none]) == None;
    assert GetTagAction("lit", Some(o), p) == None;
    var raw := [(Maxspeed, Some(Modify)), (Lanes, none), (Lit, none)];
    assert Rules(o, p) == raw;
    assert KeepFired(raw[2..]) == [];
    assert KeepFired(raw[1..]) == [];
  }
}
