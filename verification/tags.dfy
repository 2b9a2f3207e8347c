/** Per-key change detection on tag lists: the lookup of a tag value, the
    create/modify/delete decision for one key or one exact value, and the
    reduction of several such decisions into one. */
module Tags {
  import opened Wrappers
  import opened Osm

  /** `i` is the position of the first tag whose key is `key`. */
  ghost predicate IsFirstWithKey(tags: seq<Tag>, key: string, i: int)
  {
    && 0 <= i < |tags|
    && tags[i].key == key
    && forall j :: 0 <= j < i ==> tags[j].key != key
  }

  /** The value of the first tag with key `key`, or `None` if there is none. */
  function FirstValue(tags: seq<Tag>, key: string): Option<string>
  {
    if |tags| == 0 then None
    else if tags[0].key == key then tags[0].value
    else FirstValue(tags[1..], key)
  }

  /** The scan returns the value of the first tag carrying the key, and
      nothing when no tag carries it. */
  lemma {:induction false} FirstValueIsFirstMatch(tags: seq<Tag>, key: string)
    ensures (forall i :: 0 <= i < |tags| ==> tags[i].key != key) ==> FirstValue(tags, key) == None
    ensures forall i :: IsFirstWithKey(tags, key, i) ==> FirstValue(tags, key) == tags[i].value
  {
    if |tags| > 0 && tags[0].key != key {
      FirstValueIsFirstMatch(tags[1..], key);
      forall i | IsFirstWithKey(tags, key, i) ensures FirstValue(tags, key) == tags[i].value {
        assert IsFirstWithKey(tags[1..], key, i - 1);
      }
    }
  }

  /** `get_tag_value`: the value of the first tag with this key on the object;
      nothing when the object itself is absent. */
  function GetTagValue(key: string, obj: Option<Obj>): (r: Option<string>)
    ensures obj.None? ==> r == None
  {
    if obj.None? then None else FirstValue(obj.value.tags, key)
  }

  /** `get_tag_value` on a present object is the value of its first tag with
      that key; it is nothing when no tag has that key. */
  lemma GetTagValueFirstMatch(key: string, obj: Obj, i: int)
    requires IsFirstWithKey(obj.tags, key, i)
    ensures GetTagValue(key, Some(obj)) == obj.tags[i].value
  {
    FirstValueIsFirstMatch(obj.tags, key);
  }

  lemma GetTagValueNoMatch(key: string, obj: Obj)
    requires forall i :: 0 <= i < |obj.tags| ==> obj.tags[i].key != key
    ensures GetTagValue(key, Some(obj)) == None
  {
    FirstValueIsFirstMatch(obj.tags, key);
  }

  /** Two objects (either possibly absent) whose tag lists agree. */
  predicate SameTags(a: Option<Obj>, b: Option<Obj>)
  {
    (a.None? && b.None?) || (a.Some? && b.Some? && a.value.tags == b.value.tags)
  }

  /** `get_tag_action`: how the value under `key` changed from `prev` (the old snapshot) to `obj`.
      Equal values (both absent included) give `None`; otherwise a falsy new
      value is a deletion, a truthy one a creation or a modification depending
      on whether the old value was truthy. */
  function GetTagAction(key: string, obj: Option<Obj>, prev: Option<Obj>): (r: Option<Change>)
    ensures r == None <==> GetTagValue(key, obj) == GetTagValue(key, prev)
    ensures r == Some(Delete) <==>
              GetTagValue(key, obj) != GetTagValue(key, prev) && !Truthy(GetTagValue(key, obj))
    ensures r == Some(Create) <==>
              Truthy(GetTagValue(key, obj)) && !Truthy(GetTagValue(key, prev))
    ensures r == Some(Modify) <==>
              GetTagValue(key, obj) != GetTagValue(key, prev)
              && Truthy(GetTagValue(key, obj)) && Truthy(GetTagValue(key, prev))
    ensures SameTags(obj, prev) ==> r == None
  {
    var newValue := GetTagValue(key, obj);
    var oldValue := GetTagValue(key, prev);
    if newValue == oldValue then None
    else if Truthy(newValue) then (if !Truthy(oldValue) then Some(Create) else Some(Modify))
    else Some(Delete)
  }

  /** Swapping the two snapshots turns a creation into a deletion and keeps a
      modification a modification; a deletion turns into a creation exactly
      when the value that disappeared was truthy. */
  lemma TagActionReversed(key: string, a: Option<Obj>, b: Option<Obj>)
    ensures GetTagAction(key, a, b) == None <==> GetTagAction(key, b, a) == None
    ensures GetTagAction(key, a, b) == Some(Create) ==> GetTagAction(key, b, a) == Some(Delete)
    ensures GetTagAction(key, a, b) == Some(Modify) <==> GetTagAction(key, b, a) == Some(Modify)
    ensures GetTagAction(key, a, b) == Some(Delete) ==>
              GetTagAction(key, b, a) == (if Truthy(GetTagValue(key, b)) then Some(Create) else Some(Delete))
  {
  }

  /** The object holds the exact value `v` under `key` (its first such tag). */
  predicate HasValue(key: string, v: string, obj: Option<Obj>)
  {
    GetTagValue(key, obj) == Some(v)
  }

  /** `is_new_tag_action`: did "`key` = `v`" become true (`Create`), stop
      being true (`Delete`), or neither? Never `Modify`. */
  function IsNewTagAction(key: string, v: string, obj: Option<Obj>, prev: Option<Obj>): (r: Option<Change>)
    ensures r != Some(Modify)
    ensures r == Some(Create) <==> HasValue(key, v, obj) && !HasValue(key, v, prev)
    ensures r == Some(Delete) <==> !HasValue(key, v, obj) && HasValue(key, v, prev)
    ensures r == None <==> (HasValue(key, v, obj) <==> HasValue(key, v, prev))
    ensures SameTags(obj, prev) ==> r == None
  {
    var hasNew := GetTagValue(key, obj) == Some(v);
    var hasOld := GetTagValue(key, prev) == Some(v);
    if hasNew == hasOld then None
    else if !hasOld then Some(Create)
    else Some(Delete)
  }

  /** Swapping the snapshots swaps creation and deletion of an exact value. */
  lemma ValueActionReversed(key: string, v: string, a: Option<Obj>, b: Option<Obj>)
    ensures IsNewTagAction(key, v, a, b) == Some(Create) <==> IsNewTagAction(key, v, b, a) == Some(Delete)
    ensures IsNewTagAction(key, v, a, b) == None <==> IsNewTagAction(key, v, b, a) == None
  {
  }

  /** The distinct non-null actions among the arguments. */
  function NonNull(args: seq<Option<Change>>): set<Change>
  {
    set i | 0 <= i < |args| && args[i].Some? :: args[i].value
  }

  lemma SingletonMember(s: set<Change>)
    requires |s| == 1
    ensures Create in s || Modify in s || Delete in s
  {
    var x :| x in s;
    match x
    case Create =>
    case Modify =>
    case Delete =>
  }

  /** A one-element set has no two different members. */
  lemma SingletonUnique(s: set<Change>, a: Change, b: Change)
    requires |s| == 1 && a in s && b in s
    ensures a == b
  {
    var x :| x in s;
    assert |s - {x}| == 0;
    assert a !in s - {x} && b !in s - {x};
  }

  /** `reduce_tag_actions`: `None` when every argument is `None`, the one
      action when all non-null arguments agree, `Modify` otherwise. */
  function ReduceTagActions(args: seq<Option<Change>>): (r: Option<Change>)
    ensures r == None <==> forall i :: 0 <= i < |args| ==> args[i] == None
    ensures r.Some? ==> r == Some(Modify) || exists i :: 0 <= i < |args| && args[i] == r
  {
    var actions := NonNull(args);
    if |actions| == 0 then
      assert forall i :: 0 <= i < |args| && args[i].Some? ==> args[i].value in actions;
      None
    else if |actions| == 1 then
      SingletonMember(actions);
      var a := if Create in actions then Create else if Modify in actions then Modify else Delete;
      assert a in actions;
      Some(a)
    else
      Some(Modify)
  }

  /** When some argument is non-null and every non-null argument is `a`,
      the reduction is `a`. */
  lemma {:induction false} ReduceAgreeing(args: seq<Option<Change>>, a: Change)
    requires exists i :: 0 <= i < |args| && args[i] == Some(a)
    requires forall i :: 0 <= i < |args| && args[i].Some? ==> args[i] == Some(a)
    ensures ReduceTagActions(args) == Some(a)
  {
    var k :| 0 <= k < |args| && args[k] == Some(a);
    assert a in NonNull(args);
    assert NonNull(args) == {a};
  }

  /** Two different non-null actions among the arguments reduce to `Modify`. */
  lemma {:induction false} ReduceDisagreeing(args: seq<Option<Change>>, i: int, j: int)
    requires 0 <= i < |args| && 0 <= j < |args|
    requires args[i].Some? && args[j].Some? && args[i] != args[j]
    ensures ReduceTagActions(args) == Some(Modify)
  {
    var s := NonNull(args);
    assert args[i].value in s && args[j].value in s;
    if |s| == 1 {
      SingletonUnique(s, args[i].value, args[j].value);
    }
  }

  /** The reduction depends only on which actions occur, not on their order
      or multiplicity: any permutation of the arguments gives the same result. */
  lemma {:induction false} ReducePermutation(args: seq<Option<Change>>, perm: seq<Option<Change>>)
    requires multiset(args) == multiset(perm)
    ensures ReduceTagActions(args) == ReduceTagActions(perm)
  {
    forall x | x in NonNull(args) ensures x in NonNull(perm) {
      var i :| 0 <= i < |args| && args[i] == Some(x);
      assert Some(x) in multiset(args);
      assert Some(x) in perm;
      var j :| 0 <= j < |perm| && perm[j] == Some(x);
    }
    forall x | x in NonNull(perm) ensures x in NonNull(args) {
      var j :| 0 <= j < |perm| && perm[j] == Some(x);
      assert Some(x) in multiset(perm);
      assert Some(x) in args;
      var i :| 0 <= i < |args| && args[i] == Some(x);
    }
    assert NonNull(args) == NonNull(perm);
  }

  /** An object carrying just the given tags; the other fields are irrelevant here. */
  function Tagged(tags: seq<Tag>): Obj
  {
    Obj(Node, "1", "1", "1", "1", "u", "t", None, None, tags, [], None)
  }

  /** The five cases of the per-key truth table, plus the empty-string case
      where Python truthiness makes an appearing empty value a deletion. */
  lemma TagActionTruthTable()
    ensures GetTagAction("k", None, None) == None
    ensures GetTagAction("k", Some(Tagged([Tag("k", Some("x"))])), None) == Some(Create)
    ensures GetTagAction("k", None, Some(Tagged([Tag("k", Some("x"))]))) == Some(Delete)
    ensures GetTagAction("k", Some(Tagged([Tag("k", Some("x"))])), Some(Tagged([Tag("k", Some("x"))]))) == None
    ensures GetTagAction("k", Some(Tagged([Tag("k", Some("x"))])), Some(Tagged([Tag("k", Some("y"))]))) == Some(Modify)
    ensures GetTagAction("k", Some(Tagged([Tag("k", Some(""))])), Some(Tagged([]))) == Some(Delete)
  {
    assert Truthy(Some("x"));
    assert Some("x") != Some("y");
    assert Some("") != None;
  }
}
