/** The header fields and geometry inputs of one output row
    (`init_data_from_object`), without the floating-point parts. */
module Extract {
  import opened Wrappers
  import opened Osm

  /** `s` with every occurrence of `c` replaced by `rep` (`str.replace`). */
  function ReplaceAll(s: string, c: char, rep: string): (r: string)
    ensures c !in rep ==> c !in r
    ensures forall x :: x in r ==> x in s || x in rep
    ensures c !in s ==> r == s
  {
    if |s| == 0 then ""
    else (if s[0] == c then rep else [s[0]]) + ReplaceAll(s[1..], c, rep)
  }

  /** Replacing a character by a single other character is a pointwise map. */
  lemma {:induction false} ReplaceByCharPointwise(s: string, c: char, d: char)
    ensures |ReplaceAll(s, c, [d])| == |s|
    ensures forall i :: 0 <= i < |s| ==> ReplaceAll(s, c, [d])[i] == if s[i] == c then d else s[i]
  {
    if |s| > 0 {
      ReplaceByCharPointwise(s[1..], c, d);
    }
  }

  /** The `ts` column: the ISO `T` separator becomes a space and the `Z` zone
      suffix becomes `+00`, a form a SQL `timestamp with time zone` accepts. */
  function NormalizeTimestamp(ts: string): (r: string)
    ensures 'T' !in r && 'Z' !in r
    ensures forall x :: x in r ==> x in ts || x in " +0"
    ensures 'T' !in ts && 'Z' !in ts ==> r == ts
  {
    ReplaceAll(ReplaceAll(ts, 'T', " "), 'Z', "+00")
  }

  /** The two rewrites themselves: `T` becomes a space and `Z` becomes
      `+00`. With `NormalizeTimestampConcat` this fixes the rewrite of every
      string, one character at a time. */
  lemma NormalizeTimestampLetters()
    ensures NormalizeTimestamp("T") == " "
    ensures NormalizeTimestamp("Z") == "+00"
    ensures forall c :: c != 'T' && c != 'Z' ==> NormalizeTimestamp([c]) == [c]
  {
  }

  /** Normalizing twice is normalizing once. */
  lemma NormalizeTimestampIdempotent(ts: string)
    ensures NormalizeTimestamp(NormalizeTimestamp(ts)) == NormalizeTimestamp(ts)
  {
  }

  /** Replacement distributes over concatenation. */
  lemma {:induction false} ReplaceAllConcat(a: string, b: string, c: char, rep: string)
    ensures ReplaceAll(a + b, c, rep) == ReplaceAll(a, c, rep) + ReplaceAll(b, c, rep)
  {
    if |a| > 0 {
      assert (a + b)[0] == a[0];
      assert (a + b)[1..] == a[1..] + b;
      ReplaceAllConcat(a[1..], b, c, rep);
      var head := if a[0] == c then rep else [a[0]];
      assert ReplaceAll(a + b, c, rep) == head + ReplaceAll(a[1..] + b, c, rep);
      assert ReplaceAll(a, c, rep) == head + ReplaceAll(a[1..], c, rep);
      assert head + (ReplaceAll(a[1..], c, rep) + ReplaceAll(b, c, rep))
          == (head + ReplaceAll(a[1..], c, rep)) + ReplaceAll(b, c, rep);
    } else {
      assert a + b == b;
    }
  }

  /** The rewrite is character-local: it distributes over concatenation. */
  lemma NormalizeTimestampConcat(a: string, b: string)
    ensures NormalizeTimestamp(a + b) == NormalizeTimestamp(a) + NormalizeTimestamp(b)
  {
    ReplaceAllConcat(a, b, 'T', " ");
    ReplaceAllConcat(ReplaceAll(a, 'T', " "), ReplaceAll(b, 'T', " "), 'Z', "+00");
  }

  /** The `osm_id` column: element name, a slash, the id. */
  function OsmId(kind: Kind, id: string): (r: string)
    ensures |r| == |KindName(kind)| + 1 + |id|
    ensures r[..|KindName(kind)|] == KindName(kind)
    ensures r[|KindName(kind)|] == '/'
    ensures r[|KindName(kind)| + 1..] == id
  {
    KindName(kind) + "/" + id
  }

  /** Splits an `osm_id` at its first slash. */
  function SplitOsmId(s: string): (r: Option<(string, string)>)
    ensures r.Some? ==> s == r.value.0 + "/" + r.value.1 && '/' !in r.value.0
    ensures r.None? <==> '/' !in s
  {
    if |s| == 0 then None
    else if s[0] == '/' then Some(("", s[1..]))
    else match SplitOsmId(s[1..])
      case None => None
      case Some((a, b)) => Some(([s[0]] + a, b))
  }

  /** Every element name of the schema maps back to its kind. */
  function KindOf(name: string): Kind
  {
    if name == "node" then Node
    else if name == "way" then Way
    else if name == "relation" then Relation
    else Other(name)
  }

  /** An `osm_id` determines the kind and the id it was built from. */
  lemma {:induction false} OsmIdRoundTrip(kind: Kind, id: string)
    requires WellFormedKind(kind)
    ensures SplitOsmId(OsmId(kind, id)) == Some((KindName(kind), id))
    ensures KindOf(KindName(kind)) == kind
  {
    var s := OsmId(kind, id);
    var name := KindName(kind);
    assert '/' !in name;
    var r := SplitOsmId(s);
    assert r.Some?;
    var a, b := r.value.0, r.value.1;
    assert s == a + "/" + b;
    SplitUnique(name, id, a, b);
  }

  /** Two splits at a slash agree when the first parts have no slash. */
  lemma {:induction false} SplitUnique(a: string, b: string, c: string, d: string)
    requires '/' !in a && '/' !in c
    requires a + "/" + b == c + "/" + d
    ensures a == c && b == d
  {
    var s := a + "/" + b;
    assert s[0] == if |a| > 0 then a[0] else '/';
    assert s[0] == if |c| > 0 then c[0] else '/';
    if |a| == 0 {
      assert |c| == 0;
      assert s[1..] == b;
      assert s[1..] == d;
    } else {
      assert |c| > 0;
      assert s[1..] == a[1..] + "/" + b;
      assert s[1..] == c[1..] + "/" + d;
      SplitUnique(a[1..], b, c[1..], d);
    }
  }

  /** Two objects of well-formed kinds share an `osm_id` only if they share
      kind and id. */
  lemma OsmIdInjective(k1: Kind, id1: string, k2: Kind, id2: string)
    requires WellFormedKind(k1) && WellFormedKind(k2)
    requires OsmId(k1, id1) == OsmId(k2, id2)
    ensures k1 == k2 && id1 == id2
  {
    OsmIdRoundTrip(k1, id1);
    OsmIdRoundTrip(k2, id2);
  }

  /** A node coordinate attribute. */
  function Coord(o: Obj, axis: Axis): Option<string>
  {
    match axis
    case Lat => o.lat
    case Lon => o.lon
  }

  /** `get_float_attr` without the float conversion: the attribute of `obj`
      when present, else that of `backup`. */
  function GetFloatAttr(axis: Axis, obj: Obj, backup: Option<Obj>): (r: Result<string, Fault>)
    ensures Coord(obj, axis).Some? ==> r == Ok(Coord(obj, axis).value)
    ensures Coord(obj, axis).None? && backup.Some? && Coord(backup.value, axis).Some? ==>
              r == Ok(Coord(backup.value, axis).value)
    ensures r.Err? <==> Coord(obj, axis).None? && (backup.None? || Coord(backup.value, axis).None?)
    // `backup.get` on `None` fails first; `float(None)` on a backup without the attribute second.
    ensures Coord(obj, axis).None? && backup.None? ==> r == Err(NoBackup)
    ensures Coord(obj, axis).None? && backup.Some? && Coord(backup.value, axis).None? ==> r == Err(MissingCoordinate(axis))
  {
    if Coord(obj, axis).Some? then Ok(Coord(obj, axis).value)
    else if backup.None? then Err(NoBackup)
    else if Coord(backup.value, axis).None? then Err(MissingCoordinate(axis))
    else Ok(Coord(backup.value, axis).value)
  }

  /** Where a row is placed: a node's own coordinates, or the centre of a
      bounding box (the midpoint arithmetic is not modelled). */
  datatype Position = PointAt(lat: string, lon: string) | BoxCentre(box: Bounds)

  /** The bounds of `obj`, else of `backup`. */
  function GetBounds(obj: Obj, backup: Option<Obj>): (r: Result<Bounds, Fault>)
    ensures obj.bounds.Some? ==> r == Ok(obj.bounds.value)
    ensures r.Ok? ==>
              obj.bounds == Some(r.value) || (obj.bounds.None? && backup.Some? && backup.value.bounds == Some(r.value))
    ensures r.Err? <==> obj.bounds.None? && (backup.None? || backup.value.bounds.None?)
    // `backup.find` on `None` fails first; `bounds.get` on `None` second.
    ensures obj.bounds.None? && backup.None? ==> r == Err(NoBackup)
    ensures obj.bounds.None? && backup.Some? && backup.value.bounds.None? ==> r == Err(MissingBounds)
  {
    if obj.bounds.Some? then Ok(obj.bounds.value)
    else if backup.None? then Err(NoBackup)
    else if backup.value.bounds.None? then Err(MissingBounds)
    else Ok(backup.value.bounds.value)
  }

  function GetPosition(obj: Obj, backup: Option<Obj>): Result<Position, Fault>
  {
    if obj.kind == Node then
      match GetFloatAttr(Lon, obj, backup)
      case Err(e) => Err(e)
      case Ok(lon) =>
        match GetFloatAttr(Lat, obj, backup)
        case Err(e) => Err(e)
        case Ok(lat) => Ok(PointAt(lat, lon))
    else
      match GetBounds(obj, backup)
      case Err(e) => Err(e)
      case Ok(b) => Ok(BoxCentre(b))
  }

  /** The way members the length is measured along: the object's own, or the
      backup's when the object lists none. */
  function WayMembers(obj: Obj, backup: Option<Obj>): (r: Result<seq<Nd>, Fault>)
    ensures |obj.nds| > 0 ==> r == Ok(obj.nds)
    ensures |obj.nds| == 0 && backup.Some? ==> r == Ok(backup.value.nds)
    ensures r.Err? <==> |obj.nds| == 0 && backup.None?
    ensures r.Err? ==> r.error == NoBackup
  {
    if |obj.nds| > 0 then Ok(obj.nds)
    else if backup.None? then Err(NoBackup)
    else Ok(backup.value.nds)
  }

  /** Members enough to measure a length: at least two, each with a truthy
      cached `lat`. */
  predicate Measurable(nodes: seq<Nd>)
  {
    |nodes| >= 2 && forall i :: 0 <= i < |nodes| ==> Truthy(nodes[i].lat)
  }

  /** The shared fields of every row of one object, or the signal that the
      object is dropped (the source's `None`). */
  datatype Extracted =
    | Record(ts: string, changeset: string, uid: string, username: string, osmId: string,
             version: string, position: Position, path: Option<seq<Nd>>)
    | Dropped

  /** `init_data_from_object` for nodes, ways and other non-relation
      elements. Identity fields always come from `obj`; coordinates and way
      members fall back to `backup`. A way without two located members is
      dropped; a missing fallback is an uncaught exception. */
  function InitData(obj: Obj, backup: Option<Obj>): (r: Result<Extracted, Fault>)
    requires obj.kind != Relation
    ensures r.Ok? && r.value.Record? ==>
              && r.value.ts == NormalizeTimestamp(obj.timestamp)
              && r.value.osmId == OsmId(obj.kind, obj.id)
              && r.value.changeset == obj.changeset && r.value.uid == obj.uid
              && r.value.username == obj.user && r.value.version == obj.version
    ensures obj.kind == Node && r.Ok? ==>
              && r.value.Record? && r.value.path.None?
              && GetFloatAttr(Lat, obj, backup).Ok? && GetFloatAttr(Lon, obj, backup).Ok?
              && r.value.position == PointAt(GetFloatAttr(Lat, obj, backup).value, GetFloatAttr(Lon, obj, backup).value)
    ensures obj.kind == Node ==>
              (r.Err? <==> GetFloatAttr(Lon, obj, backup).Err? || GetFloatAttr(Lat, obj, backup).Err?)
    ensures obj.kind != Node && r.Ok? ==> GetBounds(obj, backup).Ok?
    ensures obj.kind != Node && r.Ok? && r.value.Record? ==>
              r.value.position == BoxCentre(GetBounds(obj, backup).value)
    ensures obj.kind != Node && obj.kind != Way ==>
              (r.Err? <==> GetBounds(obj, backup).Err?) && (r.Ok? ==> r.value.Record? && r.value.path.None?)
    ensures obj.kind == Way ==>
              (r.Err? <==> GetBounds(obj, backup).Err? || WayMembers(obj, backup).Err?)
    ensures obj.kind == Way && r.Ok? ==>
              (r.value.Dropped? <==> !Measurable(WayMembers(obj, backup).value))
              && (r.value.Record? ==> r.value.path == Some(WayMembers(obj, backup).value))
  {
    match GetPosition(obj, backup)
    case Err(e) => Err(e)
    case Ok(position) =>
      var path: Result<Option<seq<Nd>>, Fault> :=
        if obj.kind != Way then Ok(None)
        else match WayMembers(obj, backup)
          case Err(e) => Err(e)
          case Ok(nodes) => if Measurable(nodes) then Ok(Some(nodes)) else Ok(None);
      match path
      case Err(e) => Err(e)
      case Ok(p) =>
        if obj.kind == Way && p.None? then Ok(Dropped)
        else Ok(Record(NormalizeTimestamp(obj.timestamp), obj.changeset, obj.uid, obj.user,
                       OsmId(obj.kind, obj.id), obj.version, position, p))
  }
}
