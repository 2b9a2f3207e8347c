/** The parsed augmented diff: object snapshots, their tags and way members,
    and the create/modify/delete actions that carry them, in document order. */
module Osm {
  import opened Wrappers

  /** The element name of an object snapshot (`obj.tag` in lxml terms). */
  datatype Kind = Node | Way | Relation | Other(name: string)

  /** `Other` stands for any element name besides the three above, so
      `Other("node")` and the like are not meaningful kinds. An element name
      also never contains a slash. */
  predicate WellFormedKind(k: Kind)
  {
    k.Other? ==> '/' !in k.name && k.name !in {"node", "way", "relation"}
  }

  /** The element name as it is written in the document. */
  function KindName(k: Kind): string
  {
    match k
    case Node => "node"
    case Way => "way"
    case Relation => "relation"
    case Other(n) => n
  }

  /** A `<tag k=... v=...>` child; the `v` attribute may be missing. */
  datatype Tag = Tag(key: string, value: Option<string>)

  /** An `<nd>` way member: a node reference and optionally cached coordinates. */
  datatype Nd = Nd(ref: Option<string>, lat: Option<string>, lon: Option<string>)

  /** A `<bounds>` element, attributes kept as written. */
  datatype Bounds = Bounds(minlat: string, minlon: string, maxlat: string, maxlon: string)

  /** One object snapshot. `lat`/`lon` are the node attributes, which the
      server may omit on an `old` snapshot. */
  datatype Obj = Obj(
    kind: Kind,
    id: string,
    version: string,
    changeset: string,
    uid: string,
    user: string,
    timestamp: string,
    lat: Option<string>,
    lon: Option<string>,
    tags: seq<Tag>,
    nds: seq<Nd>,
    bounds: Option<Bounds>)

  /** The three kinds of change; used both for a whole action and for one tag. */
  datatype Change = Create | Modify | Delete

  /** One `<action>`: a created object, or an old and a new snapshot. */
  datatype Action =
    | CreateAction(obj: Obj)
    | ModifyAction(oldSnap: Obj, newSnap: Obj)
    | DeleteAction(oldSnap: Obj, newSnap: Obj)
  {
    /** The action's `type` attribute. */
    function Type(): Change
    {
      match this
      case CreateAction(_) => Create
      case ModifyAction(_, _) => Modify
      case DeleteAction(_, _) => Delete
    }
  }

  /** Which coordinate attribute of a node. */
  datatype Axis = Lat | Lon

  /** The uncaught exceptions that abort a run. */
  datatype Fault =
    /** `nodes[0]` on a way snapshot without `<nd>` members (IndexError). */
    | EmptyMemberList
    /** A lookup on the backup snapshot when there is none (AttributeError on `None`). */
    | NoBackup
    /** A node coordinate missing on both snapshots (`float(None)`, TypeError). */
    | MissingCoordinate(axis: Axis)
    /** No `<bounds>` on either snapshot (`None.get`, AttributeError). */
    | MissingBounds
    /** Item assignment on the `None` returned for a dropped object (TypeError). */
    | DroppedRecordUsed

  /** Python truthiness of an optional string: present and non-empty. */
  predicate Truthy(v: Option<string>)
  {
    v.Some? && |v.value| > 0
  }
}
