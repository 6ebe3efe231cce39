/** Decoded JSON as the gateway holds it: maps and slices are objects with an identity, so an
    assignment through one reference is seen through every other one. */
module JsonTree {

  import Iteration

  /** A JSON text's meaning. */
  datatype Json =
    | Null
    | Bool(truth: bool)
    | Number(digits: string)
    | Text(text: string)
    | Object(members: map<string, Json>)
    | Array(items: seq<Json>)

  /** What a variable of type `any` holds. */
  datatype Value = Scalar(json: Json) | ObjectRef(obj: JsonObject) | ArrayRef(arr: JsonArray)

  /** A step from a node of a document to one below it. */
  datatype Step = Key(name: string) | Index(at: nat)

  type Path = seq<Step>

  /** Nodes of one document sit at different places, so they are different objects. */
  class JsonObject {
    ghost const path: Path
    var members: map<string, Value>

    constructor (ghost path: Path, members: map<string, Value>)
      ensures this.path == path && this.members == members
    {
      this.path := path;
      this.members := members;
    }
  }

  class JsonArray {
    ghost const path: Path
    var items: seq<Value>

    constructor (ghost path: Path, items: seq<Value>)
      ensures this.path == path && this.items == items
    {
      this.path := path;
      this.items := items;
    }
  }

  /** v is the document j at this path, made of these nodes and no others. */
  ghost predicate Represents(v: Value, j: Json, path: Path, nodes: set<object>)
    reads nodes
    decreases j
  {
    match j
    case Object(members) =>
      && v.ObjectRef? && v.obj in nodes && v.obj.path == path
      && v.obj.members.Keys == members.Keys
      && forall k | k in members :: Represents(v.obj.members[k], members[k], path + [Key(k)], nodes)
    case Array(items) =>
      && v.ArrayRef? && v.arr in nodes && v.arr.path == path
      && |v.arr.items| == |items|
      && forall i | 0 <= i < |items| :: Represents(v.arr.items[i], items[i], path + [Index(i)], nodes)
    case _ => v == Scalar(j)
  }

  lemma {:induction false} MoreNodes(v: Value, j: Json, path: Path, nodes: set<object>, more: set<object>)
    requires Represents(v, j, path, nodes) && nodes <= more
    ensures Represents(v, j, path, more)
    decreases j
  {
    match j {
      case Object(members) =>
        forall k | k in members
          ensures Represents(v.obj.members[k], members[k], path + [Key(k)], more)
        {
          MoreNodes(v.obj.members[k], members[k], path + [Key(k)], nodes, more);
        }
      case Array(items) =>
        forall i | 0 <= i < |items|
          ensures Represents(v.arr.items[i], items[i], path + [Index(i)], more)
        {
          MoreNodes(v.arr.items[i], items[i], path + [Index(i)], nodes, more);
        }
      case _ =>
    }
  }

  /** A document does not need a node it does not lie on the way to, so changing that node
      leaves the document alone. */
  lemma {:induction false} OffTheWay(v: Value, j: Json, path: Path, nodes: set<object>, other: JsonObject)
    requires Represents(v, j, path, nodes) && !(path <= other.path)
    ensures Represents(v, j, path, nodes - {other})
    decreases j
  {
    match j {
      case Object(members) =>
        forall k | k in members
          ensures Represents(v.obj.members[k], members[k], path + [Key(k)], nodes - {other})
        {
          OffTheWay(v.obj.members[k], members[k], path + [Key(k)], nodes, other);
        }
      case Array(items) =>
        forall i | 0 <= i < |items|
          ensures Represents(v.arr.items[i], items[i], path + [Index(i)], nodes - {other})
        {
          OffTheWay(v.arr.items[i], items[i], path + [Index(i)], nodes, other);
        }
      case _ =>
    }
  }

  /** The members (items) taken from a document so far, each represented in its place. */
  ghost predicate Members(taken: map<string, Value>, all: map<string, Json>, path: Path, nodes: set<object>)
    reads nodes
  {
    && taken.Keys <= all.Keys
    && forall k | k in taken :: Represents(taken[k], all[k], path + [Key(k)], nodes)
  }

  ghost predicate Items(taken: seq<Value>, all: seq<Json>, path: Path, nodes: set<object>)
    reads nodes
  {
    && |taken| <= |all|
    && forall i | 0 <= i < |taken| :: Represents(taken[i], all[i], path + [Index(i)], nodes)
  }

  lemma AddMember(
      taken: map<string, Value>, all: map<string, Json>, path: Path, nodes: set<object>,
      key: string, v: Value, own: set<object>)
    requires Members(taken, all, path, nodes) && key in all && Represents(v, all[key], path + [Key(key)], own)
    ensures Members(taken[key := v], all, path, nodes + own)
  {
    var more := taken[key := v];
    forall k | k in more
      ensures Represents(more[k], all[k], path + [Key(k)], nodes + own)
    {
      if k == key {
        MoreNodes(v, all[k], path + [Key(k)], own, nodes + own);
      } else {
        MoreNodes(taken[k], all[k], path + [Key(k)], nodes, nodes + own);
      }
    }
  }

  lemma AddItem(
      taken: seq<Value>, all: seq<Json>, path: Path, nodes: set<object>, v: Value, own: set<object>)
    requires Items(taken, all, path, nodes) && |taken| < |all|
    requires Represents(v, all[|taken|], path + [Index(|taken|)], own)
    ensures Items(taken + [v], all, path, nodes + own)
  {
    var more := taken + [v];
    forall i | 0 <= i < |more|
      ensures Represents(more[i], all[i], path + [Index(i)], nodes + own)
    {
      if i == |taken| {
        MoreNodes(v, all[i], path + [Index(i)], own, nodes + own);
      } else {
        MoreNodes(taken[i], all[i], path + [Index(i)], nodes, nodes + own);
      }
    }
  }

  lemma WrapMembers(obj: JsonObject, j: Json, nodes: set<object>)
    requires j.Object? && Members(obj.members, j.members, obj.path, nodes) && obj.members.Keys == j.members.Keys
    ensures Represents(ObjectRef(obj), j, obj.path, nodes + {obj})
  {
    forall k | k in obj.members
      ensures Represents(obj.members[k], j.members[k], obj.path + [Key(k)], nodes + {obj})
    {
      MoreNodes(obj.members[k], j.members[k], obj.path + [Key(k)], nodes, nodes + {obj});
    }
  }

  lemma WrapItems(arr: JsonArray, j: Json, nodes: set<object>)
    requires j.Array? && Items(arr.items, j.items, arr.path, nodes) && |arr.items| == |j.items|
    ensures Represents(ArrayRef(arr), j, arr.path, nodes + {arr})
  {
    forall i | 0 <= i < |arr.items|
      ensures Represents(arr.items[i], j.items[i], arr.path + [Index(i)], nodes + {arr})
    {
      MoreNodes(arr.items[i], j.items[i], arr.path + [Index(i)], nodes, nodes + {arr});
    }
  }

  /** `cloneJSONValue`: the same document on nodes of its own; nothing it was cloned from is
      among them, and none of that is changed. */
  method Clone(v: Value, ghost j: Json, ghost path: Path, ghost nodes: set<object>)
    returns (copy: Value, ghost made: set<object>)
    requires Represents(v, j, path, nodes)
    ensures Represents(copy, j, path, made) && fresh(made)
    decreases j, 1, 0
  {
    match v {
      case ObjectRef(obj) => copy, made := CloneObject(obj, j, path, nodes);
      case ArrayRef(arr) => copy, made := CloneArray(arr, j, path, nodes);
      case Scalar(_) => copy, made := v, {};
    }
  }

  method CloneObject(obj: JsonObject, ghost j: Json, ghost path: Path, ghost nodes: set<object>)
    returns (copy: Value, ghost made: set<object>)
    requires Represents(ObjectRef(obj), j, path, nodes)
    ensures Represents(copy, j, path, made) && fresh(made)
    decreases j, 0, 1
  {
    assert Members(obj.members, j.members, path, nodes);
    assert obj.members.Keys == j.members.Keys;
    hide Represents, Members;
    var members, own := CloneMembers(obj.members, j, path, nodes);
    var copyMap := new JsonObject(path, members);
    WrapMembers(copyMap, j, own);
    made := own + {copyMap};
    copy := ObjectRef(copyMap);
  }

  method CloneMembers(source: map<string, Value>, ghost j: Json, ghost path: Path, ghost nodes: set<object>)
    returns (members: map<string, Value>, ghost made: set<object>)
    requires j.Object? && Members(source, j.members, path, nodes)
    ensures members.Keys == source.Keys
    ensures Members(members, j.members, path, made) && fresh(made)
    decreases j, 0, 0
  {
    hide Represents, Members;
    members := map[];
    var left := source.Keys;
    made := {};
    NoMembers(j.members, path);
    while left != {}
      invariant left <= source.Keys && members.Keys == source.Keys - left
      invariant fresh(made) && Members(members, j.members, path, made)
      decreases |left|
    {
      var key := Iteration.AnyOf(left);
      left := left - {key};
      MemberOf(source, j.members, path, nodes, key);
      var nested, own := Clone(source[key], j.members[key], path + [Key(key)], nodes);
      AddMember(members, j.members, path, made, key, nested, own);
      made := made + own;
      members := members[key := nested];
    }
  }

  lemma NoMembers(all: map<string, Json>, path: Path)
    ensures Members(map[], all, path, {})
  {
  }

  lemma MemberOf(taken: map<string, Value>, all: map<string, Json>, path: Path, nodes: set<object>, key: string)
    requires Members(taken, all, path, nodes) && key in taken
    ensures key in all && Represents(taken[key], all[key], path + [Key(key)], nodes)
  {
  }

  method CloneArray(arr: JsonArray, ghost j: Json, ghost path: Path, ghost nodes: set<object>)
    returns (copy: Value, ghost made: set<object>)
    requires Represents(ArrayRef(arr), j, path, nodes)
    ensures Represents(copy, j, path, made) && fresh(made)
    decreases j, 0, 0
  {
    assert Items(arr.items, j.items, path, nodes);
    assert arr in nodes && |arr.items| == |j.items|;
    hide Represents;
    var items: seq<Value> := [];
    made := {};
    while |items| < |arr.items|
      invariant |items| <= |arr.items|
      invariant fresh(made) && Items(items, j.items, path, made)
    {
      var i := |items|;
      var nested, own := Clone(arr.items[i], j.items[i], path + [Index(i)], nodes);
      AddItem(items, j.items, path, made, nested, own);
      made := made + own;
      items := items + [nested];
    }
    var copySlice := new JsonArray(path, items);
    WrapItems(copySlice, j, made);
    made := made + {copySlice};
    copy := ArrayRef(copySlice);
  }
}
