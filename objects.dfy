/** The Python values the linker and the override table move around.

    A row is either a mapping (a `dict`, read and written with `obj[name]`)
    or an ordinary instance (read and written with `getattr` / `setattr`).
    Both are modelled by one class whose `kind` tells them apart and whose
    `fields` map holds the dict's entries or the instance's attributes. */
module Objects {
  import opened Wrappers

  datatype Kind = Mapping | Instance

  /** A Python object the linker links: a dict or an instance. */
  class Obj {
    const kind: Kind
    var fields: map<string, Value>

    constructor (kind: Kind, fields: map<string, Value>)
      ensures this.kind == kind && this.fields == fields
    {
      this.kind := kind;
      this.fields := fields;
    }
  }

  /** The values stored in a row. Lists, dicts and tuples are values here:
      a list that two rows share is two lists in the model. */
  datatype Value =
    | Int(i: int)
    | Str(s: string)
    | NoneValue
    | Ref(obj: Obj)
    | ListOf(items: seq<Value>)
    | DictOf(entries: map<Value, Value>)
    | TupleOf(elems: seq<Value>)

  /** The exceptions the linker's code paths raise. */
  datatype TypeProblem =
    | BadKeySpec        // a key that is neither a string nor a sequence of strings
    | NoNames           // an empty sequence of key names
    | NotSubscriptable  // `obj[name]` on an instance
    | Unhashable        // a list, a dict or a tuple holding one used as a dict key
    | UnsupportedTarget // a `type_on_left` other than list, dict or None
    | NoItemAssignment  // `obj[name] = v` on something that is not a dict

  datatype Error =
    | KeyError(key: string)
    | AttributeError(name: string)
    | TypeError(problem: TypeProblem)
    | ValueError
    | NotImplemented

  /** Whether Python accepts a value as a dict key. Dicts and lists are not
      hashable; an instance is hashed by identity; a tuple when its items are. */
  predicate Hashable(v: Value) {
    match v
    case ListOf(_) => false
    case DictOf(_) => false
    case Ref(o) => o.kind == Instance
    case TupleOf(es) => forall e | e in es :: Hashable(e)
    case _ => true
  }

  /** The fields of every object of interest, frozen at one moment. */
  type Heap = map<Obj, map<string, Value>>

  /** The heap as it is now. */
  function Snapshot(objs: set<Obj>): (h: Heap)
    reads objs
    ensures h.Keys == objs
    ensures forall o :: o in objs ==> h[o] == o.fields
  {
    map o | o in objs :: o.fields
  }

  /** The objects hold the fields that the heap says they hold. */
  ghost predicate Mirrors(heap: Heap)
    reads heap.Keys
  {
    forall o :: o in heap ==> o.fields == heap[o]
  }

  /** `getattr(obj, name, None)` on an instance. */
  function AttrOr(f: map<string, Value>, name: string): Value {
    if name in f then f[name] else NoneValue
  }
}
