/** The key-based linker: a hash join between "left" objects, indexed by a
    key, and "right" objects that carry the same key (or an alias of it).

    Each operation that walks a list in the source is a method with a loop,
    proved against a specification function that folds over the same list.
    Since `link` changes the objects it walks, its specification folds over
    a frozen copy of their fields (a `Heap`) and the method promises that
    the objects end up holding what the fold computes. */
module Linker {
  import opened Wrappers
  import opened Objects

  /** The `key` argument of the getters: a string, a list or tuple of
      strings, or anything else (`None`, a number), which Python tests for
      truth in `key_right or key_left`. */
  datatype KeySpec = Name(n: string) | Names(ns: seq<string>) | Other(truthy: bool)

  predicate Truthy(k: KeySpec) {
    match k
    case Name(n) => n != ""
    case Names(ns) => ns != []
    case Other(t) => t
  }

  datatype Access = ByItem | ByAttr

  /** Mappings are read by item, everything else by attribute. */
  function AccessFor(kind: Kind): Access {
    if kind == Mapping then ByItem else ByAttr
  }

  /** `itemgetter(*names)` or `attrgetter(*names)`: at least one name. */
  datatype Getter = Getter(access: Access, first: string, rest: seq<string>) {
    function Names(): seq<string> { [first] + rest }
  }

  /** `Linker._get_getter(obj, key)`: the access is chosen by the kind of the
      object the getter is built from, not of the objects it is applied to. */
  function MakeGetter(kind: Kind, key: KeySpec): Result<Getter, Error> {
    match key
    case Name(n) => Ok(Getter(AccessFor(kind), n, []))
    case Names(ns) => if ns == [] then Err(TypeError(NoNames)) else Ok(Getter(AccessFor(kind), ns[0], ns[1..]))
    case Other(_) => Err(TypeError(BadKeySpec))
  }

  /** The exception a getter raises for a name the object lacks. */
  function Missing(access: Access, name: string): Error {
    if access == ByItem then KeyError(name) else AttributeError(name)
  }

  /** The values of several names, read left to right: the first missing
      name raises. */
  function FetchAll(access: Access, ns: seq<string>, f: map<string, Value>): Result<seq<Value>, Error> {
    if ns == [] then Ok([])
    else if ns[0] !in f then Err(Missing(access, ns[0]))
    else match FetchAll(access, ns[1..], f)
      case Err(e) => Err(e)
      case Ok(vs) => Ok([f[ns[0]]] + vs)
  }

  /** Reading several names succeeds exactly when all are present, and then
      gives their values in order; otherwise it raises the error of the
      first missing name. */
  lemma {:induction false} FetchAllMeaning(access: Access, ns: seq<string>, f: map<string, Value>)
    ensures var r := FetchAll(access, ns, f);
            && (r.Ok? <==> forall i :: 0 <= i < |ns| ==> ns[i] in f)
            && (r.Ok? ==> |r.value| == |ns| && forall i :: 0 <= i < |ns| ==> r.value[i] == f[ns[i]])
            && (r.Err? ==> exists i :: 0 <= i < |ns| && ns[i] !in f && r.error == Missing(access, ns[i])
                                       && forall j :: 0 <= j < i ==> ns[j] in f)
  {
    if ns != [] && ns[0] in f {
      FetchAllMeaning(access, ns[1..], f);
      var r := FetchAll(access, ns[1..], f);
      if r.Err? {
        var i :| 0 <= i < |ns[1..]| && ns[1..][i] !in f && r.error == Missing(access, ns[1..][i])
                 && forall j :: 0 <= j < i ==> ns[1..][j] in f;
        assert ns[i + 1] !in f;
        assert forall j :: 0 <= j < i + 1 ==> ns[j] in f by {
          forall j | 0 <= j < i + 1 ensures ns[j] in f {
            if j > 0 { assert ns[j] == ns[1..][j - 1]; }
          }
        }
      } else {
        assert forall i :: 0 <= i < |ns| ==> ns[i] in f by {
          forall i | 0 <= i < |ns| ensures ns[i] in f {
            if i > 0 { assert ns[i] == ns[1..][i - 1]; }
          }
        }
      }
    }
  }

  /** Applies a getter to an object of the given kind with the given fields:
      one name gives its value, several give a tuple. */
  function Apply(g: Getter, kind: Kind, f: map<string, Value>): Result<Value, Error>
  {
    if g.access == ByItem && kind == Instance then Err(TypeError(NotSubscriptable))
    else if g.access == ByAttr && kind == Mapping then Err(AttributeError(g.first))
    else match FetchAll(g.access, g.Names(), f)
      case Err(e) => Err(e)
      case Ok(vs) => Ok(if |vs| == 1 then vs[0] else TupleOf(vs))
  }

  /** What building a getter from an object and applying it to the same
      object gives. */
  function ReadKey(key: KeySpec, kind: Kind, f: map<string, Value>): Result<Value, Error> {
    match MakeGetter(kind, key)
    case Err(e) => Err(e)
    case Ok(g) => Apply(g, kind, f)
  }

  /** `dict_from_list`: the index from key value to object. The getter is
      built from the first object; a later object with the same key value
      replaces an earlier one. */
  function Index(key: KeySpec, li: seq<Obj>): Result<map<Value, Obj>, Error>
    reads set o | o in li
  {
    if li == [] then Ok(map[])
    else match MakeGetter(li[0].kind, key)
      case Err(e) => Err(e)
      case Ok(g) => IndexWith(g, li)
  }

  function IndexWith(g: Getter, li: seq<Obj>): Result<map<Value, Obj>, Error>
    reads set o | o in li
  {
    if li == [] then Ok(map[])
    else
      var o := li[|li| - 1];
      match IndexWith(g, li[..|li| - 1])
      case Err(e) => Err(e)
      case Ok(m) =>
        match Apply(g, o.kind, o.fields)
        case Err(e) => Err(e)
        case Ok(k) => if Hashable(k) then Ok(m[k := o]) else Err(TypeError(Unhashable))
  }

  /** The `type_on_left` / `type_on_right` argument. `OtherType(made)` is any
      other value: `made` is what calling it returns, or `None` when it
      cannot be called. */
  datatype TargetType = ListType | DictType | NoneType | OtherType(made: Option<Value>)

  /** The functions `_get_setter` returns. */
  datatype Setter =
    | AppendItem          // `tgt.setdefault(name, []).append(v)`
    | AssignItem          // `operator.setitem`
    | AppendAttr          // append to `getattr(tgt, name, None)`, created on first use
    | AssignAttr          // `setattr`
    | KeyedAttr(key: Getter)  // store `v` in a dict attribute under `key(v)`

  /** `Linker._get_setter(obj, name, type, dictkey, o_src)`: chosen by the
      kind of `obj` and the target type. `srcKind` is the kind of `o_src`,
      from which the dict-mode key getter is built. */
  function MakeSetter(kind: Kind, tt: TargetType, dictkey: KeySpec, srcKind: Kind): Result<Setter, Error> {
    match tt
    case ListType => Ok(if kind == Mapping then AppendItem else AppendAttr)
    case NoneType => Ok(if kind == Mapping then AssignItem else AssignAttr)
    case DictType =>
      if kind == Mapping then Err(NotImplemented)
      else (match MakeGetter(srcKind, dictkey)
            case Err(e) => Err(e)
            case Ok(g) => Ok(KeyedAttr(g)))
    case OtherType(_) => Err(TypeError(UnsupportedTarget))
  }

  /** A setter applied to `tgt` with the value `Ref(src)`: the new heap, and
      the exception raised, if any. Only `tgt` changes. A dict-mode setter
      stores the empty dict before it reads the key, so that store stays
      when the key cannot be read. */
  function Put(s: Setter, heap: Heap, tgt: Obj, attr: string, src: Obj): (r: (Heap, Option<Error>))
    requires tgt in heap && src in heap
    ensures r.0.Keys == heap.Keys
    ensures forall o :: o in heap && o != tgt ==> r.0[o] == heap[o]
  {
    var f := heap[tgt];
    var v := Ref(src);
    match s
    case AppendItem =>
      if tgt.kind == Instance then (heap, Some(AttributeError("setdefault")))
      else if attr !in f then (heap[tgt := f[attr := ListOf([v])]], None)
      else if f[attr].ListOf? then (heap[tgt := f[attr := ListOf(f[attr].items + [v])]], None)
      else (heap, Some(AttributeError("append")))
    case AssignItem =>
      if tgt.kind == Instance then (heap, Some(TypeError(NoItemAssignment)))
      else (heap[tgt := f[attr := v]], None)
    case AppendAttr =>
      if tgt.kind == Mapping then (heap, Some(AttributeError(attr)))
      else if AttrOr(f, attr) == NoneValue then (heap[tgt := f[attr := ListOf([v])]], None)
      else if f[attr].ListOf? then (heap[tgt := f[attr := ListOf(f[attr].items + [v])]], None)
      else (heap, Some(AttributeError("append")))
    case AssignAttr =>
      if tgt.kind == Mapping then (heap, Some(AttributeError(attr)))
      else (heap[tgt := f[attr := v]], None)
    case KeyedAttr(g) =>
      if tgt.kind == Mapping then (heap, Some(AttributeError(attr)))
      else
        var absent := AttrOr(f, attr) == NoneValue;
        var h1 := if absent then heap[tgt := f[attr := DictOf(map[])]] else heap;
        var d := if absent then DictOf(map[]) else f[attr];
        match Apply(g, src.kind, h1[src])
        case Err(e) => (h1, Some(e))
        case Ok(k) =>
          if !d.DictOf? then (h1, Some(TypeError(NoItemAssignment)))
          else if !Hashable(k) then (h1, Some(TypeError(Unhashable)))
          else (h1[tgt := h1[tgt][attr := DictOf(d.entries[k := v])]], None)
  }

  /** Runs a setter on the objects themselves. */
  method Store(s: Setter, tgt: Obj, attr: string, src: Obj, ghost heap: Heap) returns (err: Option<Error>)
    requires tgt in heap && src in heap && Mirrors(heap)
    modifies tgt
    ensures Mirrors(Put(s, heap, tgt, attr, src).0)
    ensures err == Put(s, heap, tgt, attr, src).1
  {
    var v := Ref(src);
    match s
    case AppendItem =>
      if tgt.kind == Instance {
        err := Some(AttributeError("setdefault"));
      } else if attr !in tgt.fields {
        tgt.fields := tgt.fields[attr := ListOf([v])];
        err := None;
      } else if tgt.fields[attr].ListOf? {
        tgt.fields := tgt.fields[attr := ListOf(tgt.fields[attr].items + [v])];
        err := None;
      } else {
        err := Some(AttributeError("append"));
      }
    case AssignItem =>
      if tgt.kind == Instance {
        err := Some(TypeError(NoItemAssignment));
      } else {
        tgt.fields := tgt.fields[attr := v];
        err := None;
      }
    case AppendAttr =>
      if tgt.kind == Mapping {
        err := Some(AttributeError(attr));
      } else if AttrOr(tgt.fields, attr) == NoneValue {
        tgt.fields := tgt.fields[attr := ListOf([v])];
        err := None;
      } else if tgt.fields[attr].ListOf? {
        tgt.fields := tgt.fields[attr := ListOf(tgt.fields[attr].items + [v])];
        err := None;
      } else {
        err := Some(AttributeError("append"));
      }
    case AssignAttr =>
      if tgt.kind == Mapping {
        err := Some(AttributeError(attr));
      } else {
        tgt.fields := tgt.fields[attr := v];
        err := None;
      }
    case KeyedAttr(g) =>
      if tgt.kind == Mapping {
        err := Some(AttributeError(attr));
      } else {
        var d: Value;
        if AttrOr(tgt.fields, attr) == NoneValue {
          d := DictOf(map[]);
          tgt.fields := tgt.fields[attr := d];
        } else {
          d := tgt.fields[attr];
        }
        var k := Apply(g, src.kind, src.fields);
        if k.Err? {
          err := Some(k.error);
        } else if !d.DictOf? {
          err := Some(TypeError(NoItemAssignment));
        } else if !Hashable(k.value) {
          err := Some(TypeError(Unhashable));
        } else {
          tgt.fields := tgt.fields[attr := DictOf(d.entries[k.value := v])];
          err := None;
        }
      }
  }

  /** How an empty setter fills the field: `setdefault(name, type())` /
      `setattr(obj, name, type())`, or a plain store of `None`. */
  datatype Fill = SetDefault(made: Value) | SetValue(value: Value)

  /** The functions `_get_empty_setter` returns. */
  datatype EmptySetter = EmptySetter(access: Access, fill: Fill, checkEmpty: bool)

  /** `Linker._get_empty_setter(obj, name, type, check_empty)`: a callable
      type is called for a fresh empty value, `None` is stored as is, and
      anything else is not implemented. */
  function MakeEmptySetter(kind: Kind, tt: TargetType, checkEmpty: bool): Result<EmptySetter, Error> {
    var access := AccessFor(kind);
    match tt
    case ListType => Ok(EmptySetter(access, SetDefault(ListOf([])), checkEmpty))
    case DictType => Ok(EmptySetter(access, SetDefault(DictOf(map[])), checkEmpty))
    case NoneType => Ok(EmptySetter(access, SetValue(NoneValue), checkEmpty))
    case OtherType(made) =>
      if made.Some? then Ok(EmptySetter(access, SetDefault(made.value), checkEmpty))
      else Err(NotImplemented)
  }

  /** The value an empty setter stores. */
  function Filler(fill: Fill): Value {
    match fill
    case SetDefault(m) => m
    case SetValue(v) => v
  }

  /** An empty setter applied to an object of the given kind and fields. */
  function Clear(es: EmptySetter, kind: Kind, f: map<string, Value>, attr: string): Result<map<string, Value>, Error> {
    match es.access
    case ByItem =>
      if es.checkEmpty && kind == Instance then Err(AttributeError("has_key"))
      else if es.checkEmpty && attr in f then Ok(f)
      else if kind == Instance then
        Err(if es.fill.SetDefault? then AttributeError("setdefault") else TypeError(NoItemAssignment))
      else if es.fill.SetDefault? && attr in f then Ok(f)
      else Ok(f[attr := Filler(es.fill)])
    case ByAttr =>
      if es.checkEmpty && kind == Instance && attr in f then Ok(f)
      else if kind == Mapping then Err(AttributeError(attr))
      else Ok(f[attr := Filler(es.fill)])
  }

  /** What `link` records besides the links themselves. */
  class LinkResultHelper {
    const left: map<Value, Obj>
    const attrnameOnLeft: string
    const typeOnLeft: TargetType
    var rightOrphans: seq<Obj>

    constructor (left: map<Value, Obj>, attrnameOnLeft: string, typeOnLeft: TargetType)
      ensures this.left == left && this.attrnameOnLeft == attrnameOnLeft && this.typeOnLeft == typeOnLeft
      ensures rightOrphans == []
    {
      this.left := left;
      this.attrnameOnLeft := attrnameOnLeft;
      this.typeOnLeft := typeOnLeft;
      rightOrphans := [];
    }

    method AddRightOrphan(o: Obj)
      modifies this
      ensures rightOrphans == old(rightOrphans) + [o]
    {
      rightOrphans := rightOrphans + [o];
    }

    /** Gives every left object that lacks `attrnameOnLeft` an empty value.
        The objects are visited in the order of `left.values()`, which Python
        does not fix: `order` is the order this run used. The result is
        `Ok(false)` when there is no left object (the source returns `None`)
        and `Ok(true)` otherwise (the source returns the helper). */
    method InitializeLefts() returns (r: Result<bool, Error>, ghost order: seq<Obj>, ghost keys: seq<Value>)
      modifies left.Values
      ensures Enumerates(order, left, keys)
      ensures var out := Initialize(attrnameOnLeft, typeOnLeft, old(Snapshot(left.Values)), order);
              Mirrors(out.heap) && r == (if out.failure.Some? then Err(out.failure.value) else Ok(order != []))
    {
      ghost var heap0 := Snapshot(left.Values);
      var li;
      li, keys := ValuesOf(left);
      order := li;
      if li == [] {
        r := Ok(false);
      } else {
        assert forall o | o in li :: o in left.Values by {
          forall o | o in li ensures o in left.Values {
            var i :| 0 <= i < |li| && li[i] == o;
            assert keys[i] in left;
          }
        }
        var g := Getter(AccessFor(li[0].kind), attrnameOnLeft, []);
        var failure := InitAll(attrnameOnLeft, typeOnLeft, g, li, heap0);
        r := if failure.Some? then Err(failure.value) else Ok(true);
      }
    }
  }

  /** The loop of `initialize_lefts`, with the getter `g`. */
  method InitAll(attr: string, tt: TargetType, g: Getter, li: seq<Obj>, ghost heap0: Heap) returns (failure: Option<Error>)
    requires (forall o | o in li :: o in heap0) && Mirrors(heap0)
    modifies set o | o in li
    ensures var out := InitRun(attr, tt, g, heap0, li);
            Mirrors(out.heap) && failure == out.failure
  {
    ghost var heap := heap0;
    var setter: Option<EmptySetter> := None;
    failure := None;
    var i := 0;
    while i < |li| && failure.None?
      invariant 0 <= i <= |li|
      invariant Mirrors(heap)
      invariant InitRun(attr, tt, g, heap0, li[..i]) == InitOutcome(heap, setter, failure)
    {
      failure, setter, heap, i := InitAt(attr, tt, g, li, i, setter, heap, heap0);
    }
    InitDone(attr, tt, g, heap0, li, i);
  }

  /** The pass over the `i`-th object, after `i` passes that raised
      nothing, continues the run up to the `next` object. */
  method InitAt(attr: string, tt: TargetType, g: Getter, li: seq<Obj>, i: nat,
                setter: Option<EmptySetter>, ghost heap: Heap, ghost heap0: Heap)
    returns (failure: Option<Error>, setterAfter: Option<EmptySetter>, ghost heapAfter: Heap, next: nat)
    requires i < |li| && (forall o | o in li :: o in heap0) && heap.Keys == heap0.Keys && Mirrors(heap)
    requires InitRun(attr, tt, g, heap0, li[..i]) == InitOutcome(heap, setter, None)
    modifies li[i]
    ensures next == i + 1
    ensures InitRun(attr, tt, g, heap0, li[..next]) == InitOutcome(heapAfter, setterAfter, failure)
    ensures heapAfter.Keys == heap0.Keys && Mirrors(heapAfter)
  {
    next := i + 1;
    assert li[..next][..i] == li[..i];
    failure, setterAfter, heapAfter := InitOne(attr, tt, g, li[i], setter, heap);
  }

  /** `left.values()`, in whatever order the map yields; `ks` is the
      order of the keys. */
  method ValuesOf(left: map<Value, Obj>) returns (li: seq<Obj>, ghost ks: seq<Value>)
    ensures Enumerates(li, left, ks)
  {
    var keys := left.Keys;
    li, ks := [], [];
    while keys != {}
      invariant keys <= left.Keys
      invariant |ks| == |li| && |li| + |keys| == |left|
      invariant forall i, j | 0 <= i < j < |ks| :: ks[i] != ks[j]
      invariant forall i | 0 <= i < |ks| :: ks[i] in left && ks[i] !in keys && li[i] == left[ks[i]]
      invariant forall k | k in left && k !in keys :: k in ks
      decreases |keys|
    {
      var k :| k in keys;
      li, ks := li + [left[k]], ks + [k];
      keys := keys - {k};
    }
  }

  /** One pass of the loop of `initialize_lefts`, on the object itself. */
  method InitOne(attr: string, tt: TargetType, g: Getter, o: Obj, setter: Option<EmptySetter>, ghost heap: Heap)
    returns (failure: Option<Error>, setterAfter: Option<EmptySetter>, ghost heapAfter: Heap)
    requires o in heap && Mirrors(heap)
    modifies o
    ensures InitStep(attr, tt, g, InitOutcome(heap, setter, None), o) == InitOutcome(heapAfter, setterAfter, failure)
    ensures Mirrors(heapAfter)
  {
    failure, setterAfter, heapAfter := None, setter, heap;
    var v := Apply(g, o.kind, o.fields);
    if v.Err? {
      if !(v.error.KeyError? || v.error.AttributeError?) {
        failure := Some(v.error);
        return;
      }
      var made := if setter.Some? then Ok(setter.value) else MakeEmptySetter(o.kind, tt, false);
      if made.Err? {
        failure := Some(made.error);
        return;
      }
      setterAfter := Some(made.value);
      var c := Clear(made.value, o.kind, o.fields, attr);
      if c.Err? {
        failure := Some(c.error);
        return;
      }
      o.fields := c.value;
      heapAfter := heap[o := c.value];
    }
  }

  /** The loop of `initialize_lefts` stops after the last object or at the
      first failure; either way it has done the whole run. */
  lemma InitDone(attr: string, tt: TargetType, g: Getter, heap: Heap, objs: seq<Obj>, n: nat)
    requires n <= |objs| && forall o | o in objs :: o in heap
    requires n == |objs| || InitRun(attr, tt, g, heap, objs[..n]).failure.Some?
    ensures InitRun(attr, tt, g, heap, objs) == InitRun(attr, tt, g, heap, objs[..n])
  {
    if n < |objs| {
      InitStopsAfterFailure(attr, tt, g, heap, objs, n);
    } else {
      assert objs[..n] == objs;
    }
  }

  lemma {:induction false} InitStopsAfterFailure(attr: string, tt: TargetType, g: Getter, heap: Heap, objs: seq<Obj>, n: nat)
    requires n <= |objs| && forall o | o in objs :: o in heap
    requires InitRun(attr, tt, g, heap, objs[..n]).failure.Some?
    ensures InitRun(attr, tt, g, heap, objs) == InitRun(attr, tt, g, heap, objs[..n])
    decreases |objs| - n
  {
    if n < |objs| {
      var p := objs[..n + 1];
      assert p[..|p| - 1] == objs[..n];
      assert InitRun(attr, tt, g, heap, p) == InitRun(attr, tt, g, heap, objs[..n]);
      InitStopsAfterFailure(attr, tt, g, heap, objs, n + 1);
    } else {
      assert objs[..n] == objs;
    }
  }

  /** `objs` lists the values of `left` in the order of the keys `ks`:
      every key exactly once, so a value appears once per key holding it. */
  ghost predicate Enumerates(objs: seq<Obj>, left: map<Value, Obj>, ks: seq<Value>) {
    && |ks| == |objs| == |left|
    && (forall i, j | 0 <= i < j < |ks| :: ks[i] != ks[j])
    && (forall k | k in left :: k in ks)
    && (forall i | 0 <= i < |ks| :: ks[i] in left && objs[i] == left[ks[i]])
  }

  datatype InitOutcome = InitOutcome(heap: Heap, setter: Option<EmptySetter>, failure: Option<Error>)

  /** `initialize_lefts`: the getter is built from the first object; the
      empty setter from the first object the getter fails on. A getter
      failure other than `KeyError` or `AttributeError` propagates. */
  function Initialize(attr: string, tt: TargetType, heap: Heap, objs: seq<Obj>): (r: InitOutcome)
    requires forall o | o in objs :: o in heap
    ensures r.heap.Keys == heap.Keys
  {
    if objs == [] then InitOutcome(heap, None, None)
    else InitRun(attr, tt, Getter(AccessFor(objs[0].kind), attr, []), heap, objs)
  }

  function InitRun(attr: string, tt: TargetType, g: Getter, heap: Heap, objs: seq<Obj>): (r: InitOutcome)
    requires forall o | o in objs :: o in heap
    ensures r.heap.Keys == heap.Keys
  {
    if objs == [] then InitOutcome(heap, None, None)
    else
      var prev := InitRun(attr, tt, g, heap, objs[..|objs| - 1]);
      if prev.failure.Some? then prev
      else InitStep(attr, tt, g, prev, objs[|objs| - 1])
  }

  function InitStep(attr: string, tt: TargetType, g: Getter, st: InitOutcome, o: Obj): (r: InitOutcome)
    requires o in st.heap
    ensures r.heap.Keys == st.heap.Keys
  {
    match Apply(g, o.kind, st.heap[o])
    case Ok(_) => st
    case Err(e) =>
      if !(e.KeyError? || e.AttributeError?) then st.(failure := Some(e))
      else
        var made := if st.setter.Some? then Ok(st.setter.value) else MakeEmptySetter(o.kind, tt, false);
        match made
        case Err(e2) => st.(failure := Some(e2))
        case Ok(es) =>
          match Clear(es, o.kind, st.heap[o], attr)
          case Err(e3) => InitOutcome(st.heap, Some(es), Some(e3))
          case Ok(f) => InitOutcome(st.heap[o := f], Some(es), None)
  }

  /** The arguments of one `link` call, with `key_right or key_left` already
      resolved into `keyRight`. */
  datatype LinkConfig = LinkConfig(
    left: map<Value, Obj>,
    attrLeft: string,
    typeLeft: TargetType,
    dictkeyLeft: KeySpec,
    keyRight: KeySpec,
    attrRight: Option<string>,
    typeRight: TargetType)

  /** `attrname_on_right` as Python tests it. */
  predicate LinksBack(cfg: LinkConfig) {
    cfg.attrRight.Some? && cfg.attrRight.value != ""
  }

  /** The loop state of `link`: the objects' fields, the orphans so far, and
      the getter and setters built on first use. */
  datatype LinkState = LinkState(
    heap: Heap,
    orphans: seq<Obj>,
    getKey: Option<Getter>,
    setLeft: Option<Setter>,
    setRight: Option<Setter>)

  datatype Outcome = Outcome(state: LinkState, failure: Option<Error>)

  /** Every object `link` may touch is in the heap. */
  ghost predicate Covers(heap: Heap, cfg: LinkConfig, rights: seq<Obj>) {
    (forall i | 0 <= i < |rights| :: rights[i] in heap) && (forall k | k in cfg.left :: cfg.left[k] in heap)
  }

  /** `link` over the right objects, stopping at the first exception. */
  function LinkRun(cfg: LinkConfig, heap: Heap, rights: seq<Obj>, n: nat): (r: Outcome)
    requires n <= |rights| && Covers(heap, cfg, rights)
    ensures r.state.heap.Keys == heap.Keys
  {
    if n == 0 then Outcome(LinkState(heap, [], None, None, None), None)
    else
      var prev := LinkRun(cfg, heap, rights, n - 1);
      if prev.failure.Some? then prev
      else LinkStep(cfg, prev.state, rights[n - 1])
  }

  /** One pass of the loop body of `link` for the right object `o`. */
  function LinkStep(cfg: LinkConfig, st: LinkState, o: Obj): (r: Outcome)
    requires o in st.heap && forall k | k in cfg.left :: cfg.left[k] in st.heap
    ensures r.state.heap.Keys == st.heap.Keys
  {
    var mg := if st.getKey.Some? then Ok(st.getKey.value) else MakeGetter(o.kind, cfg.keyRight);
    if mg.Err? then Outcome(st, Some(mg.error))
    else
      var st1 := st.(getKey := Some(mg.value));
      var kv := Apply(mg.value, o.kind, st.heap[o]);
      if kv.Err? then Outcome(st1, Some(kv.error))
      else if !Hashable(kv.value) then Outcome(st1, Some(TypeError(Unhashable)))
      else if kv.value !in cfg.left then Outcome(st1.(orphans := st.orphans + [o]), None)
      else LinkHit(cfg, st1, o, cfg.left[kv.value])
  }

  /** The rest of the pass when `o` found the left object `l`: the left
      setter, then the right setter when `attrname_on_right` is set. */
  function LinkHit(cfg: LinkConfig, st: LinkState, o: Obj, l: Obj): (r: Outcome)
    requires o in st.heap && l in st.heap
    ensures r.state.heap.Keys == st.heap.Keys
  {
    var ms := if st.setLeft.Some? then Ok(st.setLeft.value)
              else MakeSetter(l.kind, cfg.typeLeft, cfg.dictkeyLeft, o.kind);
    if ms.Err? then Outcome(st, Some(ms.error))
    else
      var (h2, e2) := Put(ms.value, st.heap, l, cfg.attrLeft, o);
      var st2 := st.(setLeft := Some(ms.value), heap := h2);
      if e2.Some? then Outcome(st2, e2)
      else if !LinksBack(cfg) then Outcome(st2, None)
      else
        var mr := if st.setRight.Some? then Ok(st.setRight.value)
                  else MakeSetter(o.kind, cfg.typeRight, Other(false), l.kind);
        if mr.Err? then Outcome(st2, Some(mr.error))
        else
          var (h3, e3) := Put(mr.value, h2, o, cfg.attrRight.value, l);
          Outcome(st2.(setRight := Some(mr.value), heap := h3), e3)
  }

  /** The run over one more right object is one more step. */
  lemma LinkRunNext(cfg: LinkConfig, heap: Heap, rights: seq<Obj>, i: nat)
    requires i < |rights| && Covers(heap, cfg, rights)
    ensures var prev := LinkRun(cfg, heap, rights, i);
            LinkRun(cfg, heap, rights, i + 1)
            == if prev.failure.Some? then prev else LinkStep(cfg, prev.state, rights[i])
  {
  }

  /** Runs over the same number of right objects are the same run. */
  lemma SameRun(cfg: LinkConfig, heap: Heap, rights: seq<Obj>, a: nat, b: nat)
    requires a == b && b <= |rights| && Covers(heap, cfg, rights)
    ensures LinkRun(cfg, heap, rights, a) == LinkRun(cfg, heap, rights, b)
  {
  }

  /** The loop of `link` stops after the last right object or at the first
      failure; either way the run is complete. */
  lemma RunDone(cfg: LinkConfig, heap: Heap, rights: seq<Obj>, n: nat)
    requires n <= |rights| && Covers(heap, cfg, rights)
    requires n == |rights| || LinkRun(cfg, heap, rights, n).failure.Some?
    ensures LinkRun(cfg, heap, rights, |rights|) == LinkRun(cfg, heap, rights, n)
  {
    if n < |rights| { RunStopsAfterFailure(cfg, heap, rights, n, |rights|); }
  }

  /** Once a step fails, the later right objects are not visited. */
  lemma RunStopsAfterFailure(cfg: LinkConfig, heap: Heap, rights: seq<Obj>, n: nat, k: nat)
    requires n <= k <= |rights| && Covers(heap, cfg, rights)
    requires LinkRun(cfg, heap, rights, n).failure.Some?
    ensures LinkRun(cfg, heap, rights, k) == LinkRun(cfg, heap, rights, n)
    decreases k
  {
    if n != k {
      RunStopsAfterFailure(cfg, heap, rights, n, k - 1);
    }
  }

  /** A `Linker`: the key the left objects are indexed by, and the helper of
      its last `link` call. */
  class Linker {
    const keyLeft: KeySpec
    var helper: LinkResultHelper?

    constructor (keyLeft: KeySpec)
      ensures this.keyLeft == keyLeft && helper == null
    {
      this.keyLeft := keyLeft;
      helper := null;
    }

    method DictFromList(li: seq<Obj>) returns (r: Result<map<Value, Obj>, Error>)
      ensures r == Index(keyLeft, li)
    {
      var di: map<Value, Obj> := map[];
      if li == [] {
        return Ok(di);
      }
      var mg := MakeGetter(li[0].kind, keyLeft);
      if mg.Err? {
        return Err(mg.error);
      }
      var g := mg.value;
      var i := 0;
      while i < |li|
        invariant 0 <= i <= |li|
        invariant IndexWith(g, li[..i]) == Ok(di)
      {
        var o := li[i];
        assert li[..i + 1][..i] == li[..i];
        var k := Apply(g, o.kind, o.fields);
        if k.Err? {
          IndexStopsAfterFailure(g, li, i + 1);
          return Err(k.error);
        }
        if !Hashable(k.value) {
          IndexStopsAfterFailure(g, li, i + 1);
          return Err(TypeError(Unhashable));
        }
        di := di[k.value := o];
        i := i + 1;
      }
      assert li[..i] == li;
      return Ok(di);
    }

    /** `link`: attaches each right object to the left object its key finds.
        The source returns the helper from a `finally` clause, which swallows
        any exception; `failure` is that swallowed exception. The objects
        end up as `LinkRun` says, right up to the failing step. */
    method Link(left: map<Value, Obj>, right: seq<Obj>, attrLeft: string, typeLeft: TargetType,
                dictkeyLeft: KeySpec, keyRight: KeySpec, attrRight: Option<string>, typeRight: TargetType)
      returns (h: LinkResultHelper, failure: Option<Error>)
      modifies this, left.Values, set o | o in right
      ensures fresh(h) && helper == h
      ensures h.left == left && h.attrnameOnLeft == attrLeft && h.typeOnLeft == typeLeft
      ensures var cfg := LinkConfig(left, attrLeft, typeLeft, dictkeyLeft,
                                    if Truthy(keyRight) then keyRight else keyLeft, attrRight, typeRight);
              var out := LinkRun(cfg, old(Snapshot(left.Values + set o | o in right)), right, |right|);
              failure == out.failure && h.rightOrphans == out.state.orphans && Mirrors(out.state.heap)
    {
      var kr := if Truthy(keyRight) then keyRight else keyLeft;
      var cfg := LinkConfig(left, attrLeft, typeLeft, dictkeyLeft, kr, attrRight, typeRight);
      ghost var heap0 := Snapshot(left.Values + set o | o in right);
      assert Covers(heap0, cfg, right);
      h := new LinkResultHelper(left, attrLeft, typeLeft);
      helper := h;
      failure := LinkAll(cfg, h, right, heap0);
    }
  }

  /** The loop of `link`, from a fresh helper. */
  method LinkAll(cfg: LinkConfig, h: LinkResultHelper, right: seq<Obj>, ghost heap0: Heap)
    returns (failure: Option<Error>)
    requires Covers(heap0, cfg, right) && Mirrors(heap0) && h.rightOrphans == []
    modifies h, cfg.left.Values, set o | o in right
    ensures var out := LinkRun(cfg, heap0, right, |right|);
            failure == out.failure && h.rightOrphans == out.state.orphans && Mirrors(out.state.heap)
  {
    ghost var heap := heap0;
    var getKey: Option<Getter> := None;
    var setLeft: Option<Setter> := None;
    var setRight: Option<Setter> := None;
    failure := None;
    var i := 0;
    while i < |right| && failure.None?
      invariant 0 <= i <= |right| && Mirrors(heap)
      invariant LinkRun(cfg, heap0, right, i)
                == Outcome(LinkState(heap, h.rightOrphans, getKey, setLeft, setRight), failure)
    {
      failure, getKey, setLeft, setRight, heap := LinkAt(cfg, h, right, i, getKey, setLeft, setRight, heap, heap0);
      i := i + 1;
    }
    RunDone(cfg, heap0, right, i);
  }

  /** The pass over the `i`-th right object, after `i` passes that raised
      nothing, continues the run. */
  method LinkAt(cfg: LinkConfig, h: LinkResultHelper, right: seq<Obj>, i: nat,
                getKey: Option<Getter>, setLeft: Option<Setter>, setRight: Option<Setter>,
                ghost heap: Heap, ghost heap0: Heap)
    returns (failure: Option<Error>, getKeyAfter: Option<Getter>, setLeftAfter: Option<Setter>,
             setRightAfter: Option<Setter>, ghost heapAfter: Heap)
    requires i < |right| && Covers(heap0, cfg, right) && Mirrors(heap)
    requires LinkRun(cfg, heap0, right, i)
             == Outcome(LinkState(heap, h.rightOrphans, getKey, setLeft, setRight), None)
    modifies h, cfg.left.Values, right[i]
    ensures LinkRun(cfg, heap0, right, i + 1)
            == Outcome(LinkState(heapAfter, h.rightOrphans, getKeyAfter, setLeftAfter, setRightAfter), failure)
    ensures Mirrors(heapAfter)
  {
    LinkRunNext(cfg, heap0, right, i);
    failure, getKeyAfter, setLeftAfter, setRightAfter, heapAfter :=
      LinkOne(cfg, h, right[i], getKey, setLeft, setRight, heap);
  }

  /** One pass of the loop body of `link`, on the objects themselves. */
  method LinkOne(cfg: LinkConfig, h: LinkResultHelper, o: Obj,
                 getKey: Option<Getter>, setLeft: Option<Setter>, setRight: Option<Setter>, ghost heap: Heap)
    returns (failure: Option<Error>, getKeyAfter: Option<Getter>, setLeftAfter: Option<Setter>,
             setRightAfter: Option<Setter>, ghost heapAfter: Heap)
    requires o in heap && (forall k | k in cfg.left :: cfg.left[k] in heap) && Mirrors(heap)
    modifies h, cfg.left.Values, o
    ensures LinkStep(cfg, LinkState(heap, old(h.rightOrphans), getKey, setLeft, setRight), o)
            == Outcome(LinkState(heapAfter, h.rightOrphans, getKeyAfter, setLeftAfter, setRightAfter), failure)
    ensures Mirrors(heapAfter)
  {
    failure, getKeyAfter, setLeftAfter, setRightAfter, heapAfter := None, getKey, setLeft, setRight, heap;
    var mg := if getKey.Some? then Ok(getKey.value) else MakeGetter(o.kind, cfg.keyRight);
    if mg.Err? {
      failure := Some(mg.error);
      return;
    }
    getKeyAfter := Some(mg.value);
    var kv := Apply(mg.value, o.kind, o.fields);
    if kv.Err? {
      failure := Some(kv.error);
      return;
    }
    if !Hashable(kv.value) {
      failure := Some(TypeError(Unhashable));
      return;
    }
    if kv.value !in cfg.left {
      h.AddRightOrphan(o);
      return;
    }
    var l := cfg.left[kv.value];
    var ms := if setLeft.Some? then Ok(setLeft.value) else MakeSetter(l.kind, cfg.typeLeft, cfg.dictkeyLeft, o.kind);
    if ms.Err? {
      failure := Some(ms.error);
      return;
    }
    setLeftAfter := Some(ms.value);
    failure := Store(ms.value, l, cfg.attrLeft, o, heap);
    heapAfter := Put(ms.value, heap, l, cfg.attrLeft, o).0;
    if failure.Some? || !LinksBack(cfg) {
      return;
    }
    var mr := if setRight.Some? then Ok(setRight.value) else MakeSetter(o.kind, cfg.typeRight, Other(false), l.kind);
    if mr.Err? {
      failure := Some(mr.error);
      return;
    }
    setRightAfter := Some(mr.value);
    ghost var mid := heapAfter;
    failure := Store(mr.value, o, cfg.attrRight.value, l, mid);
    heapAfter := Put(mr.value, mid, o, cfg.attrRight.value, l).0;
  }

  /** `Index` stops at its first failure. */
  lemma {:induction false} IndexStopsAfterFailure(g: Getter, li: seq<Obj>, n: nat)
    requires n <= |li|
    requires IndexWith(g, li[..n]).Err?
    ensures IndexWith(g, li) == IndexWith(g, li[..n])
    decreases |li| - n
  {
    if n < |li| {
      assert li[..n + 1][..n] == li[..n];
      IndexStopsAfterFailure(g, li, n + 1);
    } else {
      assert li[..n] == li;
    }
  }
}
