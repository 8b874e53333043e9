/** What `link`, `dict_from_list` and `initialize_lefts` promise, proved
    about the specification functions the methods of `Linker` follow.

    The `link` facts hold for right objects that are pairwise distinct and
    are not themselves left objects, which is how the linker is used: a
    left object is then only changed by its own setter, and a right object
    only in its own pass of the loop, so every key is read from the
    objects as they were when `link` was called. */
module LinkerFacts {
  import opened Wrappers
  import opened Objects
  import opened Linker

  // ---------------------------------------------------------------- getters

  /** The key getter reads items from a mapping and attributes from an
      instance; one name gives its value and several give a tuple; a key
      that is not a string or a sequence of strings is a `TypeError`. */
  lemma KeyGetter(key: KeySpec, kind: Kind, f: map<string, Value>)
    ensures key.Other? ==> ReadKey(key, kind, f) == Err(TypeError(BadKeySpec))
    ensures key == Names([]) ==> ReadKey(key, kind, f) == Err(TypeError(NoNames))
    ensures key.Name? ==>
              ReadKey(key, kind, f) == if key.n in f then Ok(f[key.n]) else Err(Missing(AccessFor(kind), key.n))
    ensures key.Names? && |key.ns| == 1 ==> ReadKey(key, kind, f) == ReadKey(Name(key.ns[0]), kind, f)
    ensures key.Names? && |key.ns| >= 2 ==>
              && (ReadKey(key, kind, f).Ok? <==> forall i | 0 <= i < |key.ns| :: key.ns[i] in f)
              && (ReadKey(key, kind, f).Ok? ==>
                    var r := ReadKey(key, kind, f).value;
                    r.TupleOf? && |r.elems| == |key.ns| && forall i | 0 <= i < |key.ns| :: r.elems[i] == f[key.ns[i]])
  {
    if key.Names? && |key.ns| >= 1 {
      assert [key.ns[0]] + key.ns[1..] == key.ns;
      FetchAllMeaning(AccessFor(kind), key.ns, f);
    } else if key.Name? {
      assert Getter(AccessFor(kind), key.n, []).Names() == [key.n];
      FetchAllMeaning(AccessFor(kind), [key.n], f);
    }
  }

  /** A getter built from a mapping, applied to an instance, raises
      `TypeError`; one built from an instance, applied to a mapping, raises
      `AttributeError`. */
  lemma GetterKindMismatch(g: Getter, kind: Kind, f: map<string, Value>)
    requires g.access != AccessFor(kind)
    ensures Apply(g, kind, f) == if kind == Instance then Err(TypeError(NotSubscriptable)) else Err(AttributeError(g.first))
  {
  }

  // ---------------------------------------------------------- dict_from_list

  /** The key of the i-th object, read with getter `g`. */
  function KeyAt(g: Getter, li: seq<Obj>, i: nat): Result<Value, Error>
    requires i < |li|
    reads li[i]
  {
    Apply(g, li[i].kind, li[i].fields)
  }

  /** The key of the i-th object is one `dict_from_list` accepts. */
  predicate Keyed(g: Getter, li: seq<Obj>, i: nat)
    requires i < |li|
    reads li[i]
  {
    KeyAt(g, li, i).Ok? && Hashable(KeyAt(g, li, i).value)
  }

  /** `dict_from_list` succeeds exactly when every key can be read and
      hashed. */
  lemma {:induction false} IndexSucceeds(g: Getter, li: seq<Obj>)
    ensures IndexWith(g, li).Ok? <==> forall i | 0 <= i < |li| :: Keyed(g, li, i)
  {
    if li != [] {
      var n := |li| - 1;
      IndexSucceeds(g, li[..n]);
      forall i | 0 <= i < n ensures Keyed(g, li[..n], i) == Keyed(g, li, i) {
        assert li[..n][i] == li[i];
      }
      if IndexWith(g, li[..n]).Ok? {
        assert IndexWith(g, li).Ok? <==> Keyed(g, li, n);
      } else {
        assert IndexWith(g, li).Err?;
      }
    }
  }

  /** One more object: its key now maps to it. */
  lemma IndexSnoc(g: Getter, li: seq<Obj>)
    requires li != [] && IndexWith(g, li).Ok?
    ensures var n := |li| - 1;
            && IndexWith(g, li[..n]).Ok? && Keyed(g, li, n)
            && IndexWith(g, li).value == IndexWith(g, li[..n]).value[KeyAt(g, li, n).value := li[n]]
            && forall i | 0 <= i < n :: KeyAt(g, li[..n], i) == KeyAt(g, li, i)
  {
    var n := |li| - 1;
    forall i | 0 <= i < n ensures KeyAt(g, li[..n], i) == KeyAt(g, li, i) {
      assert li[..n][i] == li[i];
    }
  }

  /** When `dict_from_list` succeeds, every object's key is in the index. */
  lemma {:induction false} IndexHasEveryKey(g: Getter, li: seq<Obj>)
    requires IndexWith(g, li).Ok?
    ensures forall i | 0 <= i < |li| :: KeyAt(g, li, i).Ok? && KeyAt(g, li, i).value in IndexWith(g, li).value
  {
    if li != [] {
      var n := |li| - 1;
      IndexSnoc(g, li);
      IndexHasEveryKey(g, li[..n]);
    }
  }

  /** ... and every key of the index is some object's key. */
  lemma {:induction false} IndexOnlyKeys(g: Getter, li: seq<Obj>)
    requires IndexWith(g, li).Ok?
    ensures forall k | k in IndexWith(g, li).value :: exists i | 0 <= i < |li| :: KeyAt(g, li, i) == Ok(k)
  {
    if li != [] {
      var n := |li| - 1;
      IndexSnoc(g, li);
      IndexOnlyKeys(g, li[..n]);
      forall k | k in IndexWith(g, li).value ensures exists i | 0 <= i < |li| :: KeyAt(g, li, i) == Ok(k) {
        if k != KeyAt(g, li, n).value {
          var i :| 0 <= i < n && KeyAt(g, li[..n], i) == Ok(k);
          assert KeyAt(g, li, i) == Ok(k);
        } else {
          assert KeyAt(g, li, n) == Ok(k);
        }
      }
    }
  }

  /** When `dict_from_list` succeeds, each key maps to the LAST object that
      has it: a later object with the same key replaces an earlier one. */
  lemma {:induction false} IndexLastWins(g: Getter, li: seq<Obj>)
    requires IndexWith(g, li).Ok?
    ensures forall i | 0 <= i < |li| && (forall j | i < j < |li| :: KeyAt(g, li, j) != KeyAt(g, li, i)) ::
              && KeyAt(g, li, i).Ok? && KeyAt(g, li, i).value in IndexWith(g, li).value
              && IndexWith(g, li).value[KeyAt(g, li, i).value] == li[i]
  {
    IndexHasEveryKey(g, li);
    if li != [] {
      var n := |li| - 1;
      IndexSnoc(g, li);
      IndexLastWins(g, li[..n]);
      IndexHasEveryKey(g, li[..n]);
    }
  }

  // -------------------------------------------------------------------- link

  /** Right objects are pairwise distinct and none is a left object. */
  ghost predicate Separate(cfg: LinkConfig, rights: seq<Obj>) {
    && (forall i, j | 0 <= i < j < |rights| :: rights[i] != rights[j])
    && (forall i | 0 <= i < |rights| :: rights[i] !in cfg.left.Values)
  }

  /** The key of the i-th right object as it was before `link`, read with
      the getter built from the first right object. */
  function RightKey(cfg: LinkConfig, heap: Heap, rights: seq<Obj>, i: nat): Result<Value, Error>
    requires i < |rights| && Covers(heap, cfg, rights)
  {
    match MakeGetter(rights[0].kind, cfg.keyRight)
    case Err(e) => Err(e)
    case Ok(g) => Apply(g, rights[i].kind, heap[rights[i]])
  }

  /** The left object whose key the i-th right object carries, if any. */
  function Target(cfg: LinkConfig, heap: Heap, rights: seq<Obj>, i: nat): Option<Obj>
    requires i < |rights| && Covers(heap, cfg, rights)
  {
    var k := RightKey(cfg, heap, rights, i);
    if k.Ok? && Hashable(k.value) && k.value in cfg.left then Some(cfg.left[k.value]) else None
  }

  /** The first `n` right objects that find no left object, in order. */
  function Orphans(cfg: LinkConfig, heap: Heap, rights: seq<Obj>, n: nat): seq<Obj>
    requires n <= |rights| && Covers(heap, cfg, rights)
  {
    if n == 0 then []
    else Orphans(cfg, heap, rights, n - 1) + (if Target(cfg, heap, rights, n - 1).None? then [rights[n - 1]] else [])
  }

  /** The first `n` right objects that find the left object `l`, in order. */
  function Matched(cfg: LinkConfig, heap: Heap, rights: seq<Obj>, n: nat, l: Obj): (r: seq<Obj>)
    requires n <= |rights| && Covers(heap, cfg, rights)
    ensures forall o | o in r :: o in heap
  {
    if n == 0 then []
    else Matched(cfg, heap, rights, n - 1, l) + (if Target(cfg, heap, rights, n - 1) == Some(l) then [rights[n - 1]] else [])
  }

  /** One pass of the loop that raises nothing: the key is readable and
      hashable; an orphan changes no object; a match changes at most its
      left object and the right object itself. */
  lemma StepFacts(cfg: LinkConfig, st: LinkState, o: Obj, g: Getter)
    requires o in st.heap && forall k | k in cfg.left :: cfg.left[k] in st.heap
    requires st.getKey == Some(g) || (st.getKey.None? && MakeGetter(o.kind, cfg.keyRight) == Ok(g))
    requires LinkStep(cfg, st, o).failure.None?
    ensures var k := Apply(g, o.kind, st.heap[o]);
            var r := LinkStep(cfg, st, o).state;
            && k.Ok? && Hashable(k.value) && r.getKey == Some(g)
            && (k.value !in cfg.left ==> r.heap == st.heap && r.orphans == st.orphans + [o])
            && (k.value in cfg.left ==>
                  && r.orphans == st.orphans
                  && forall x | x in st.heap && x != o && x != cfg.left[k.value] :: r.heap[x] == st.heap[x])
  {
  }

  /** The shape of a run that raised nothing so far: the getter comes from
      the first right object and the right objects not yet visited are as
      they were. */
  lemma RunShape(cfg: LinkConfig, heap: Heap, rights: seq<Obj>, n: nat)
    requires n <= |rights| && Covers(heap, cfg, rights) && Separate(cfg, rights)
    requires LinkRun(cfg, heap, rights, n).failure.None?
    ensures var st := LinkRun(cfg, heap, rights, n).state;
            && (n == 0 ==> st.getKey.None?)
            && (n > 0 ==> MakeGetter(rights[0].kind, cfg.keyRight).Ok?
                          && st.getKey == Some(MakeGetter(rights[0].kind, cfg.keyRight).value))
            && (forall j | n <= j < |rights| :: st.heap[rights[j]] == heap[rights[j]])
  {
    if n != 0 {
      var m := n - 1;
      SameRun(cfg, heap, rights, m + 1, n);
      LinkRunNext(cfg, heap, rights, m);
      var prev := LinkRun(cfg, heap, rights, m);
      assert prev.failure.None?;
      RunShape(cfg, heap, rights, m);
      var o := rights[m];
      var g := MakeGetter(rights[0].kind, cfg.keyRight);
      if m == 0 {
        assert prev.state.getKey.None?;
        assert g.Ok?;
      }
      StepFacts(cfg, prev.state, o, g.value);
    }
  }

  /** The step for the m-th right object, in terms of its key before `link`. */
  lemma StepAt(cfg: LinkConfig, heap: Heap, rights: seq<Obj>, m: nat)
    requires m < |rights| && Covers(heap, cfg, rights) && Separate(cfg, rights)
    requires LinkRun(cfg, heap, rights, m + 1).failure.None?
    ensures LinkRun(cfg, heap, rights, m).failure.None?
    ensures var prev := LinkRun(cfg, heap, rights, m).state;
            var k := RightKey(cfg, heap, rights, m);
            var r := LinkRun(cfg, heap, rights, m + 1).state;
            && k.Ok? && Hashable(k.value)
            && (k.value !in cfg.left ==> r.heap == prev.heap && r.orphans == prev.orphans + [rights[m]])
            && (k.value in cfg.left ==>
                  && r.orphans == prev.orphans
                  && forall x | x in prev.heap && x != rights[m] && x != cfg.left[k.value] :: r.heap[x] == prev.heap[x])
  {
    LinkRunNext(cfg, heap, rights, m);
    var prev := LinkRun(cfg, heap, rights, m);
    assert prev.failure.None?;
    RunShape(cfg, heap, rights, m);
    var o := rights[m];
    var g := MakeGetter(rights[0].kind, cfg.keyRight);
    if m == 0 {
      assert g.Ok?;
    }
    StepFacts(cfg, prev.state, o, g.value);
  }

  /** The m-th step, as far as the orphans are concerned. */
  lemma StepOrphan(cfg: LinkConfig, heap: Heap, rights: seq<Obj>, m: nat)
    requires m < |rights| && Covers(heap, cfg, rights) && Separate(cfg, rights)
    requires LinkRun(cfg, heap, rights, m + 1).failure.None?
    ensures LinkRun(cfg, heap, rights, m).failure.None?
    ensures RightKey(cfg, heap, rights, m).Ok? && Hashable(RightKey(cfg, heap, rights, m).value)
    ensures LinkRun(cfg, heap, rights, m + 1).state.orphans ==
            LinkRun(cfg, heap, rights, m).state.orphans
              + (if Target(cfg, heap, rights, m).None? then [rights[m]] else [])
  {
    StepAt(cfg, heap, rights, m);
  }

  /** Every key of a run that raised nothing was readable and hashable, and
      the orphans are the right objects that found no left object, in
      order. */
  lemma RunOrphans(cfg: LinkConfig, heap: Heap, rights: seq<Obj>, n: nat)
    requires n <= |rights| && Covers(heap, cfg, rights) && Separate(cfg, rights)
    requires LinkRun(cfg, heap, rights, n).failure.None?
    ensures forall j | 0 <= j < n :: RightKey(cfg, heap, rights, j).Ok? && Hashable(RightKey(cfg, heap, rights, j).value)
    ensures LinkRun(cfg, heap, rights, n).state.orphans == Orphans(cfg, heap, rights, n)
  {
    if n != 0 {
      var m := n - 1;
      SameRun(cfg, heap, rights, m + 1, n);
      StepOrphan(cfg, heap, rights, m);
      RunOrphans(cfg, heap, rights, m);
      forall j | 0 <= j < n
        ensures RightKey(cfg, heap, rights, j).Ok? && Hashable(RightKey(cfg, heap, rights, j).value)
      {
        if j == m {
          assert RightKey(cfg, heap, rights, j) == RightKey(cfg, heap, rights, m);
        }
      }
    }
  }

  /** The left setter of a step that raised nothing, for a right object
      that is not itself a left object. */
  lemma StepLeft(cfg: LinkConfig, st: LinkState, o: Obj, g: Getter)
    requires o in st.heap && forall k | k in cfg.left :: cfg.left[k] in st.heap
    requires o !in cfg.left.Values
    requires st.getKey == Some(g) || (st.getKey.None? && MakeGetter(o.kind, cfg.keyRight) == Ok(g))
    requires LinkStep(cfg, st, o).failure.None?
    requires Apply(g, o.kind, st.heap[o]).Ok? && Apply(g, o.kind, st.heap[o]).value in cfg.left
    ensures var l := cfg.left[Apply(g, o.kind, st.heap[o]).value];
            var ms := if st.setLeft.Some? then Ok(st.setLeft.value)
                      else MakeSetter(l.kind, cfg.typeLeft, cfg.dictkeyLeft, o.kind);
            var r := LinkStep(cfg, st, o).state;
            && ms.Ok? && r.setLeft == Some(ms.value)
            && Put(ms.value, st.heap, l, cfg.attrLeft, o).1.None?
            && r.heap[l] == Put(ms.value, st.heap, l, cfg.attrLeft, o).0[l]
  {
  }

  /** The right object after a step that raised nothing, when the right
      setter is a plain store (`type_on_right=None`, the default). */
  lemma StepRight(cfg: LinkConfig, st: LinkState, o: Obj, g: Getter)
    requires o in st.heap && forall k | k in cfg.left :: cfg.left[k] in st.heap
    requires o !in cfg.left.Values && cfg.typeRight == NoneType
    requires st.setRight.Some? ==> st.setRight.value.AssignItem? || st.setRight.value.AssignAttr?
    requires st.getKey == Some(g) || (st.getKey.None? && MakeGetter(o.kind, cfg.keyRight) == Ok(g))
    requires LinkStep(cfg, st, o).failure.None?
    ensures var k := Apply(g, o.kind, st.heap[o]);
            var r := LinkStep(cfg, st, o).state;
            && k.Ok? && Hashable(k.value)
            && (r.setRight.Some? ==> r.setRight.value.AssignItem? || r.setRight.value.AssignAttr?)
            && r.heap[o] == if k.value in cfg.left && LinksBack(cfg)
                            then st.heap[o][cfg.attrRight.value := Ref(cfg.left[k.value])]
                            else st.heap[o]
  {
    var kv := Apply(g, o.kind, st.heap[o]);
    if kv.Ok? && Hashable(kv.value) && kv.value in cfg.left {
      var l := cfg.left[kv.value];
      var ms := if st.setLeft.Some? then Ok(st.setLeft.value)
                else MakeSetter(l.kind, cfg.typeLeft, cfg.dictkeyLeft, o.kind);
      if ms.Ok? {
        var h2 := Put(ms.value, st.heap, l, cfg.attrLeft, o).0;
        assert h2[o] == st.heap[o];
        if LinksBack(cfg) {
          var mr := if st.setRight.Some? then Ok(st.setRight.value)
                    else MakeSetter(o.kind, cfg.typeRight, Other(false), l.kind);
          if mr.Ok? {
            PutAssign(mr.value, h2, o, cfg.attrRight.value, l);
          }
        }
      }
    }
  }

  /** A plain store that raised nothing put `Ref(src)` under `attr`. */
  lemma PutAssign(s: Setter, heap: Heap, tgt: Obj, attr: string, src: Obj)
    requires tgt in heap && src in heap && (s.AssignItem? || s.AssignAttr?)
    requires Put(s, heap, tgt, attr, src).1.None?
    ensures Put(s, heap, tgt, attr, src).0[tgt] == heap[tgt][attr := Ref(src)]
  {
  }

  /** The step for the m-th right object, with the getter the run built. */
  lemma StepAtShape(cfg: LinkConfig, heap: Heap, rights: seq<Obj>, m: nat)
    requires m < |rights| && Covers(heap, cfg, rights) && Separate(cfg, rights)
    requires LinkRun(cfg, heap, rights, m + 1).failure.None?
    ensures LinkRun(cfg, heap, rights, m).failure.None?
    ensures MakeGetter(rights[0].kind, cfg.keyRight).Ok?
    ensures var g := MakeGetter(rights[0].kind, cfg.keyRight).value;
            var prev := LinkRun(cfg, heap, rights, m).state;
            && (prev.getKey == Some(g) || (prev.getKey.None? && MakeGetter(rights[m].kind, cfg.keyRight) == Ok(g)))
            && prev.heap[rights[m]] == heap[rights[m]]
            && LinkRun(cfg, heap, rights, m + 1) == LinkStep(cfg, prev, rights[m])
            && RightKey(cfg, heap, rights, m) == Apply(g, rights[m].kind, prev.heap[rights[m]])
  {
    LinkRunNext(cfg, heap, rights, m);
    RunShape(cfg, heap, rights, m);
    if m == 0 {
      assert MakeGetter(rights[0].kind, cfg.keyRight).Ok?;
    }
  }

  /** What a list attribute holds before appending: its items, or nothing
      when it is absent or `None`. */
  function ListBase(f: map<string, Value>, attr: string): seq<Value> {
    if attr in f && f[attr].ListOf? then f[attr].items else []
  }

  function Refs(objs: seq<Obj>): (r: seq<Value>)
    ensures |r| == |objs| && forall i | 0 <= i < |objs| :: r[i] == Ref(objs[i])
  {
    if objs == [] then [] else Refs(objs[..|objs| - 1]) + [Ref(objs[|objs| - 1])]
  }

  /** A left object after its matches were appended to its list. */
  function Appended(f: map<string, Value>, attr: string, ms: seq<Obj>): map<string, Value> {
    if ms == [] then f else f[attr := ListOf(ListBase(f, attr) + Refs(ms))]
  }

  lemma RefsSnoc(ms: seq<Obj>, o: Obj)
    ensures Refs(ms + [o]) == Refs(ms) + [Ref(o)]
  {
    assert (ms + [o])[..|ms|] == ms;
  }

  lemma AppendedSnoc(f: map<string, Value>, attr: string, ms: seq<Obj>, o: Obj)
    ensures Appended(f, attr, ms + [o])
            == Appended(f, attr, ms)[attr := ListOf(ListBase(Appended(f, attr, ms), attr) + [Ref(o)])]
  {
    RefsSnoc(ms, o);
    assert ms + [o] != [];
    if ms == [] {
      assert Refs(ms) == [];
      assert Refs(ms + [o]) == [Ref(o)];
    } else {
      var base := ListBase(f, attr);
      assert ListBase(Appended(f, attr, ms), attr) == base + Refs(ms);
      assert base + (Refs(ms) + [Ref(o)]) == (base + Refs(ms)) + [Ref(o)];
    }
  }

  /** The target types whose setter writes one value per match: a list
      that grows (`list`, the default) or a plain store (`None`). */
  predicate Simple(tt: TargetType) {
    tt == ListType || tt == NoneType
  }

  /** The setters `_get_setter` builds for such a target type. */
  predicate Fits(tt: TargetType, s: Setter) {
    if tt == ListType then s.AppendItem? || s.AppendAttr? else s.AssignItem? || s.AssignAttr?
  }

  /** A left object's fields after one more match `o`. */
  function Added(tt: TargetType, f: map<string, Value>, attr: string, o: Obj): map<string, Value> {
    if tt == ListType then f[attr := ListOf(ListBase(f, attr) + [Ref(o)])] else f[attr := Ref(o)]
  }

  /** A left object's fields after the matches `ms`, in order: all of them
      appended to its list, or the last one stored. */
  function Linked(tt: TargetType, f: map<string, Value>, attr: string, ms: seq<Obj>): map<string, Value> {
    if tt == ListType then Appended(f, attr, ms)
    else if ms == [] then f
    else f[attr := Ref(ms[|ms| - 1])]
  }

  lemma LinkedSnoc(tt: TargetType, f: map<string, Value>, attr: string, ms: seq<Obj>, o: Obj)
    ensures Linked(tt, f, attr, ms + [o]) == Added(tt, Linked(tt, f, attr, ms), attr, o)
  {
    if tt == ListType {
      AppendedSnoc(f, attr, ms, o);
    } else if ms != [] {
      var g := f[attr := Ref(ms[|ms| - 1])];
      assert g[attr := Ref(o)] == f[attr := Ref(o)];
    }
  }

  /** A setter of such a type that raised nothing adds one match. */
  lemma PutOne(tt: TargetType, s: Setter, heap: Heap, l: Obj, attr: string, o: Obj)
    requires Fits(tt, s)
    requires l in heap && o in heap && Put(s, heap, l, attr, o).1.None?
    ensures Put(s, heap, l, attr, o).0[l] == Added(tt, heap[l], attr, o)
  {
    var f := heap[l];
    if tt == ListType {
      if attr in f && f[attr].ListOf? {
        assert ListBase(f, attr) == f[attr].items;
      } else {
        assert ListBase(f, attr) == [];
        assert ListBase(f, attr) + [Ref(o)] == [Ref(o)];
      }
    }
  }

  /** A step with such a target type that finds the left object adds the
      right object to it. */
  lemma LeftStep(cfg: LinkConfig, st: LinkState, o: Obj, g: Getter)
    requires Simple(cfg.typeLeft)
    requires o in st.heap && forall k | k in cfg.left :: cfg.left[k] in st.heap
    requires o !in cfg.left.Values
    requires st.getKey == Some(g) || (st.getKey.None? && MakeGetter(o.kind, cfg.keyRight) == Ok(g))
    requires st.setLeft.Some? ==> Fits(cfg.typeLeft, st.setLeft.value)
    requires LinkStep(cfg, st, o).failure.None?
    requires Apply(g, o.kind, st.heap[o]).Ok? && Apply(g, o.kind, st.heap[o]).value in cfg.left
    ensures var l := cfg.left[Apply(g, o.kind, st.heap[o]).value];
            var r := LinkStep(cfg, st, o).state;
            && (r.setLeft.Some? ==> Fits(cfg.typeLeft, r.setLeft.value))
            && r.heap[l] == Added(cfg.typeLeft, st.heap[l], cfg.attrLeft, o)
  {
    StepLeft(cfg, st, o, g);
    var l := cfg.left[Apply(g, o.kind, st.heap[o]).value];
    var s := if st.setLeft.Some? then st.setLeft.value else MakeSetter(l.kind, cfg.typeLeft, cfg.dictkeyLeft, o.kind).value;
    PutOne(cfg.typeLeft, s, st.heap, l, cfg.attrLeft, o);
  }

  /** The m-th step, when the m-th right object finds its left object. */
  lemma LeftHit(cfg: LinkConfig, heap: Heap, rights: seq<Obj>, m: nat)
    requires Simple(cfg.typeLeft)
    requires m < |rights| && Covers(heap, cfg, rights) && Separate(cfg, rights)
    requires LinkRun(cfg, heap, rights, m + 1).failure.None?
    requires var prev := LinkRun(cfg, heap, rights, m).state;
             prev.setLeft.Some? ==> Fits(cfg.typeLeft, prev.setLeft.value)
    requires Target(cfg, heap, rights, m).Some?
    ensures var prev := LinkRun(cfg, heap, rights, m).state;
            var st := LinkRun(cfg, heap, rights, m + 1).state;
            var l := Target(cfg, heap, rights, m).value;
            && (st.setLeft.Some? ==> Fits(cfg.typeLeft, st.setLeft.value))
            && st.heap[l] == Added(cfg.typeLeft, prev.heap[l], cfg.attrLeft, rights[m])
  {
    StepAtShape(cfg, heap, rights, m);
    var g := MakeGetter(rights[0].kind, cfg.keyRight).value;
    var prev := LinkRun(cfg, heap, rights, m).state;
    LeftStep(cfg, prev, rights[m], g);
  }

  /** The m-th step, seen from one left object `x`. */
  lemma LeftStepAt(cfg: LinkConfig, heap: Heap, rights: seq<Obj>, m: nat, x: Obj)
    requires Simple(cfg.typeLeft) && x in cfg.left.Values
    requires m < |rights| && Covers(heap, cfg, rights) && Separate(cfg, rights)
    requires LinkRun(cfg, heap, rights, m + 1).failure.None?
    requires var prev := LinkRun(cfg, heap, rights, m).state;
             && (prev.setLeft.Some? ==> Fits(cfg.typeLeft, prev.setLeft.value))
             && prev.heap[x] == Linked(cfg.typeLeft, heap[x], cfg.attrLeft, Matched(cfg, heap, rights, m, x))
    ensures var st := LinkRun(cfg, heap, rights, m + 1).state;
            && (st.setLeft.Some? ==> Fits(cfg.typeLeft, st.setLeft.value))
            && st.heap[x] == Linked(cfg.typeLeft, heap[x], cfg.attrLeft, Matched(cfg, heap, rights, m + 1, x))
  {
    StepAt(cfg, heap, rights, m);
    var o := rights[m];
    var ms := Matched(cfg, heap, rights, m, x);
    var t := Target(cfg, heap, rights, m);
    if t.Some? {
      LeftHit(cfg, heap, rights, m);
      if x == t.value {
        assert Matched(cfg, heap, rights, m + 1, x) == ms + [o];
        LinkedSnoc(cfg.typeLeft, heap[x], cfg.attrLeft, ms, o);
      } else {
        assert x != o;
        assert Matched(cfg, heap, rights, m + 1, x) == ms;
      }
    } else {
      StepAtShape(cfg, heap, rights, m);
      assert Matched(cfg, heap, rights, m + 1, x) == ms;
    }
  }

  /** A run that raised nothing on `m + 1` right objects raised nothing on
      the first `m`. */
  lemma PrefixOk(cfg: LinkConfig, heap: Heap, rights: seq<Obj>, m: nat)
    requires m < |rights| && Covers(heap, cfg, rights)
    requires LinkRun(cfg, heap, rights, m + 1).failure.None?
    ensures LinkRun(cfg, heap, rights, m).failure.None?
  {
    LinkRunNext(cfg, heap, rights, m);
  }

  /** The m-th step keeps the left setter one `_get_setter` builds for a
      list or plain target type. */
  lemma LeftSetterStep(cfg: LinkConfig, heap: Heap, rights: seq<Obj>, m: nat)
    requires Simple(cfg.typeLeft)
    requires m < |rights| && Covers(heap, cfg, rights) && Separate(cfg, rights)
    requires LinkRun(cfg, heap, rights, m + 1).failure.None?
    requires var prev := LinkRun(cfg, heap, rights, m).state;
             prev.setLeft.Some? ==> Fits(cfg.typeLeft, prev.setLeft.value)
    ensures var st := LinkRun(cfg, heap, rights, m + 1).state;
            st.setLeft.Some? ==> Fits(cfg.typeLeft, st.setLeft.value)
  {
    if Target(cfg, heap, rights, m).Some? {
      LeftHit(cfg, heap, rights, m);
    } else {
      StepAtShape(cfg, heap, rights, m);
      StepAt(cfg, heap, rights, m);
    }
  }

  /** With `type_on_left=list` (the default) each left object's attribute
      ends up as its old list, or a new one, followed by every right object
      that found it, in order; with `type_on_left=None` it holds the last
      right object that found it. Left objects nothing found are
      unchanged. */
  lemma LeftLinks(cfg: LinkConfig, heap: Heap, rights: seq<Obj>, n: nat)
    requires Simple(cfg.typeLeft)
    requires n <= |rights| && Covers(heap, cfg, rights) && Separate(cfg, rights)
    requires LinkRun(cfg, heap, rights, n).failure.None?
    ensures var st := LinkRun(cfg, heap, rights, n).state;
            && (st.setLeft.Some? ==> Fits(cfg.typeLeft, st.setLeft.value))
            && forall k | k in cfg.left ::
                 st.heap[cfg.left[k]] == Linked(cfg.typeLeft, heap[cfg.left[k]], cfg.attrLeft, Matched(cfg, heap, rights, n, cfg.left[k]))
  {
    if n != 0 {
      var m := n - 1;
      SameRun(cfg, heap, rights, m + 1, n);
      PrefixOk(cfg, heap, rights, m);
      LeftLinks(cfg, heap, rights, m);
      LeftSetterStep(cfg, heap, rights, m);
      var st := LinkRun(cfg, heap, rights, n).state;
      forall k | k in cfg.left
        ensures st.heap[cfg.left[k]] == Linked(cfg.typeLeft, heap[cfg.left[k]], cfg.attrLeft, Matched(cfg, heap, rights, n, cfg.left[k]))
      {
        LeftStepAt(cfg, heap, rights, m, cfg.left[k]);
      }
    }
  }

  /** What a dict attribute holds before a store: its entries, or none
      when it is absent or `None`. */
  function DictBase(f: map<string, Value>, attr: string): map<Value, Value> {
    if attr in f && f[attr].DictOf? then f[attr].entries else map[]
  }

  /** The dict key of a right object, read with the dict-key getter. */
  function DictKeyOf(dg: Getter, o: Obj, heap: Heap): Value
    requires o in heap
  {
    var k := Apply(dg, o.kind, heap[o]);
    if k.Ok? then k.value else NoneValue
  }

  /** The entries the matches `ms` store, a later one replacing an earlier
      one with the same dict key. */
  function Filed(dg: Getter, ms: seq<Obj>, heap: Heap): map<Value, Value>
    requires forall o | o in ms :: o in heap
  {
    if ms == [] then map[]
    else Filed(dg, ms[..|ms| - 1], heap)[DictKeyOf(dg, ms[|ms| - 1], heap) := Ref(ms[|ms| - 1])]
  }

  /** A left object's fields after the dict-mode matches `ms`. */
  function DictLinked(dg: Getter, f: map<string, Value>, attr: string, ms: seq<Obj>, heap: Heap): map<string, Value>
    requires forall o | o in ms :: o in heap
  {
    if ms == [] then f else f[attr := DictOf(DictBase(f, attr) + Filed(dg, ms, heap))]
  }

  lemma UnionUpdate(b: map<Value, Value>, m: map<Value, Value>, k: Value, v: Value)
    ensures (b + m)[k := v] == b + m[k := v]
  {
    var x := (b + m)[k := v];
    var y := b + m[k := v];
    assert x.Keys == y.Keys;
    forall i | i in x.Keys ensures x[i] == y[i] {
    }
  }

  lemma DictLinkedSnoc(dg: Getter, f: map<string, Value>, attr: string, ms: seq<Obj>, o: Obj, heap: Heap)
    requires o in heap && forall x | x in ms :: x in heap
    ensures var g := DictLinked(dg, f, attr, ms, heap);
            DictLinked(dg, f, attr, ms + [o], heap)
            == g[attr := DictOf(DictBase(g, attr)[DictKeyOf(dg, o, heap) := Ref(o)])]
  {
    var ms' := ms + [o];
    assert ms'[..|ms'| - 1] == ms;
    var k := DictKeyOf(dg, o, heap);
    var b := DictBase(f, attr);
    var fm := Filed(dg, ms, heap);
    assert Filed(dg, ms', heap) == fm[k := Ref(o)];
    UnionUpdate(b, fm, k, Ref(o));
    if ms == [] {
      assert fm == map[];
      assert b + fm == b;
    } else {
      var g := DictLinked(dg, f, attr, ms, heap);
      assert g == f[attr := DictOf(b + fm)];
      assert DictBase(g, attr) == b + fm;
    }
  }

  /** A dict-mode step that finds the left object: the left object is an
      instance (a dict left raises `NotImplementedError` or
      `AttributeError`), and the right object is stored under its dict key
      in the left object's dict, which is created when absent. */
  lemma DictStep(cfg: LinkConfig, st: LinkState, o: Obj, g: Getter, rk: Kind)
    requires cfg.typeLeft == DictType && o.kind == rk
    requires o in st.heap && forall k | k in cfg.left :: cfg.left[k] in st.heap
    requires o !in cfg.left.Values
    requires st.getKey == Some(g) || (st.getKey.None? && MakeGetter(o.kind, cfg.keyRight) == Ok(g))
    requires st.setLeft.Some? ==> MakeGetter(rk, cfg.dictkeyLeft).Ok? && st.setLeft.value == KeyedAttr(MakeGetter(rk, cfg.dictkeyLeft).value)
    requires LinkStep(cfg, st, o).failure.None?
    requires Apply(g, o.kind, st.heap[o]).Ok? && Apply(g, o.kind, st.heap[o]).value in cfg.left
    ensures var l := cfg.left[Apply(g, o.kind, st.heap[o]).value];
            var dg := MakeGetter(rk, cfg.dictkeyLeft);
            var r := LinkStep(cfg, st, o).state;
            && l.kind == Instance && dg.Ok?
            && r.setLeft == Some(KeyedAttr(dg.value))
            && Apply(dg.value, rk, st.heap[o]).Ok? && Hashable(Apply(dg.value, rk, st.heap[o]).value)
            && r.heap[l] == st.heap[l][cfg.attrLeft := DictOf(DictBase(st.heap[l], cfg.attrLeft)[DictKeyOf(dg.value, o, st.heap) := Ref(o)])]
  {
    StepLeft(cfg, st, o, g);
    var l := cfg.left[Apply(g, o.kind, st.heap[o]).value];
    assert l != o;
    var ms := if st.setLeft.Some? then Ok(st.setLeft.value)
              else MakeSetter(l.kind, cfg.typeLeft, cfg.dictkeyLeft, o.kind);
    assert MakeGetter(rk, cfg.dictkeyLeft).Ok? && ms.value == KeyedAttr(MakeGetter(rk, cfg.dictkeyLeft).value);
    PutKeyed(MakeGetter(rk, cfg.dictkeyLeft).value, st.heap, l, cfg.attrLeft, o);
  }

  /** A dict-mode store that raised nothing went into an instance, read a
      hashable key from `src`, and put `src` under that key. */
  lemma PutKeyed(dg: Getter, heap: Heap, tgt: Obj, attr: string, src: Obj)
    requires tgt in heap && src in heap && tgt != src
    requires Put(KeyedAttr(dg), heap, tgt, attr, src).1.None?
    ensures tgt.kind == Instance
    ensures Apply(dg, src.kind, heap[src]).Ok? && Hashable(Apply(dg, src.kind, heap[src]).value)
    ensures Put(KeyedAttr(dg), heap, tgt, attr, src).0[tgt]
            == heap[tgt][attr := DictOf(DictBase(heap[tgt], attr)[DictKeyOf(dg, src, heap) := Ref(src)])]
  {
    var f := heap[tgt];
    if AttrOr(f, attr) != NoneValue {
      assert f[attr].DictOf?;
      assert DictBase(f, attr) == f[attr].entries;
    }
  }

  /** The m-th dict-mode step, when the m-th right object finds its left
      object. */
  lemma DictHit(cfg: LinkConfig, heap: Heap, rights: seq<Obj>, m: nat, rk: Kind)
    requires cfg.typeLeft == DictType && OfKind(rights, rk)
    requires m < |rights| && Covers(heap, cfg, rights) && Separate(cfg, rights)
    requires LinkRun(cfg, heap, rights, m + 1).failure.None?
    requires var prev := LinkRun(cfg, heap, rights, m).state;
             prev.setLeft.Some? ==> MakeGetter(rk, cfg.dictkeyLeft).Ok? && prev.setLeft.value == KeyedAttr(MakeGetter(rk, cfg.dictkeyLeft).value)
    requires Target(cfg, heap, rights, m).Some?
    ensures var prev := LinkRun(cfg, heap, rights, m).state;
            var st := LinkRun(cfg, heap, rights, m + 1).state;
            var l := Target(cfg, heap, rights, m).value;
            var dg := MakeGetter(rk, cfg.dictkeyLeft);
            && l.kind == Instance && dg.Ok?
            && st.setLeft == Some(KeyedAttr(dg.value))
            && st.heap[l] == prev.heap[l][cfg.attrLeft := DictOf(DictBase(prev.heap[l], cfg.attrLeft)[DictKeyOf(dg.value, rights[m], heap) := Ref(rights[m])])]
  {
    StepAtShape(cfg, heap, rights, m);
    var g := MakeGetter(rights[0].kind, cfg.keyRight).value;
    var prev := LinkRun(cfg, heap, rights, m).state;
    assert rights[m].kind == rk;
    DictStep(cfg, prev, rights[m], g, rk);
  }

  /** The m-th dict-mode step, seen from one left object `x`. */
  lemma DictStepAt(cfg: LinkConfig, heap: Heap, rights: seq<Obj>, m: nat, rk: Kind, x: Obj)
    requires cfg.typeLeft == DictType && OfKind(rights, rk) && x in cfg.left.Values
    requires m < |rights| && Covers(heap, cfg, rights) && Separate(cfg, rights)
    requires LinkRun(cfg, heap, rights, m + 1).failure.None?
    requires var prev := LinkRun(cfg, heap, rights, m).state;
             var dg := MakeGetter(rk, cfg.dictkeyLeft);
             var ms := Matched(cfg, heap, rights, m, x);
             && (prev.setLeft.Some? ==> dg.Ok? && prev.setLeft.value == KeyedAttr(dg.value))
             && (ms == [] ==> prev.heap[x] == heap[x])
             && (ms != [] ==> x.kind == Instance && dg.Ok? && prev.heap[x] == DictLinked(dg.value, heap[x], cfg.attrLeft, ms, heap))
    ensures var st := LinkRun(cfg, heap, rights, m + 1).state;
            var dg := MakeGetter(rk, cfg.dictkeyLeft);
            var ms := Matched(cfg, heap, rights, m + 1, x);
            && (st.setLeft.Some? ==> dg.Ok? && st.setLeft.value == KeyedAttr(dg.value))
            && (ms == [] ==> st.heap[x] == heap[x])
            && (ms != [] ==> x.kind == Instance && dg.Ok? && st.heap[x] == DictLinked(dg.value, heap[x], cfg.attrLeft, ms, heap))
  {
    StepAt(cfg, heap, rights, m);
    var o := rights[m];
    var ms := Matched(cfg, heap, rights, m, x);
    var t := Target(cfg, heap, rights, m);
    if t.Some? {
      DictHit(cfg, heap, rights, m, rk);
      if x == t.value {
        var dg := MakeGetter(rk, cfg.dictkeyLeft).value;
        assert Matched(cfg, heap, rights, m + 1, x) == ms + [o];
        DictLinkedSnoc(dg, heap[x], cfg.attrLeft, ms, o, heap);
        if ms == [] {
          assert DictLinked(dg, heap[x], cfg.attrLeft, ms, heap) == heap[x];
        }
      } else {
        assert x != o;
        assert Matched(cfg, heap, rights, m + 1, x) == ms;
      }
    } else {
      StepAtShape(cfg, heap, rights, m);
      assert Matched(cfg, heap, rights, m + 1, x) == ms;
    }
  }

  /** The m-th dict-mode step keeps the left setter the one that stores
      under the `dictkey_attrname_left` key. */
  lemma DictSetterStep(cfg: LinkConfig, heap: Heap, rights: seq<Obj>, m: nat, rk: Kind)
    requires cfg.typeLeft == DictType && OfKind(rights, rk)
    requires m < |rights| && Covers(heap, cfg, rights) && Separate(cfg, rights)
    requires LinkRun(cfg, heap, rights, m + 1).failure.None?
    requires var prev := LinkRun(cfg, heap, rights, m).state;
             var dg := MakeGetter(rk, cfg.dictkeyLeft);
             prev.setLeft.Some? ==> dg.Ok? && prev.setLeft.value == KeyedAttr(dg.value)
    ensures var st := LinkRun(cfg, heap, rights, m + 1).state;
            var dg := MakeGetter(rk, cfg.dictkeyLeft);
            st.setLeft.Some? ==> dg.Ok? && st.setLeft.value == KeyedAttr(dg.value)
  {
    if Target(cfg, heap, rights, m).Some? {
      DictHit(cfg, heap, rights, m, rk);
    } else {
      StepAtShape(cfg, heap, rights, m);
      StepAt(cfg, heap, rights, m);
    }
  }

  /** With `type_on_left=dict` and right objects of one kind, `link`
      raises unless every left object that is found is an instance; each
      such object's attribute is then a dict holding its old entries and,
      under each right object's `dictkey_attrname_left` key, the last right
      object with that key. Left objects nothing found are unchanged. */
  lemma DictLinks(cfg: LinkConfig, heap: Heap, rights: seq<Obj>, n: nat, rk: Kind)
    requires cfg.typeLeft == DictType && OfKind(rights, rk)
    requires n <= |rights| && Covers(heap, cfg, rights) && Separate(cfg, rights)
    requires LinkRun(cfg, heap, rights, n).failure.None?
    ensures var st := LinkRun(cfg, heap, rights, n).state;
            var dg := MakeGetter(rk, cfg.dictkeyLeft);
            && (st.setLeft.Some? ==> dg.Ok? && st.setLeft.value == KeyedAttr(dg.value))
            && forall k | k in cfg.left ::
                 var x := cfg.left[k];
                 var ms := Matched(cfg, heap, rights, n, x);
                 && (ms == [] ==> st.heap[x] == heap[x])
                 && (ms != [] ==> x.kind == Instance && dg.Ok? && st.heap[x] == DictLinked(dg.value, heap[x], cfg.attrLeft, ms, heap))
  {
    if n != 0 {
      var m := n - 1;
      SameRun(cfg, heap, rights, m + 1, n);
      PrefixOk(cfg, heap, rights, m);
      DictLinks(cfg, heap, rights, m, rk);
      DictSetterStep(cfg, heap, rights, m, rk);
      forall k | k in cfg.left {
        DictStepAt(cfg, heap, rights, m, rk, cfg.left[k]);
      }
    }
  }

  /** The j-th right object after `link`: with `attrname_on_right` set it
      points back at the left object it found; otherwise it is as it was. */
  function LinkedBack(cfg: LinkConfig, heap: Heap, rights: seq<Obj>, j: nat): map<string, Value>
    requires j < |rights| && Covers(heap, cfg, rights)
  {
    var t := Target(cfg, heap, rights, j);
    if t.Some? && LinksBack(cfg) then heap[rights[j]][cfg.attrRight.value := Ref(t.value)]
    else heap[rights[j]]
  }

  /** The m-th step sets the back reference of the m-th right object. */
  lemma RightStepAt(cfg: LinkConfig, heap: Heap, rights: seq<Obj>, m: nat)
    requires cfg.typeRight == NoneType
    requires m < |rights| && Covers(heap, cfg, rights) && Separate(cfg, rights)
    requires LinkRun(cfg, heap, rights, m + 1).failure.None?
    requires var prev := LinkRun(cfg, heap, rights, m).state;
             prev.setRight.Some? ==> prev.setRight.value.AssignItem? || prev.setRight.value.AssignAttr?
    ensures var st := LinkRun(cfg, heap, rights, m + 1).state;
            && (st.setRight.Some? ==> st.setRight.value.AssignItem? || st.setRight.value.AssignAttr?)
            && st.heap[rights[m]] == LinkedBack(cfg, heap, rights, m)
  {
    StepAtShape(cfg, heap, rights, m);
    var g := MakeGetter(rights[0].kind, cfg.keyRight).value;
    var prev := LinkRun(cfg, heap, rights, m).state;
    StepRight(cfg, prev, rights[m], g);
    var k := RightKey(cfg, heap, rights, m);
    assert k == Apply(g, rights[m].kind, prev.heap[rights[m]]);
    assert Target(cfg, heap, rights, m) == if k.value in cfg.left then Some(cfg.left[k.value]) else None;
  }

  /** The n-th step leaves the earlier right objects alone. */
  lemma RightKeep(cfg: LinkConfig, heap: Heap, rights: seq<Obj>, m: nat, j: nat)
    requires j < m < |rights| && Covers(heap, cfg, rights) && Separate(cfg, rights)
    requires LinkRun(cfg, heap, rights, m + 1).failure.None?
    ensures LinkRun(cfg, heap, rights, m + 1).state.heap[rights[j]] == LinkRun(cfg, heap, rights, m).state.heap[rights[j]]
  {
    StepAt(cfg, heap, rights, m);
    var k := RightKey(cfg, heap, rights, m);
    if k.value in cfg.left {
      var l := cfg.left[k.value];
      assert l in cfg.left.Values;
      assert rights[j] != l && rights[j] != rights[m];
      assert rights[j] in LinkRun(cfg, heap, rights, m).state.heap;
    }
  }

  /** The back references of the first `m` right objects and of the next
      one are those of the first `m + 1`. */
  lemma BackExtended(cfg: LinkConfig, heap: Heap, rights: seq<Obj>, h: Heap, m: nat)
    requires m < |rights| && Covers(heap, cfg, rights) && h.Keys == heap.Keys
    requires forall j {:trigger LinkedBack(cfg, heap, rights, j)} | 0 <= j < m :: h[rights[j]] == LinkedBack(cfg, heap, rights, j)
    requires h[rights[m]] == LinkedBack(cfg, heap, rights, m)
    ensures forall j {:trigger LinkedBack(cfg, heap, rights, j)} | 0 <= j < m + 1 :: h[rights[j]] == LinkedBack(cfg, heap, rights, j)
  {
  }

  /** With `type_on_right=None` (the default), every right object visited
      points back at the left object it found when `attrname_on_right` is
      set; the others, and all of them when it is not set, are unchanged. */
  lemma RightLinks(cfg: LinkConfig, heap: Heap, rights: seq<Obj>, n: nat)
    requires cfg.typeRight == NoneType
    requires n <= |rights| && Covers(heap, cfg, rights) && Separate(cfg, rights)
    requires LinkRun(cfg, heap, rights, n).failure.None?
    ensures var st := LinkRun(cfg, heap, rights, n).state;
            && (st.setRight.Some? ==> st.setRight.value.AssignItem? || st.setRight.value.AssignAttr?)
            && forall j {:trigger LinkedBack(cfg, heap, rights, j)} | 0 <= j < n :: st.heap[rights[j]] == LinkedBack(cfg, heap, rights, j)
  {
    if n != 0 {
      var m := n - 1;
      SameRun(cfg, heap, rights, m + 1, n);
      PrefixOk(cfg, heap, rights, m);
      RightLinks(cfg, heap, rights, m);
      RightStepAt(cfg, heap, rights, m);
      var h := LinkRun(cfg, heap, rights, m + 1).state.heap;
      forall j {:trigger LinkedBack(cfg, heap, rights, j)} | 0 <= j < m
        ensures h[rights[j]] == LinkedBack(cfg, heap, rights, j)
      {
        RightKeep(cfg, heap, rights, m, j);
      }
      BackExtended(cfg, heap, rights, h, m);
    }
  }

  // -------------------------------------------------------- initialize_lefts

  /** The empty value a target type stands for: `type()` for a callable
      type, `None` itself for `None`. */
  function EmptyFor(tt: TargetType): Value {
    match tt
    case ListType => ListOf([])
    case DictType => DictOf(map[])
    case NoneType => NoneValue
    case OtherType(made) => if made.Some? then made.value else NoneValue
  }

  /** An empty setter built for an object stores the empty value of its
      type, and with `check_empty` leaves a field that is already there. */
  lemma ClearMeaning(kind: Kind, tt: TargetType, checkEmpty: bool, f: map<string, Value>, attr: string)
    requires MakeEmptySetter(kind, tt, checkEmpty).Ok?
    ensures MakeEmptySetter(kind, tt, checkEmpty).value.access == AccessFor(kind)
    ensures var es := MakeEmptySetter(kind, tt, checkEmpty).value;
            var r := Clear(es, kind, f, attr);
            && r.Ok?
            && (attr in f && (checkEmpty || (kind == Mapping && tt != NoneType)) ==> r.value == f)
            && (attr !in f || !(checkEmpty || (kind == Mapping && tt != NoneType)) ==> r.value == f[attr := EmptyFor(tt)])
  {
  }

  /** An empty setter built for one kind of object raises on the other
      kind: one built for a mapping calls `has_key`, `setdefault` or item
      assignment on an object; one built for an object calls `setattr` on
      a dict. */
  lemma ClearOtherKind(kind: Kind, tt: TargetType, checkEmpty: bool, f: map<string, Value>, attr: string)
    requires MakeEmptySetter(kind, tt, checkEmpty).Ok?
    ensures var other := if kind == Mapping then Instance else Mapping;
            Clear(MakeEmptySetter(kind, tt, checkEmpty).value, other, f, attr)
            == if kind == Instance then Err(AttributeError(attr))
               else if checkEmpty then Err(AttributeError("has_key"))
               else if tt == NoneType then Err(TypeError(NoItemAssignment))
               else Err(AttributeError("setdefault"))
  {
  }

  /** All objects are of one kind. */
  ghost predicate OfKind(objs: seq<Obj>, kind: Kind) {
    forall i | 0 <= i < |objs| :: objs[i].kind == kind
  }

  /** A left object after `initialize_lefts`: given the empty value when
      it lacked the attribute, unchanged otherwise. */
  function Initialized(tt: TargetType, attr: string, heap: Heap, objs: seq<Obj>, o: Obj): map<string, Value>
    requires o in heap
  {
    if o in objs && attr !in heap[o] then heap[o][attr := EmptyFor(tt)] else heap[o]
  }

  /** One pass of that loop over an object of the kind the getter was
      built for. */
  lemma InitStepMeaning(attr: string, tt: TargetType, kind: Kind, st: InitOutcome, o: Obj)
    requires o in st.heap && o.kind == kind && st.failure.None?
    requires st.setter.Some? ==> MakeEmptySetter(kind, tt, false) == Ok(st.setter.value)
    ensures var r := InitStep(attr, tt, Getter(AccessFor(kind), attr, []), st, o);
            var f := st.heap[o];
            && (attr in f ==> r == st)
            && (attr !in f ==>
                  && (r.failure.Some? <==> tt == OtherType(None))
                  && (r.failure.Some? ==> r.failure == Some(NotImplemented))
                  && (r.setter.Some? ==> MakeEmptySetter(kind, tt, false) == Ok(r.setter.value))
                  && (r.failure.None? ==> r.heap == st.heap[o := f[attr := EmptyFor(tt)]]))
  {
    var f := st.heap[o];
    var g := Getter(AccessFor(kind), attr, []);
    assert g.Names() == [attr];
    FetchAllMeaning(g.access, [attr], f);
    if attr in f {
      assert Apply(g, kind, f).Ok?;
    } else {
      assert Apply(g, kind, f).Err?;
      if MakeEmptySetter(kind, tt, false).Ok? {
        ClearMeaning(kind, tt, false, f, attr);
      }
    }
  }

  /** The loop of `initialize_lefts` over objects of one kind fails
      exactly when the type is neither callable nor `None` and some object
      lacks the attribute, and then with `NotImplementedError`. */
  lemma {:induction false} InitRunMeaning(attr: string, tt: TargetType, kind: Kind, heap: Heap, objs: seq<Obj>)
    requires OfKind(objs, kind) && forall o | o in objs :: o in heap
    ensures var r := InitRun(attr, tt, Getter(AccessFor(kind), attr, []), heap, objs);
            && (r.failure.Some? <==> tt == OtherType(None) && exists o | o in objs :: attr !in heap[o])
            && (r.failure.Some? ==> r.failure == Some(NotImplemented))
            && (r.setter.Some? ==> MakeEmptySetter(kind, tt, false) == Ok(r.setter.value))
            && (r.failure.None? ==> forall o | o in heap :: r.heap[o] == Initialized(tt, attr, heap, objs, o))
  {
    var g := Getter(AccessFor(kind), attr, []);
    if objs != [] {
      var n := |objs| - 1;
      var p := objs[..n];
      var o := objs[n];
      assert objs == p + [o];
      assert OfKind(p, kind) by {
        forall i | 0 <= i < |p| ensures p[i].kind == kind {
          assert p[i] == objs[i];
        }
      }
      InitRunMeaning(attr, tt, kind, heap, p);
      var prev := InitRun(attr, tt, g, heap, p);
      if prev.failure.None? {
        InitStepMeaning(attr, tt, kind, prev, o);
        InitRunLast(attr, tt, kind, heap, p, o, prev);
      } else {
        var w :| w in p && attr !in heap[w];
        assert w in objs;
      }
    }
  }

  /** The step from the objects `p` to `p + [o]` when nothing failed on `p`. */
  lemma InitRunLast(attr: string, tt: TargetType, kind: Kind, heap: Heap, p: seq<Obj>, o: Obj, prev: InitOutcome)
    requires o.kind == kind && o in heap && forall x | x in p :: x in heap
    requires prev.failure.None? && prev.heap.Keys == heap.Keys
    requires (forall x | x in p :: attr in heap[x]) || tt != OtherType(None)
    requires forall x | x in heap :: prev.heap[x] == Initialized(tt, attr, heap, p, x)
    requires prev.setter.Some? ==> MakeEmptySetter(kind, tt, false) == Ok(prev.setter.value)
    ensures var r := InitStep(attr, tt, Getter(AccessFor(kind), attr, []), prev, o);
            && (r.failure.Some? <==> tt == OtherType(None) && exists x | x in p + [o] :: attr !in heap[x])
            && (r.failure.None? ==> forall x | x in heap :: r.heap[x] == Initialized(tt, attr, heap, p + [o], x))
  {
    InitStepMeaning(attr, tt, kind, prev, o);
    var f := prev.heap[o];
    var r := InitStep(attr, tt, Getter(AccessFor(kind), attr, []), prev, o);
    if attr in f {
      if o !in p {
        assert attr in heap[o];
      }
      forall x | x in heap ensures r.heap[x] == Initialized(tt, attr, heap, p + [o], x) {
        assert x in p + [o] <==> x in p || x == o;
      }
      if tt == OtherType(None) {
        assert forall x | x in p + [o] :: attr in heap[x];
      }
    } else {
      assert o !in p && attr !in heap[o];
      assert o in p + [o];
      forall x | x in heap ensures r.failure.None? ==> r.heap[x] == Initialized(tt, attr, heap, p + [o], x) {
        assert x in p + [o] <==> x in p || x == o;
      }
    }
  }

  /** `initialize_lefts` on left objects of one kind: it raises
      `NotImplementedError` exactly when the type is neither callable nor
      `None` and some left object lacks the attribute; otherwise each left
      object that lacked it has the empty value and nothing else changed. */
  lemma InitializeMeaning(attr: string, tt: TargetType, kind: Kind, heap: Heap, objs: seq<Obj>)
    requires OfKind(objs, kind) && forall o | o in objs :: o in heap
    ensures var r := Initialize(attr, tt, heap, objs);
            && (r.failure.Some? <==> tt == OtherType(None) && exists o | o in objs :: attr !in heap[o])
            && (r.failure.Some? ==> r.failure == Some(NotImplemented))
            && (r.failure.None? ==> forall o | o in heap :: r.heap[o] == Initialized(tt, attr, heap, objs, o))
  {
    if objs != [] {
      assert objs[0].kind == kind;
      InitRunMeaning(attr, tt, kind, heap, objs);
    }
  }
}
