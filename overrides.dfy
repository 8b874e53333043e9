/** `Overrides`: a table from key value to a working dict that poses as the
    left side of `Linker.link`. Linking a list of rows through it copies some
    of each row's fields into the working dict of the row's key, so that a
    second list linked after a first one overrides the values of the first.

    The working dicts are values here: the dict `get` returns and the dict
    the table holds are one dict in the source and two equal maps in the
    model. */
module Overrides {
  import opened Wrappers
  import opened Objects
  import opened Linker

  // ------------------------------------------------- attrnames normalisation

  /** One entry of `attrnames`: a field name, or a tuple that should hold a
      left name and a right name. */
  datatype AttrName = Plain(name: string) | Alias(names: seq<string>)

  /** `attrnames`: a list of entries, or one entry on its own. */
  datatype AttrNames = One(entry: AttrName) | Many(entries: seq<AttrName>)

  /** A lone entry is read as a list of one. */
  function Entries(a: AttrNames): seq<AttrName> {
    match a
    case One(e) => [e]
    case Many(es) => es
  }

  /** The `(left, right)` pair an entry stands for: a name is copied to
      itself, a pair `(l, r)` copies `r` to `l`, and a tuple of any other
      length fails to unpack. */
  function PairOf(e: AttrName): Result<(string, string), Error> {
    match e
    case Plain(n) => Ok((n, n))
    case Alias(ns) => if |ns| == 2 then Ok((ns[0], ns[1])) else Err(ValueError)
  }

  /** `_mapping`: the pairs of all entries, in their order. */
  function Normalize(es: seq<AttrName>): (r: Result<seq<(string, string)>, Error>)
    ensures r.Ok? <==> forall i | 0 <= i < |es| :: PairOf(es[i]).Ok?
    ensures r.Err? ==> r.error == ValueError
    ensures r.Ok? ==> |r.value| == |es| && forall i | 0 <= i < |es| :: r.value[i] == PairOf(es[i]).value
  {
    if es == [] then Ok([])
    else
      var n := |es| - 1;
      assert forall i | 0 <= i < n :: es[..n][i] == es[i];
      match Normalize(es[..n])
      case Err(e) => Err(e)
      case Ok(ps) =>
        match PairOf(es[n])
        case Err(e) => Err(e)
        case Ok(p) => Ok(ps + [p])
  }

  /** The loop of `__init__` that builds `_mapping`. */
  method NormalizeNames(a: AttrNames) returns (r: Result<seq<(string, string)>, Error>)
    ensures r == Normalize(Entries(a))
  {
    var es := Entries(a);
    var mapping: seq<(string, string)> := [];
    var i := 0;
    while i < |es|
      invariant 0 <= i <= |es|
      invariant Normalize(es[..i]) == Ok(mapping)
    {
      assert es[..i + 1][..i] == es[..i];
      var p := PairOf(es[i]);
      if p.Err? {
        assert Normalize(es[..i + 1]).Err?;
        assert !PairOf(es[i]).Ok?;
        return Err(ValueError);
      }
      mapping := mapping + [p.value];
      i := i + 1;
    }
    assert es[..i] == es;
    return Ok(mapping);
  }

  // ----------------------------------------------------------------- setters

  /** A source row as a setter sees it. */
  datatype Row = Row(kind: Kind, fields: map<string, Value>)

  function RowOf(o: Obj): Row
    reads o
  {
    Row(o.kind, o.fields)
  }

  function Rows(objs: seq<Obj>): (r: seq<Row>)
    reads set o | o in objs
    ensures |r| == |objs| && forall i | 0 <= i < |objs| :: r[i] == RowOf(objs[i])
  {
    if objs == [] then [] else Rows(objs[..|objs| - 1]) + [RowOf(objs[|objs| - 1])]
  }

  /** How the setters read a source: by item for `type_right=dict`, by
      attribute otherwise. */
  function SourceAccess(fromDict: bool): Access {
    if fromDict then ByItem else ByAttr
  }

  /** `o_right[name]` or `getattr(o_right, name)`. */
  function Fetch(access: Access, row: Row, name: string): Result<Value, Error> {
    Apply(Getter(access, name, []), row.kind, row.fields)
  }

  /** A setter's loop over `_mapping`: each pair copies the right field into
      the working dict under the left name; the first field that cannot be
      read raises, and the pairs before it stay copied. */
  function CopyRun(mapping: seq<(string, string)>, access: Access, row: Row, w: map<string, Value>)
    : (map<string, Value>, Option<Error>)
  {
    if mapping == [] then (w, None)
    else
      var (w1, e1) := CopyRun(mapping[..|mapping| - 1], access, row, w);
      if e1.Some? then (w1, e1)
      else
        var (l, r) := mapping[|mapping| - 1];
        match Fetch(access, row, r)
        case Err(e) => (w1, Some(e))
        case Ok(v) => (w1[l := v], None)
  }

  /** The left names of the pairs. */
  function LeftNames(mapping: seq<(string, string)>): set<string> {
    set p | p in mapping :: p.0
  }

  /** What a setter that raises nothing writes: each left name holds the
      right field of the last pair that names it. */
  function Copied(mapping: seq<(string, string)>, access: Access, row: Row): (c: map<string, Value>)
    ensures c.Keys == LeftNames(mapping)
  {
    if mapping == [] then map[]
    else
      var n := |mapping| - 1;
      var v := Fetch(access, row, mapping[n].1);
      assert mapping == mapping[..n] + [mapping[n]];
      Copied(mapping[..n], access, row)[mapping[n].0 := if v.Ok? then v.value else NoneValue]
  }

  /** The working dicts, by key value. */
  type Table = map<Value, map<string, Value>>

  class Overrides {
    const mapping: seq<(string, string)>
    const fromDict: bool
    var table: Table

    constructor (mapping: seq<(string, string)>, fromDict: bool)
      ensures this.mapping == mapping && this.fromDict == fromDict && table == map[]
    {
      this.mapping := mapping;
      this.fromDict := fromDict;
      table := map[];
    }

    /** `get(key)`: the working dict of `key`, created empty and stored when
        absent (`setdefault`); a key Python cannot hash raises. */
    method Get(key: Value) returns (r: Result<map<string, Value>, Error>)
      modifies this
      ensures !Hashable(key) ==> r == Err(TypeError(Unhashable)) && table == old(table)
      ensures Hashable(key) ==>
                && table == (if key in old(table) then old(table) else old(table)[key := map[]])
                && r == Ok(table[key])
    {
      if !Hashable(key) {
        return Err(TypeError(Unhashable));
      }
      if key !in table {
        table := table[key := map[]];
      }
      return Ok(table[key]);
    }

    /** The loop shared by both setters: copies the fields of `src` named
        by `_mapping` into the working dict of `key`. */
    method CopyFields(key: Value, access: Access, src: Obj) returns (err: Option<Error>)
      requires key in table
      modifies this
      ensures var out := CopyRun(mapping, access, RowOf(src), old(table[key]));
              table == old(table)[key := out.0] && err == out.1
    {
      ghost var w0 := table[key];
      var w := table[key];
      err := None;
      var i := 0;
      while i < |mapping| && err.None?
        invariant 0 <= i <= |mapping|
        invariant CopyRun(mapping[..i], access, RowOf(src), w0) == (w, err)
        invariant table == old(table)
      {
        assert mapping[..i + 1][..i] == mapping[..i];
        var (l, r) := mapping[i];
        var v := Fetch(access, RowOf(src), r);
        if v.Err? {
          err := Some(v.error);
        } else {
          w := w[l := v.value];
        }
        i := i + 1;
      }
      CopyStopsAfterFailure(mapping, access, RowOf(src), w0, i);
      table := table[key := w];
    }

    /** `_setter_attr_from_dict`: reads `o_right[r]`. */
    method SetterAttrFromDict(key: Value, src: Obj) returns (err: Option<Error>)
      requires key in table
      modifies this
      ensures var out := CopyRun(mapping, ByItem, RowOf(src), old(table[key]));
              table == old(table)[key := out.0] && err == out.1
    {
      err := CopyFields(key, ByItem, src);
    }

    /** `_setter_attr_from_object`: reads `getattr(o_right, r)`. */
    method SetterAttrFromObject(key: Value, src: Obj) returns (err: Option<Error>)
      requires key in table
      modifies this
      ensures var out := CopyRun(mapping, ByAttr, RowOf(src), old(table[key]));
              table == old(table)[key := out.0] && err == out.1
    {
      err := CopyFields(key, ByAttr, src);
    }

    /** `self.setter`: the setter `type_right` chose. */
    method Setter(key: Value, src: Obj) returns (err: Option<Error>)
      requires key in table
      modifies this
      ensures var out := CopyRun(mapping, SourceAccess(fromDict), RowOf(src), old(table[key]));
              table == old(table)[key := out.0] && err == out.1
    {
      if fromDict {
        err := SetterAttrFromDict(key, src);
      } else {
        err := SetterAttrFromObject(key, src);
      }
    }

    /** `as_dict`: a copy of the table, with the same key values and the same
        working dicts. */
    function AsDict(): (r: Table)
      reads this
      ensures r.Keys == table.Keys && forall k | k in r :: r[k] == table[k]
    {
      table
    }

    /** `as_objects`: one new object per key value, whose attributes are the
        entries of that key's working dict. */
    method AsObjects() returns (r: map<Value, Obj>)
      ensures r.Keys == table.Keys
      ensures forall k | k in r :: fresh(r[k]) && r[k].kind == Instance && r[k].fields == table[k]
      ensures forall k, k' | k in r && k' in r && k != k' :: r[k] != r[k']
    {
      r := map[];
      var keys := table.Keys;
      while keys != {}
        invariant keys <= table.Keys && r.Keys == table.Keys - keys
        invariant forall k | k in r :: fresh(r[k]) && r[k].kind == Instance && r[k].fields == table[k]
        invariant forall k, k' | k in r && k' in r && k != k' :: r[k] != r[k']
        decreases |keys|
      {
        var k :| k in keys;
        var o := new Obj(Instance, table[k]);
        r := r[k := o];
        keys := keys - {k};
      }
    }

    /** `link(linker, data)`: links the rows with the linker's key, this
        table as the left side and `self.setter` as the left setter. `get`
        never returns `None`, so no row is an orphan. The linker's
        `finally` clause swallows any exception; `failure` is that
        exception, and the table is as `LinkRows` says up to the failing
        row. */
    method Link(linker: Linker, rows: seq<Obj>) returns (failure: Option<Error>)
      modifies this
      ensures var out := LinkRows(mapping, SourceAccess(fromDict), linker.keyLeft, old(table), Rows(rows));
              table == out.state.table && failure == out.failure
    {
      ghost var table0 := table;
      ghost var rs := Rows(rows);
      var getKey: Option<Getter> := None;
      failure := None;
      var i := 0;
      while i < |rows| && failure.None?
        invariant 0 <= i <= |rows|
        invariant rs == Rows(rows)
        invariant LinkRows(mapping, SourceAccess(fromDict), linker.keyLeft, table0, rs[..i])
                  == OvOutcome(OvState(table, getKey), failure)
      {
        assert rs[..i + 1][..i] == rs[..i];
        failure, getKey := LinkOne(linker.keyLeft, rows[i], getKey);
        i := i + 1;
      }
      if failure.Some? {
        LinkRowsStopsAfterFailure(mapping, SourceAccess(fromDict), linker.keyLeft, table0, rs, i);
      } else {
        assert rs[..i] == rs;
      }
    }

    /** One pass of the loop of `link` for the row `o`. */
    method LinkOne(key: KeySpec, o: Obj, getKey: Option<Getter>) returns (failure: Option<Error>, getKeyAfter: Option<Getter>)
      modifies this
      ensures LinkRow(mapping, SourceAccess(fromDict), key, OvState(old(table), getKey), RowOf(o))
              == OvOutcome(OvState(table, getKeyAfter), failure)
    {
      getKeyAfter := getKey;
      var mg := if getKey.Some? then Ok(getKey.value) else MakeGetter(o.kind, key);
      if mg.Err? {
        return Some(mg.error), getKeyAfter;
      }
      getKeyAfter := Some(mg.value);
      var kv := Apply(mg.value, o.kind, o.fields);
      if kv.Err? {
        return Some(kv.error), getKeyAfter;
      }
      var w := Get(kv.value);
      if w.Err? {
        return Some(w.error), getKeyAfter;
      }
      failure := Setter(kv.value, o);
    }
  }

  /** `Overrides(attrnames, type_right)`: fails with `ValueError` when an
      entry is a tuple that is not a pair. */
  method New(attrnames: AttrNames, rightIsDict: bool) returns (r: Result<Overrides, Error>)
    ensures r.Ok? <==> Normalize(Entries(attrnames)).Ok?
    ensures r.Err? ==> r.error == ValueError
    ensures r.Ok? ==> && fresh(r.value) && r.value.mapping == Normalize(Entries(attrnames)).value
                      && r.value.fromDict == rightIsDict && r.value.table == map[]
  {
    var m := NormalizeNames(attrnames);
    if m.Err? {
      return Err(m.error);
    }
    var o := new Overrides(m.value, rightIsDict);
    return Ok(o);
  }

  lemma {:induction false} CopyStopsAfterFailure(mapping: seq<(string, string)>, access: Access, row: Row,
                                                 w: map<string, Value>, n: nat)
    requires n <= |mapping|
    requires n < |mapping| ==> CopyRun(mapping[..n], access, row, w).1.Some?
    ensures CopyRun(mapping, access, row, w) == CopyRun(mapping[..n], access, row, w)
    decreases |mapping| - n
  {
    if n < |mapping| {
      var p := mapping[..n + 1];
      assert p[..|p| - 1] == mapping[..n];
      CopyStopsAfterFailure(mapping, access, row, w, n + 1);
    } else {
      assert mapping[..n] == mapping;
    }
  }

  // -------------------------------------------------------------------- link

  datatype OvState = OvState(table: Table, getKey: Option<Getter>)

  datatype OvOutcome = OvOutcome(state: OvState, failure: Option<Error>)

  /** `Linker.link` with this table on the left, over the rows, stopping at
      the first exception. */
  function LinkRows(mapping: seq<(string, string)>, access: Access, key: KeySpec, table: Table, rows: seq<Row>)
    : OvOutcome
  {
    if rows == [] then OvOutcome(OvState(table, None), None)
    else
      var prev := LinkRows(mapping, access, key, table, rows[..|rows| - 1]);
      if prev.failure.Some? then prev
      else LinkRow(mapping, access, key, prev.state, rows[|rows| - 1])
  }

  /** One pass of the loop of `link`: the key getter is built from the first
      row; `get` finds or creates the working dict; the setter copies. */
  function LinkRow(mapping: seq<(string, string)>, access: Access, key: KeySpec, st: OvState, row: Row)
    : OvOutcome
  {
    var mg := if st.getKey.Some? then Ok(st.getKey.value) else MakeGetter(row.kind, key);
    if mg.Err? then OvOutcome(st, Some(mg.error))
    else
      var st1 := st.(getKey := Some(mg.value));
      var kv := Apply(mg.value, row.kind, row.fields);
      if kv.Err? then OvOutcome(st1, Some(kv.error))
      else if !Hashable(kv.value) then OvOutcome(st1, Some(TypeError(Unhashable)))
      else
        var w := if kv.value in st.table then st.table[kv.value] else map[];
        var (w2, e) := CopyRun(mapping, access, row, w);
        OvOutcome(st1.(table := st.table[kv.value := w2]), e)
  }

  lemma {:induction false} LinkRowsStopsAfterFailure(mapping: seq<(string, string)>, access: Access, key: KeySpec,
                                                     table: Table, rows: seq<Row>, n: nat)
    requires n <= |rows|
    requires n < |rows| ==> LinkRows(mapping, access, key, table, rows[..n]).failure.Some?
    ensures LinkRows(mapping, access, key, table, rows) == LinkRows(mapping, access, key, table, rows[..n])
    decreases |rows| - n
  {
    if n < |rows| {
      var p := rows[..n + 1];
      assert p[..|p| - 1] == rows[..n];
      LinkRowsStopsAfterFailure(mapping, access, key, table, rows, n + 1);
    } else {
      assert rows[..n] == rows;
    }
  }
}
