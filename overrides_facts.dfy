/** What the override table promises, proved about the specification
    functions the methods of `Overrides` follow. */
module OverridesFacts {
  import opened Wrappers
  import opened Objects
  import opened Linker
  import opened Overrides

  // ----------------------------------------------------------- normalisation

  lemma NormalizeOne(e: AttrName)
    requires PairOf(e).Ok?
    ensures Normalize([e]) == Ok([PairOf(e).value])
  {
    assert [e][..0] == [];
    assert Normalize([e][..0]) == Ok([]);
    assert [] + [PairOf(e).value] == [PairOf(e).value];
  }

  /** `"tax"` is copied to itself, `("rate", "tax")` copies `tax` to
      `rate`, `["tax", "state"]` copies both, in that order, and a tuple
      that is not a pair is refused. */
  lemma NormalizeForms()
    ensures Normalize(Entries(One(Plain("tax")))) == Ok([("tax", "tax")])
    ensures Normalize(Entries(One(Alias(["rate", "tax"])))) == Ok([("rate", "tax")])
    ensures Normalize(Entries(Many([Plain("tax"), Plain("state")]))) == Ok([("tax", "tax"), ("state", "state")])
    ensures Normalize(Entries(One(Alias(["a", "b", "c"])))) == Err(ValueError)
  {
    NormalizeOne(Plain("tax"));
    NormalizeOne(Alias(["rate", "tax"]));
    var es := [Plain("tax"), Plain("state")];
    assert Entries(Many(es)) == es;
    assert es[..1] == [Plain("tax")];
    assert Normalize(es) == Ok([("tax", "tax")] + [("state", "state")]);
    assert [("tax", "tax")] + [("state", "state")] == [("tax", "tax"), ("state", "state")];
  }

  // ----------------------------------------------------------------- setters

  /** A source field is read when the source is of the kind the setter
      expects and has the field; otherwise reading it raises `TypeError`
      (a dict setter on an object), `AttributeError` (an object setter on a
      dict, or a missing attribute) or `KeyError` (a missing key). */
  lemma FetchMeaning(access: Access, row: Row, name: string)
    ensures Fetch(access, row, name).Ok? <==> access == AccessFor(row.kind) && name in row.fields
    ensures Fetch(access, row, name).Ok? ==> Fetch(access, row, name).value == row.fields[name]
    ensures access == ByItem && row.kind == Instance ==> Fetch(access, row, name) == Err(TypeError(NotSubscriptable))
    ensures access == ByAttr && row.kind == Mapping ==> Fetch(access, row, name) == Err(AttributeError(name))
    ensures access == AccessFor(row.kind) && name !in row.fields ==>
              Fetch(access, row, name) == Err(if access == ByItem then KeyError(name) else AttributeError(name))
  {
    assert Getter(access, name, []).Names() == [name];
    FetchAllMeaning(access, [name], row.fields);
  }

  /** The setter copies, pair by pair, until a field cannot be read: it
      raises nothing exactly when every right field can be read, and then
      the working dict is its old entries overwritten by `Copied`. */
  lemma {:induction false} CopyMeaning(mapping: seq<(string, string)>, access: Access, row: Row, w: map<string, Value>)
    ensures var out := CopyRun(mapping, access, row, w);
            && (out.1.None? <==> forall i | 0 <= i < |mapping| :: Fetch(access, row, mapping[i].1).Ok?)
            && (out.1.None? ==> out.0 == w + Copied(mapping, access, row))
  {
    if mapping != [] {
      var n := |mapping| - 1;
      var p := mapping[..n];
      CopyMeaning(p, access, row, w);
      assert forall i | 0 <= i < n :: p[i] == mapping[i];
      var prev := CopyRun(p, access, row, w);
      if prev.1.None? {
        var v := Fetch(access, row, mapping[n].1);
        if v.Ok? {
          MergeUpdate(w, Copied(p, access, row), mapping[n].0, v.value);
        }
      }
    }
  }

  /** When the setter raises, it raises the exception of the first right
      field that cannot be read, and the pairs before that one are
      copied. */
  lemma {:induction false} CopyFails(mapping: seq<(string, string)>, access: Access, row: Row, w: map<string, Value>)
    requires CopyRun(mapping, access, row, w).1.Some?
    ensures var out := CopyRun(mapping, access, row, w);
            exists i | 0 <= i < |mapping| ::
              && Fetch(access, row, mapping[i].1).Err?
              && out.1.value == Fetch(access, row, mapping[i].1).error
              && (forall j | 0 <= j < i :: Fetch(access, row, mapping[j].1).Ok?)
              && out.0 == w + Copied(mapping[..i], access, row)
  {
    var n := |mapping| - 1;
    var p := mapping[..n];
    var out := CopyRun(mapping, access, row, w);
    var prev := CopyRun(p, access, row, w);
    assert forall i | 0 <= i < n :: p[i] == mapping[i];
    if prev.1.None? {
      CopyMeaning(p, access, row, w);
      assert Fetch(access, row, mapping[n].1).Err?;
      assert out.0 == w + Copied(mapping[..n], access, row);
    } else {
      CopyFails(p, access, row, w);
      var i :| 0 <= i < n
               && Fetch(access, row, p[i].1).Err?
               && prev.1.value == Fetch(access, row, p[i].1).error
               && (forall j | 0 <= j < i :: Fetch(access, row, p[j].1).Ok?)
               && prev.0 == w + Copied(p[..i], access, row);
      assert p[..i] == mapping[..i];
      assert out.0 == w + Copied(mapping[..i], access, row);
    }
  }

  /** Overwriting after a merge is merging the overwritten map. */
  lemma MergeUpdate<K, V>(a: map<K, V>, b: map<K, V>, k: K, v: V)
    ensures (a + b)[k := v] == a + b[k := v]
  {
    var x := (a + b)[k := v];
    var y := a + b[k := v];
    assert x.Keys == y.Keys;
    forall i | i in x.Keys ensures x[i] == y[i] {
    }
  }

  /** A merge is undone by a later merge over at least the same keys. */
  lemma MergeOver<K, V>(a: map<K, V>, b: map<K, V>, c: map<K, V>)
    requires b.Keys <= c.Keys
    ensures (a + b) + c == a + c
  {
    var x := (a + b) + c;
    var y := a + c;
    assert x.Keys == y.Keys;
    forall i | i in x.Keys ensures x[i] == y[i] {
    }
  }

  /** Each left name holds the right field of the last pair that names
      it: with `("rate", "tax")`, `rate` holds the source's `tax`. */
  lemma {:induction false} CopiedAt(mapping: seq<(string, string)>, access: Access, row: Row, i: nat)
    requires i < |mapping| && Fetch(access, row, mapping[i].1).Ok?
    requires forall j | i < j < |mapping| :: mapping[j].0 != mapping[i].0
    ensures mapping[i].0 in Copied(mapping, access, row)
    ensures Copied(mapping, access, row)[mapping[i].0] == Fetch(access, row, mapping[i].1).value
  {
    var n := |mapping| - 1;
    var p := mapping[..n];
    var last := Fetch(access, row, mapping[n].1);
    assert Copied(mapping, access, row) == Copied(p, access, row)[mapping[n].0 := if last.Ok? then last.value else NoneValue];
    if i < n {
      assert p[i] == mapping[i];
      forall j | i < j < |p| ensures p[j].0 != p[i].0 {
        assert p[j] == mapping[j];
      }
      CopiedAt(p, access, row, i);
      assert mapping[n].0 != mapping[i].0;
    }
  }

  /** `Overrides([("rate", "tax")])` linked with an object that has `tax`
      gives the working dict a `rate` equal to that `tax`. */
  lemma AliasRate(row: Row, w: map<string, Value>)
    requires row.kind == Instance && "tax" in row.fields
    ensures Normalize(Entries(One(Alias(["rate", "tax"])))) == Ok([("rate", "tax")])
    ensures CopyRun([("rate", "tax")], SourceAccess(false), row, w) == (w["rate" := row.fields["tax"]], None)
  {
    FetchMeaning(ByAttr, row, "tax");
    NormalizeOne(Alias(["rate", "tax"]));
    assert [("rate", "tax")][..0] == [];
  }

  // -------------------------------------------------------------------- link

  /** The key getter `link` builds from the first row, if it can. */
  function RowsGetter(key: KeySpec, rows: seq<Row>): Option<Getter> {
    if rows == [] then None
    else match MakeGetter(rows[0].kind, key)
      case Err(_) => None
      case Ok(g) => Some(g)
  }

  /** The last row whose key is `k`. */
  function LastWith(og: Option<Getter>, rows: seq<Row>, k: Value): Option<Row> {
    if rows == [] || og.None? then None
    else
      var row := rows[|rows| - 1];
      if Apply(og.value, row.kind, row.fields) == Ok(k) then Some(row)
      else LastWith(og, rows[..|rows| - 1], k)
  }

  /** The working dict of `k` before linking, or a new empty one. */
  function Before(table: Table, k: Value): map<string, Value> {
    if k in table then table[k] else map[]
  }

  /** The working dict of `k` after linking: what it was, overwritten by
      what the last row with key `k` copies. */
  function Layered(mapping: seq<(string, string)>, access: Access, table: Table, k: Value, last: Option<Row>)
    : map<string, Value>
  {
    Before(table, k) + if last.Some? then Copied(mapping, access, last.value) else map[]
  }

  /** One row that raises nothing: its key is readable and hashable, and
      its working dict (created when absent) is overwritten by what the
      setter copies. */
  lemma RowStep(mapping: seq<(string, string)>, access: Access, key: KeySpec, st: OvState, row: Row, g: Getter)
    requires st.getKey == Some(g) || (st.getKey.None? && MakeGetter(row.kind, key) == Ok(g))
    requires LinkRow(mapping, access, key, st, row).failure.None?
    ensures var kv := Apply(g, row.kind, row.fields);
            var r := LinkRow(mapping, access, key, st, row).state;
            && kv.Ok? && Hashable(kv.value) && r.getKey == Some(g)
            && r.table == st.table[kv.value := Before(st.table, kv.value) + Copied(mapping, access, row)]
  {
    var kv := Apply(g, row.kind, row.fields);
    CopyMeaning(mapping, access, row, Before(st.table, kv.value));
  }

  /** `link` through the table, when it raises nothing: no row is an
      orphan, since every row's key ends up in the table; the keys are the
      old ones and the rows' keys; and each working dict is its old entries
      overwritten by what the LAST row with its key copies. */
  lemma {:induction false} LinkRowsMeaning(mapping: seq<(string, string)>, access: Access, key: KeySpec,
                                           table: Table, rows: seq<Row>)
    requires LinkRows(mapping, access, key, table, rows).failure.None?
    ensures var out := LinkRows(mapping, access, key, table, rows).state;
            var og := RowsGetter(key, rows);
            && out.getKey == og
            && (forall j | 0 <= j < |rows| ::
                  og.Some? && Apply(og.value, rows[j].kind, rows[j].fields).Ok?
                  && Apply(og.value, rows[j].kind, rows[j].fields).value in out.table)
            && (forall k :: k in out.table <==> k in table || LastWith(og, rows, k).Some?)
            && (forall k | k in out.table :: out.table[k] == Layered(mapping, access, table, k, LastWith(og, rows, k)))
  {
    if rows != [] {
      var n := |rows| - 1;
      var p := rows[..n];
      var row := rows[n];
      LinkRowsMeaning(mapping, access, key, table, p);
      var prev := LinkRows(mapping, access, key, table, p).state;
      var og := RowsGetter(key, rows);
      assert og.Some? by {
        if n == 0 {
          assert row == rows[0];
        }
      }
      var g := og.value;
      if n > 0 {
        assert p[0] == rows[0];
        assert RowsGetter(key, p) == og;
      } else {
        assert row == rows[0];
        assert forall k :: LastWith(RowsGetter(key, p), p, k) == LastWith(og, p, k);
      }
      RowStep(mapping, access, key, prev, row, g);
      var kv := Apply(g, row.kind, row.fields).value;
      var out := LinkRows(mapping, access, key, table, rows).state;
      SplitLast(rows);
      LastStep(mapping, access, table, p, row, g, prev.table, out.table);
    }
  }

  /** A non-empty sequence is its front followed by its last element. */
  lemma SplitLast<T>(s: seq<T>)
    requires s != []
    ensures s == s[..|s| - 1] + [s[|s| - 1]]
  {
  }

  /** The last row with key `k` among `p + [row]`. */
  lemma LastWithSnoc(g: Getter, p: seq<Row>, row: Row, k: Value)
    ensures LastWith(Some(g), p + [row], k)
            == if Apply(g, row.kind, row.fields) == Ok(k) then Some(row) else LastWith(Some(g), p, k)
  {
    assert (p + [row])[..|p|] == p;
  }

  /** The working dict of the last row's key, in terms of what it was. */
  lemma LayerOver(mapping: seq<(string, string)>, access: Access, table: Table, prev: Table, kv: Value,
                  last: Option<Row>, row: Row)
    requires kv in prev ==> prev[kv] == Layered(mapping, access, table, kv, last)
    requires kv !in prev ==> kv !in table
    ensures Before(prev, kv) + Copied(mapping, access, row) == Layered(mapping, access, table, kv, Some(row))
  {
    var c := Copied(mapping, access, row);
    if kv in prev {
      if last.Some? {
        MergeOver(Before(table, kv), Copied(mapping, access, last.value), c);
      } else {
        assert Before(table, kv) + map[] == Before(table, kv);
      }
    } else {
      assert map[] + c == c;
    }
  }

  /** The last row of a run that raised nothing, in terms of the run before
      it. */
  lemma LastStep(mapping: seq<(string, string)>, access: Access, table: Table,
                 p: seq<Row>, row: Row, g: Getter, prev: Table, out: Table)
    requires forall j | 0 <= j < |p| :: Apply(g, p[j].kind, p[j].fields).Ok? && Apply(g, p[j].kind, p[j].fields).value in prev
    requires forall k :: k in prev <==> k in table || LastWith(Some(g), p, k).Some?
    requires forall k | k in prev :: prev[k] == Layered(mapping, access, table, k, LastWith(Some(g), p, k))
    requires var kv := Apply(g, row.kind, row.fields);
             kv.Ok? && out == prev[kv.value := Before(prev, kv.value) + Copied(mapping, access, row)]
    ensures var rows := p + [row];
            forall j | 0 <= j < |rows| ::
              Apply(g, rows[j].kind, rows[j].fields).Ok? && Apply(g, rows[j].kind, rows[j].fields).value in out
    ensures forall k :: k in out <==> k in table || LastWith(Some(g), p + [row], k).Some?
    ensures forall k | k in out :: out[k] == Layered(mapping, access, table, k, LastWith(Some(g), p + [row], k))
  {
    var kv := Apply(g, row.kind, row.fields).value;
    var rows := p + [row];
    forall j | 0 <= j < |rows|
      ensures Apply(g, rows[j].kind, rows[j].fields).Ok? && Apply(g, rows[j].kind, rows[j].fields).value in out
    {
      if j < |p| {
        assert rows[j] == p[j];
      }
    }
    forall k ensures k in out <==> k in table || LastWith(Some(g), rows, k).Some? {
      LastWithSnoc(g, p, row, k);
    }
    forall k | k in out ensures out[k] == Layered(mapping, access, table, k, LastWith(Some(g), rows, k)) {
      LastWithSnoc(g, p, row, k);
      if k == kv {
        LayerOver(mapping, access, table, prev, kv, LastWith(Some(g), p, kv), row);
      }
    }
  }

  /** Linking a base list and then an override list: a key with an
      override row holds what the last override row copies over its old
      entries; a key with only base rows holds what the last base row
      copies; every other key is untouched. No row of either list is
      lost. */
  lemma Layering(mapping: seq<(string, string)>, access: Access, key: KeySpec, t0: Table,
                 base: seq<Row>, over: seq<Row>)
    requires LinkRows(mapping, access, key, t0, base).failure.None?
    requires LinkRows(mapping, access, key, LinkRows(mapping, access, key, t0, base).state.table, over).failure.None?
    ensures var t2 := LinkRows(mapping, access, key, LinkRows(mapping, access, key, t0, base).state.table, over).state.table;
            var ob := RowsGetter(key, base);
            var oo := RowsGetter(key, over);
            && (forall k :: k in t2 <==> k in t0 || LastWith(ob, base, k).Some? || LastWith(oo, over, k).Some?)
            && (forall k | LastWith(oo, over, k).Some? ::
                  t2[k] == Before(t0, k) + Copied(mapping, access, LastWith(oo, over, k).value))
            && (forall k | LastWith(oo, over, k).None? && LastWith(ob, base, k).Some? ::
                  t2[k] == Before(t0, k) + Copied(mapping, access, LastWith(ob, base, k).value))
            && (forall k | k in t0 && LastWith(oo, over, k).None? && LastWith(ob, base, k).None? :: t2[k] == t0[k])
  {
    var t1 := LinkRows(mapping, access, key, t0, base).state.table;
    var t2 := LinkRows(mapping, access, key, t1, over).state.table;
    LinkRowsMeaning(mapping, access, key, t0, base);
    LinkRowsMeaning(mapping, access, key, t1, over);
    var ob := RowsGetter(key, base);
    var oo := RowsGetter(key, over);
    forall k
      ensures && (k in t2 <==> k in t0 || LastWith(ob, base, k).Some? || LastWith(oo, over, k).Some?)
              && (LastWith(oo, over, k).Some? ==>
                    t2[k] == Before(t0, k) + Copied(mapping, access, LastWith(oo, over, k).value))
              && (LastWith(oo, over, k).None? && LastWith(ob, base, k).Some? ==>
                    t2[k] == Before(t0, k) + Copied(mapping, access, LastWith(ob, base, k).value))
              && (k in t0 && LastWith(oo, over, k).None? && LastWith(ob, base, k).None? ==> t2[k] == t0[k])
    {
      LayerKey(mapping, access, t0, t1, t2, k, LastWith(ob, base, k), LastWith(oo, over, k));
    }
  }

  /** Two runs, seen from one key. */
  lemma LayerKey(mapping: seq<(string, string)>, access: Access, t0: Table, t1: Table, t2: Table, k: Value,
                 lb: Option<Row>, lo: Option<Row>)
    requires (k in t1 <==> k in t0 || lb.Some?) && (k in t1 ==> t1[k] == Layered(mapping, access, t0, k, lb))
    requires (k in t2 <==> k in t1 || lo.Some?) && (k in t2 ==> t2[k] == Layered(mapping, access, t1, k, lo))
    ensures k in t2 <==> k in t0 || lb.Some? || lo.Some?
    ensures lo.Some? ==> t2[k] == Before(t0, k) + Copied(mapping, access, lo.value)
    ensures lo.None? && lb.Some? ==> t2[k] == Before(t0, k) + Copied(mapping, access, lb.value)
    ensures k in t0 && lo.None? && lb.None? ==> t2[k] == t0[k]
  {
    if lo.Some? {
      var c := Copied(mapping, access, lo.value);
      if lb.Some? {
        MergeOver(Before(t0, k), Copied(mapping, access, lb.value), c);
      } else if k in t0 {
        assert Before(t0, k) + map[] == Before(t0, k);
      }
    } else if k in t2 {
      assert t1[k] + map[] == t1[k];
      if lb.None? {
        assert t0[k] + map[] == t0[k];
      }
    }
  }
}
