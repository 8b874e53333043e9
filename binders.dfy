/** The binders of binder.py: given a query template with `%(name)s`
    placeholders and an ordered list of arguments, a binder finds a value for
    each placeholder in the first argument that has one, and rewrites the
    template for one PEP 249 paramstyle:

      pyformat  the template is returned unchanged, the binds are a dict;
      qmark     each placeholder becomes `?`, the binds are a tuple with one
                value per occurrence;
      named     each placeholder becomes `:name`, the binds are a dict.

    The source has one subclass per paramstyle; here one class carries the
    paramstyle as a tag and branches on it where the subclasses differ. */
module Binders {
  import opened Wrappers
  import opened Template

  /** One argument of `format`. `items` is what `arg[name]` can find; `None`
      stands for an argument that cannot be subscripted by a name (`arg[name]`
      raises TypeError or AttributeError). `attrs` is what `getattr` finds. */
  datatype Source<V> = Source(items: Option<map<string, V>>, attrs: map<string, V>)

  /** The paramstyles that have a binder. */
  datatype Paramstyle = Pyformat | Qmark | Named

  /** KeyError: no argument has the name; ValueError: `%` met a malformed
      or unsupported conversion. */
  datatype BindError = KeyError(name: string) | ValueError(cause: FormatError)

  /** The binder's `sub`: a dict for pyformat and named, a list for qmark. */
  datatype Binds<V> = Keyed(m: map<string, V>) | Positional(s: seq<V>)

  function EmptyBinds<V>(style: Paramstyle): Binds<V> {
    if style == Qmark then Positional([]) else Keyed(map[])
  }

  predicate Fits<V>(style: Paramstyle, b: Binds<V>) {
    if style == Qmark then b.Positional? else b.Keyed?
  }

  function Attr<V>(arg: Source<V>, name: string): Option<V> {
    if name in arg.attrs then Some(arg.attrs[name]) else None
  }

  /** What one argument yields for `name`: its item first, then its attribute.
      When the argument is subscriptable but lacks the key (KeyError), only
      the qmark binder goes on to try the attribute; the other two move to
      the next argument. */
  function Probe<V>(style: Paramstyle, arg: Source<V>, name: string): Option<V> {
    match arg.items
    case Some(m) =>
      if name in m then Some(m[name])
      else if style == Qmark then Attr(arg, name)
      else None
    case None => Attr(arg, name)
  }

  /** The value found for `name`: that of the first argument yielding one. */
  function Resolve<V>(style: Paramstyle, args: seq<Source<V>>, name: string): (r: Option<V>)
    ensures r.None? <==> forall j :: 0 <= j < |args| ==> Probe(style, args[j], name).None?
    ensures r.Some? ==>
      exists j :: 0 <= j < |args| && Probe(style, args[j], name) == r
        && forall k :: 0 <= k < j ==> Probe(style, args[k], name).None?
  {
    if args == [] then None
    else match Probe(style, args[0], name)
      case Some(v) => Some(v)
      case None =>
        var r := Resolve(style, args[1..], name);
        assert forall j :: 1 <= j < |args| ==> args[1..][j - 1] == args[j];
        r
  }

  /** What `binder[name]` returns to `%`: the text that replaces the
      placeholder. Pyformat returns `None`, which `%` renders as "None";
      that text is thrown away, because pyformat returns the template. */
  function Marker(style: Paramstyle, name: string): string {
    match style
    case Pyformat => "None"
    case Qmark => "?"
    case Named => ":" + name
  }

  /** Adds a found value to the bind container. */
  function Record<V>(style: Paramstyle, sub: Binds<V>, name: string, v: V): (b: Binds<V>)
    requires Fits(style, sub)
    ensures Fits(style, b)
  {
    if style == Qmark then Positional(sub.s + [v]) else Keyed(sub.m[name := v])
  }

  /** `binder[name]` as a function of the bind container before the call:
      its result and the container after. Pyformat and named answer a name
      already in the dict without looking it up again. */
  function Lookup<V>(style: Paramstyle, sub: Binds<V>, args: seq<Source<V>>, name: string)
    : (Result<string, BindError>, Binds<V>)
    requires Fits(style, sub)
  {
    if style != Qmark && name in sub.m then (Ok(Marker(style, name)), sub)
    else match Resolve(style, args, name)
      case None => (Err(KeyError(name)), sub)
      case Some(v) => (Ok(Marker(style, name)), Record(style, sub, name, v))
  }

  /** The state of `template % binder` part way through: the text produced so
      far, the bind container, and the error that stopped it, if any. */
  datatype Progress<V> = Progress(out: string, sub: Binds<V>, failed: Option<BindError>)

  function Step<V>(style: Paramstyle, args: seq<Source<V>>, p: Progress<V>, tok: Token): (q: Progress<V>)
    requires Fits(style, p.sub)
    ensures Fits(style, q.sub)
  {
    if p.failed.Some? then p
    else match tok
      case Text(s) => p.(out := p.out + s)
      case Percent => p.(out := p.out + "%")
      case Placeholder(n) =>
        var (res, sub') := Lookup(style, p.sub, args, n);
        match res
        case Ok(text) => Progress(p.out + text, sub', None)
        case Err(e) => Progress(p.out, sub', Some(e))
  }

  /** `%` over a token sequence, starting from an empty bind container. */
  function Run<V>(style: Paramstyle, args: seq<Source<V>>, ts: seq<Token>): (p: Progress<V>)
    ensures Fits(style, p.sub)
  {
    if ts == [] then Progress("", EmptyBinds(style), None)
    else Step(style, args, Run(style, args, ts[..|ts| - 1]), ts[|ts| - 1])
  }

  /** What `format(tqry, *args)` returns or raises. */
  function FormatSpec<V>(style: Paramstyle, tqry: string, args: seq<Source<V>>)
    : Result<(string, Binds<V>), BindError>
  {
    var scanned := Scan(tqry);
    var p := Run(style, args, scanned.tokens);
    if p.failed.Some? then Err(p.failed.value)
    else if scanned.error.Some? then Err(ValueError(scanned.error.value))
    else if style == Pyformat then Ok((tqry, p.sub))
    else Ok((p.out, p.sub))
  }

  class Binder<V> {
    const style: Paramstyle
    /** The bind container of the current call. */
    var sub: Binds<V>
    /** The arguments of the current call, in priority order. */
    var liArg: seq<Source<V>>

    ghost predicate Valid()
      reads this
    {
      Fits(style, sub)
    }

    constructor (style: Paramstyle)
      ensures this.style == style && Valid()
      ensures sub == EmptyBinds(style) && liArg == []
    {
      this.style := style;
      sub := EmptyBinds(style);
      liArg := [];
    }

    /** `binder[name]`, called by `%` once per placeholder occurrence. */
    method GetItem(name: string) returns (r: Result<string, BindError>)
      requires Valid()
      modifies this`sub
      ensures Valid()
      ensures (r, sub) == Lookup(style, old(sub), liArg, name)
    {
      if style != Qmark && name in sub.m {
        return Ok(Marker(style, name));
      }
      var i := 0;
      while i < |liArg|
        invariant 0 <= i <= |liArg|
        invariant sub == old(sub)
        invariant Resolve(style, liArg[i..], name) == Resolve(style, liArg, name)
      {
        var arg := liArg[i];
        var got: Option<V> := None;
        match arg.items {
          case Some(m) =>
            if name in m {
              got := Some(m[name]);
            } else if style == Qmark && name in arg.attrs {
              got := Some(arg.attrs[name]);
            }
          case None =>
            if name in arg.attrs {
              got := Some(arg.attrs[name]);
            }
        }
        if got.Some? {
          if style == Qmark {
            sub := Positional(sub.s + [got.value]);
          } else {
            sub := Keyed(sub.m[name := got.value]);
          }
          return Ok(Marker(style, name));
        }
        assert liArg[i..][1..] == liArg[i + 1..];
        i := i + 1;
      }
      return Err(KeyError(name));
    }

    /** `format(tqry, *args)`: starts from an empty bind container and the
        given arguments, then runs `tqry % self` token by token. */
    method Format(tqry: string, args: seq<Source<V>>) returns (r: Result<(string, Binds<V>), BindError>)
      modifies this
      ensures Valid() && liArg == args
      ensures sub == Run(style, args, Scan(tqry).tokens).sub
      ensures r == FormatSpec(style, tqry, args)
    {
      sub := EmptyBinds(style);
      liArg := args;
      var scanned := Scan(tqry);
      var ts := scanned.tokens;
      var out := "";
      var i := 0;
      while i < |ts|
        invariant 0 <= i <= |ts|
        invariant Valid() && liArg == args
        invariant Run(style, args, ts[..i]) == Progress(out, sub, None)
      {
        assert ts[..i + 1][..i] == ts[..i];
        assert Run(style, args, ts[..i + 1]) == Step(style, args, Progress(out, sub, None), ts[i]);
        match ts[i] {
          case Text(s) =>
            out := out + s;
          case Percent =>
            out := out + "%";
          case Placeholder(n) =>
            var g := GetItem(n);
            if g.Err? {
              RunStopsAfterFailure(style, args, ts, i + 1);
              assert ts[..|ts|] == ts;
              return Err(g.error);
            }
            out := out + g.value;
        }
        i := i + 1;
      }
      assert ts[..|ts|] == ts;
      if scanned.error.Some? {
        return Err(ValueError(scanned.error.value));
      }
      if style == Pyformat {
        return Ok((tqry, sub));
      }
      return Ok((out, sub));
    }
  }

  /** Once a lookup has failed, the rest of the template changes nothing. */
  lemma {:induction false} RunStopsAfterFailure<V>(style: Paramstyle, args: seq<Source<V>>, ts: seq<Token>, i: nat)
    requires i <= |ts|
    requires Run(style, args, ts[..i]).failed.Some?
    ensures Run(style, args, ts) == Run(style, args, ts[..i])
    decreases |ts| - i
  {
    if i < |ts| {
      assert ts[..i + 1][..i] == ts[..i];
      RunStopsAfterFailure(style, args, ts, i + 1);
    } else {
      assert ts[..i] == ts;
    }
  }

  /** The first name in `names`, left to right, that no argument yields. */
  function FirstMissing<V>(style: Paramstyle, args: seq<Source<V>>, names: seq<string>): (r: Option<string>)
    ensures r.None? <==> forall i :: 0 <= i < |names| ==> Resolve(style, args, names[i]).Some?
    ensures r.Some? ==>
      exists i :: 0 <= i < |names| && names[i] == r.value && Resolve(style, args, r.value).None?
        && forall k :: 0 <= k < i ==> Resolve(style, args, names[k]).Some?
  {
    if names == [] then None
    else
      var init := names[..|names| - 1];
      var last := names[|names| - 1];
      assert forall k :: 0 <= k < |init| ==> init[k] == names[k];
      match FirstMissing(style, args, init)
      case Some(n) => Some(n)
      case None => if Resolve(style, args, last).None? then Some(last) else None
  }

  /** The text a token becomes in the output of qmark and named. */
  function Piece(style: Paramstyle, tok: Token): string {
    match tok
    case Text(s) => s
    case Percent => "%"
    case Placeholder(n) => Marker(style, n)
  }

  /** The template with every token replaced by its piece. */
  function Render(style: Paramstyle, ts: seq<Token>): string {
    if ts == [] then "" else Render(style, ts[..|ts| - 1]) + Piece(style, ts[|ts| - 1])
  }

  /** The bind container that belongs to the placeholder names `names`:
      for qmark one value per occurrence, in order; for pyformat and named
      one entry per distinct name. Each value is the one `Resolve` finds. */
  ghost predicate Holds<V>(style: Paramstyle, args: seq<Source<V>>, names: seq<string>, b: Binds<V>) {
    if style == Qmark then
      && b.Positional? && |b.s| == |names|
      && forall i :: 0 <= i < |names| ==> Resolve(style, args, names[i]) == Some(b.s[i])
    else
      && b.Keyed? && b.m.Keys == (set n | n in names)
      && forall n :: n in b.m ==> Resolve(style, args, n) == Some(b.m[n])
  }

  function MissingError(missing: Option<string>): Option<BindError> {
    match missing
    case None => None
    case Some(n) => Some(KeyError(n))
  }

  lemma FirstMissingAppend<V>(style: Paramstyle, args: seq<Source<V>>, names: seq<string>, n: string)
    ensures FirstMissing(style, args, names + [n]) ==
      if FirstMissing(style, args, names).Some? then FirstMissing(style, args, names)
      else if Resolve(style, args, n).None? then Some(n) else None
  {
    assert (names + [n])[..|names|] == names;
  }

  /** A found value for one more occurrence keeps the bind container the one
      that belongs to the names seen so far. */
  lemma HoldsAfterLookup<V>(style: Paramstyle, args: seq<Source<V>>, names: seq<string>, sub: Binds<V>, n: string)
    requires Fits(style, sub) && Holds(style, args, names, sub)
    requires Lookup(style, sub, args, n).0.Ok?
    ensures Holds(style, args, names + [n], Lookup(style, sub, args, n).1)
    ensures Resolve(style, args, n).Some?
  {
    var sub' := Lookup(style, sub, args, n).1;
    if style == Qmark {
      forall i | 0 <= i < |names + [n]|
        ensures Resolve(style, args, (names + [n])[i]) == Some(sub'.s[i])
      {
        if i < |names| {
          assert (names + [n])[i] == names[i];
        }
      }
    } else {
      assert (set m | m in names + [n]) == (set m | m in names) + {n};
    }
  }

  lemma {:induction false} StepMeaning<V>(style: Paramstyle, args: seq<Source<V>>, names: seq<string>, p: Progress<V>, tok: Token)
    requires Fits(style, p.sub)
    requires p.failed == MissingError(FirstMissing(style, args, names))
    requires p.failed.None? ==> Holds(style, args, names, p.sub)
    ensures Step(style, args, p, tok).failed == MissingError(FirstMissing(style, args, names + NameOf(tok)))
    ensures Step(style, args, p, tok).failed.None? ==>
      && Step(style, args, p, tok).out == p.out + Piece(style, tok)
      && Holds(style, args, names + NameOf(tok), Step(style, args, p, tok).sub)
  {
    if tok.Placeholder? {
      var n := tok.name;
      assert NameOf(tok) == [n];
      FirstMissingAppend(style, args, names, n);
      if p.failed.None? && Lookup(style, p.sub, args, n).0.Ok? {
        HoldsAfterLookup(style, args, names, p.sub, n);
      }
    } else {
      assert names + NameOf(tok) == names;
    }
  }

  /** What running `%` over tokens means: it fails exactly when some
      placeholder has no value, naming the first such placeholder; otherwise
      it has produced the rendered template and the bind container that
      belongs to the placeholders. */
  lemma {:induction false} RunMeaning<V>(style: Paramstyle, args: seq<Source<V>>, ts: seq<Token>)
    ensures Run(style, args, ts).failed == MissingError(FirstMissing(style, args, Names(ts)))
    ensures Run(style, args, ts).failed.None? ==>
      Run(style, args, ts).out == Render(style, ts) && Holds(style, args, Names(ts), Run(style, args, ts).sub)
  {
    if ts != [] {
      var init := ts[..|ts| - 1];
      RunMeaning(style, args, init);
      StepMeaning(style, args, Names(init), Run(style, args, init), ts[|ts| - 1]);
    }
  }

  /** `format` succeeds exactly when every placeholder has a value and the
      whole template is well formed; a missing name raises KeyError for the
      first such name, before any later format error; on success the binds
      are those that belong to the placeholders. */
  lemma FormatMeaning<V>(style: Paramstyle, tqry: string, args: seq<Source<V>>)
    ensures var names := Names(Scan(tqry).tokens);
      && (FormatSpec(style, tqry, args).Ok? <==>
          FirstMissing(style, args, names).None? && Scan(tqry).error.None?)
      && (FirstMissing(style, args, names).Some? ==>
          FormatSpec(style, tqry, args) == Err(KeyError(FirstMissing(style, args, names).value)))
      && (FirstMissing(style, args, names).None? && Scan(tqry).error.Some? ==>
          FormatSpec(style, tqry, args) == Err(ValueError(Scan(tqry).error.value)))
      && (FormatSpec(style, tqry, args).Ok? ==>
          Holds(style, args, names, FormatSpec(style, tqry, args).value.1))
  {
    RunMeaning(style, args, Scan(tqry).tokens);
  }

  /** pyformat: the query is the template, character for character; the binds
      are a dict with exactly the distinct placeholder names, each holding the
      value of the first argument that yields it. */
  lemma PyformatKeepsTemplate<V>(tqry: string, args: seq<Source<V>>)
    requires FormatSpec(Pyformat, tqry, args).Ok?
    ensures FormatSpec(Pyformat, tqry, args).value.0 == tqry
    ensures var b := FormatSpec(Pyformat, tqry, args).value.1;
      && b.Keyed? && b.m.Keys == (set n | n in Names(Scan(tqry).tokens))
      && forall n :: n in b.m ==> Resolve(Pyformat, args, n) == Some(b.m[n])
  {
    FormatMeaning(Pyformat, tqry, args);
  }

  /** named: every occurrence of `%(k)s`, repeats included, becomes `:k`, and
      every `%%` becomes `%`; the binds are one dict entry per distinct name. */
  lemma NamedRewrite<V>(tqry: string, args: seq<Source<V>>)
    requires FormatSpec(Named, tqry, args).Ok?
    ensures FormatSpec(Named, tqry, args).value.0 == Render(Named, Scan(tqry).tokens)
    ensures Untokenize(Scan(tqry).tokens) == tqry
    ensures var b := FormatSpec(Named, tqry, args).value.1;
      && b.Keyed? && b.m.Keys == (set n | n in Names(Scan(tqry).tokens))
      && forall n :: n in b.m ==> Resolve(Named, args, n) == Some(b.m[n])
  {
    FormatMeaning(Named, tqry, args);
    RunMeaning(Named, args, Scan(tqry).tokens);
    ScanRoundTrip(tqry);
  }

  /** qmark: every placeholder becomes `?`; the binds hold one value per
      occurrence, in template order, repeats included, each looked up again. */
  lemma QmarkPositional<V>(tqry: string, args: seq<Source<V>>)
    requires FormatSpec(Qmark, tqry, args).Ok?
    ensures FormatSpec(Qmark, tqry, args).value.0 == Render(Qmark, Scan(tqry).tokens)
    ensures Untokenize(Scan(tqry).tokens) == tqry
    ensures var b := FormatSpec(Qmark, tqry, args).value.1; var names := Names(Scan(tqry).tokens);
      && b.Positional? && |b.s| == |names|
      && forall i :: 0 <= i < |names| ==> Resolve(Qmark, args, names[i]) == Some(b.s[i])
  {
    FormatMeaning(Qmark, tqry, args);
    RunMeaning(Qmark, args, Scan(tqry).tokens);
    ScanRoundTrip(tqry);
  }

  /** The registry of binder.py: paramstyle to binder class. */
  datatype BinderClass = PyformatBinder | QmarkBinder | NamedBinder | NotImplementedBinder

  const Registry: map<string, BinderClass> :=
    map["pyformat" := PyformatBinder, "named" := NamedBinder, "qmark" := QmarkBinder,
        "numeric" := NotImplementedBinder, "format" := NotImplementedBinder]

  /** What `Binder.factory` does: makes a binder, raises NotImplementedError,
      or returns None for an unknown paramstyle (the message listing the
      known paramstyles is built but never raised). */
  datatype Made = Instance(style: Paramstyle) | NotImplemented(message: string) | NoBinder

  function StyleName(style: Paramstyle): string {
    match style
    case Pyformat => "pyformat"
    case Qmark => "qmark"
    case Named => "named"
  }

  function Factory(paramstyle: string): (r: Made)
    ensures r.Instance? <==> paramstyle in {"pyformat", "qmark", "named"}
    ensures r.Instance? ==> StyleName(r.style) == paramstyle
    ensures r.NotImplemented? <==> paramstyle in {"numeric", "format"}
    ensures r.NotImplemented? ==> r.message == paramstyle + " is not implemented yet"
    ensures r.NoBinder? <==> paramstyle !in Registry
  {
    if paramstyle !in Registry then NoBinder
    else match Registry[paramstyle]
      case PyformatBinder => Instance(Pyformat)
      case QmarkBinder => Instance(Qmark)
      case NamedBinder => Instance(Named)
      case NotImplementedBinder => NotImplemented(paramstyle + " is not implemented yet")
  }
}
