/** The part of Python's `%` string formatting that the binders rely on.

    Every binder formats its template with `template % binder`, and Python's
    formatting engine then asks the binder for `binder[name]` once for each
    `%(name)s`, left to right, while copying the literal text and turning
    `%%` into `%`. This module makes that scan explicit: it splits a template
    into tokens, stopping at the first `%` sequence outside the supported
    subset. */
module Template {
  import opened Wrappers

  /** Literal text, the escape `%%`, or a named placeholder `%(name)s`. */
  datatype Token = Text(s: string) | Percent | Placeholder(name: string)

  /** Why formatting stops part way through a template. */
  datatype FormatError =
    | IncompleteFormat     // a `%` or a `%(name)` at the very end
    | IncompleteKey        // `%(` with no closing `)`
    | NestedKey            // a `(` inside a key: outside the modelled subset
    | Unsupported(c: char) // a conversion other than `s` after a key, or no key

  /** The tokens before the first malformed `%` sequence, and the error met there. */
  datatype Scanned = Scanned(tokens: seq<Token>, error: Option<FormatError>)

  /** A token as the scanner produces it: text is non-empty and holds no `%`,
      a key holds no parenthesis. */
  predicate WellFormed(tok: Token) {
    match tok
    case Text(s) => s != [] && '%' !in s
    case Percent => true
    case Placeholder(n) => '(' !in n && ')' !in n
  }

  /** How a token is written in a template. */
  function Spell(tok: Token): string {
    match tok
    case Text(s) => s
    case Percent => "%%"
    case Placeholder(n) => "%(" + n + ")s"
  }

  /** The template text that a token sequence spells. */
  function Untokenize(ts: seq<Token>): string {
    if ts == [] then "" else Spell(ts[0]) + Untokenize(ts[1..])
  }

  /** Length of the literal text at the start of `t`. */
  function TextRun(t: string): (n: nat)
    ensures n <= |t|
    ensures forall i :: 0 <= i < n ==> t[i] != '%'
    ensures n == |t| || t[n] == '%'
  {
    if t == [] || t[0] == '%' then 0 else 1 + TextRun(t[1..])
  }

  /** Position of the first parenthesis at or after `i`, or `|t|`. */
  function KeyEnd(t: string, i: nat): (k: nat)
    requires i <= |t|
    ensures i <= k <= |t|
    ensures forall j :: i <= j < k ==> t[j] != ')' && t[j] != '('
    ensures k == |t| || t[k] == ')' || t[k] == '('
    decreases |t| - i
  {
    if i == |t| || t[i] == ')' || t[i] == '(' then i else KeyEnd(t, i + 1)
  }

  function Prepend(tok: Token, rest: Scanned): Scanned {
    Scanned([tok] + rest.tokens, rest.error)
  }

  /** Reads the first token of a non-empty template, as `%` does: its
      length in the template, or the error met there. A token read is
      exactly its own spelling. */
  function Lex(t: string): (r: Result<(Token, nat), FormatError>)
    requires t != []
    ensures r.Ok? ==> 0 < r.value.1 <= |t| && Spell(r.value.0) == t[..r.value.1] && WellFormed(r.value.0)
  {
    if t[0] != '%' then
      var n := TextRun(t);
      Ok((Text(t[..n]), n))
    else if |t| == 1 then Err(IncompleteFormat)
    else if t[1] == '%' then Ok((Percent, 2))
    else if t[1] == '(' then
      var k := KeyEnd(t, 2);
      if k == |t| then Err(IncompleteKey)
      else if t[k] == '(' then Err(NestedKey)
      else if k + 1 == |t| then Err(IncompleteFormat)
      else if t[k + 1] != 's' then Err(Unsupported(t[k + 1]))
      else
        assert t[..k + 2] == "%(" + t[2..k] + ")s";
        Ok((Placeholder(t[2..k]), k + 2))
    else Err(Unsupported(t[1]))
  }

  /** Splits a template into tokens, left to right, as `%` reads it. */
  function Scan(t: string): (r: Scanned)
    ensures forall i :: 0 <= i < |r.tokens| ==> WellFormed(r.tokens[i])
    decreases |t|
  {
    if t == [] then Scanned([], None)
    else match Lex(t)
      case Err(e) => Scanned([], Some(e))
      case Ok((tok, m)) => Prepend(tok, Scan(t[m..]))
  }

  /** The placeholder names of a token sequence, in order, repeats included. */
  function Names(ts: seq<Token>): seq<string> {
    if ts == [] then []
    else Names(ts[..|ts| - 1]) + NameOf(ts[|ts| - 1])
  }

  function NameOf(tok: Token): seq<string> {
    if tok.Placeholder? then [tok.name] else []
  }

  lemma UntokenizeCons(tok: Token, rest: seq<Token>)
    ensures Untokenize([tok] + rest) == Spell(tok) + Untokenize(rest)
  {
    assert ([tok] + rest)[1..] == rest;
  }

  /** A token spelling the first `m` characters of `t`, followed by tokens
      that spell a prefix of the rest (all of it when `complete`), spells a
      prefix of `t` (all of it when `complete`). */
  lemma RoundTripStep(t: string, m: nat, tok: Token, rest: seq<Token>, complete: bool)
    requires m <= |t| && Spell(tok) == t[..m]
    requires Untokenize(rest) <= t[m..]
    requires complete ==> Untokenize(rest) == t[m..]
    ensures Untokenize([tok] + rest) <= t
    ensures complete ==> Untokenize([tok] + rest) == t
  {
    UntokenizeCons(tok, rest);
    assert t == t[..m] + t[m..];
  }

  /** Scanning loses nothing: the tokens spell the template up to the point
      where scanning stopped, and all of it when no error was met. */
  lemma {:induction false} ScanRoundTrip(t: string)
    ensures Untokenize(Scan(t).tokens) <= t
    ensures Scan(t).error.None? ==> Untokenize(Scan(t).tokens) == t
    decreases |t|
  {
    if t != [] && Lex(t).Ok? {
      var (tok, m) := Lex(t).value;
      ScanRoundTrip(t[m..]);
      var rest := Scan(t[m..]);
      RoundTripStep(t, m, tok, rest.tokens, rest.error.None?);
      assert Scan(t) == Prepend(tok, rest);
    }
  }

  /** Token sequences the scanner can return: well-formed tokens, and never
      two texts side by side (the scanner takes text in maximal runs). */
  predicate Canonical(ts: seq<Token>) {
    && (forall i :: 0 <= i < |ts| ==> WellFormed(ts[i]))
    && (forall i :: 0 <= i < |ts| - 1 ==> !(ts[i].Text? && ts[i + 1].Text?))
  }

  lemma {:induction false} TextRunOf(s: string, u: string)
    requires '%' !in s
    requires u == [] || u[0] == '%'
    ensures TextRun(s + u) == |s|
  {
    if s != [] {
      assert (s + u)[1..] == s[1..] + u;
      TextRunOf(s[1..], u);
    }
  }

  lemma {:induction false} KeyEndAt(t: string, i: nat, j: nat)
    requires i <= j < |t| && (t[j] == ')' || t[j] == '(')
    requires forall x :: i <= x < j ==> t[x] != ')' && t[x] != '('
    ensures KeyEnd(t, i) == j
    decreases j - i
  {
    if i < j {
      KeyEndAt(t, i + 1, j);
    }
  }

  lemma KeyEndOf(n: string, u: string)
    requires '(' !in n && ')' !in n
    ensures KeyEnd("%(" + n + ")s" + u, 2) == 2 + |n|
  {
    var t := "%(" + n + ")s" + u;
    forall x | 2 <= x < 2 + |n| ensures t[x] != ')' && t[x] != '(' {
      assert t[x] == n[x - 2];
    }
    KeyEndAt(t, 2, 2 + |n|);
  }

  lemma SpellStartsWithPercent(tok: Token)
    requires !tok.Text?
    ensures Spell(tok) != [] && Spell(tok)[0] == '%'
  {
  }

  /** A template that starts with a spelled token lexes to that token. */
  lemma LexSpelled(tok: Token, u: string)
    requires WellFormed(tok)
    requires tok.Text? ==> u == [] || u[0] == '%'
    ensures Spell(tok) != []
    ensures Lex(Spell(tok) + u) == Ok((tok, |Spell(tok)|))
  {
    var t := Spell(tok) + u;
    match tok
    case Text(s) =>
      TextRunOf(s, u);
      assert t[..|s|] == s;
    case Percent =>
    case Placeholder(n) =>
      KeyEndOf(n, u);
      assert t[2..2 + |n|] == n;
  }

  /** Scanning a template that starts with a spelled token yields that token,
      then whatever the rest of the template yields. */
  lemma ScanSpelled(tok: Token, u: string)
    requires WellFormed(tok)
    requires tok.Text? ==> u == [] || u[0] == '%'
    ensures Scan(Spell(tok) + u) == Prepend(tok, Scan(u))
  {
    LexSpelled(tok, u);
    assert (Spell(tok) + u)[|Spell(tok)|..] == u;
  }

  /** Dropping the first token keeps a token sequence canonical. */
  lemma CanonicalTail(ts: seq<Token>)
    requires ts != [] && Canonical(ts)
    ensures Canonical(ts[1..])
  {
    forall i | 0 <= i < |ts[1..]| - 1 ensures !(ts[1..][i].Text? && ts[1..][i + 1].Text?) {
      assert ts[1..][i] == ts[i + 1] && ts[1..][i + 1] == ts[i + 2];
    }
  }

  /** After a text token, the spelling of the rest starts with `%`. */
  lemma AfterText(ts: seq<Token>)
    requires ts != [] && Canonical(ts) && ts[0].Text?
    ensures Untokenize(ts[1..]) == [] || Untokenize(ts[1..])[0] == '%'
  {
    if ts[1..] != [] {
      assert !ts[1].Text?;
      SpellStartsWithPercent(ts[1]);
      assert Untokenize(ts[1..]) == Spell(ts[1]) + Untokenize(ts[2..]);
    }
  }

  /** The other direction of the round trip: spelling a canonical token
      sequence and scanning the text gives the tokens back, without error. */
  lemma {:induction false} UntokenizeRoundTrip(ts: seq<Token>)
    requires Canonical(ts)
    ensures Scan(Untokenize(ts)) == Scanned(ts, None)
  {
    if ts != [] {
      CanonicalTail(ts);
      UntokenizeRoundTrip(ts[1..]);
      if ts[0].Text? {
        AfterText(ts);
      }
      ScanSpelled(ts[0], Untokenize(ts[1..]));
      assert ts == [ts[0]] + ts[1..];
    }
  }
}
