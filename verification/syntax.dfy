/** Abstract syntax and the parser (`number_or_symbol`, `parse` with its
    helpers `get_ind` and `parse_tok`, interpreter.py:44-124), together with
    `Serialize`, the token rendering that `Parse` inverts. */
module Syntax {
  import opened Errors
  import Numerals
  import Lexer

  /** A parsed expression: an integer atom, a symbol atom (the booleans are
      the symbols `#t` and `#f`), or a parenthesised form. */
  datatype Expr =
    | Number(n: int)
    | Symbol(name: string)
    | Form(items: seq<Expr>)

  function Size(e: Expr): (n: nat)
    ensures n >= 1
  {
    match e
    case Form(xs) => 1 + SizeAll(xs)
    case _ => 1
  }

  function SizeAll(xs: seq<Expr>): nat {
    if xs == [] then 0 else Size(xs[0]) + SizeAll(xs[1..])
  }

  /** Python's substring test `t in "()"`, true for the empty string, either
      parenthesis and the two-character text `()`. */
  predicate InParenText(t: string) {
    t == "" || t == "(" || t == ")" || t == "()"
  }

  /** `number_or_symbol`: an integer when `int()` accepts the text, a symbol
      otherwise. */
  function NumberOrSymbol(t: string): (e: Expr)
    ensures e.Form? == false
  {
    match Numerals.ParseInt(t)
    case Some(n) => Number(n)
    case None => Symbol(t)
  }

  /* ---------------- matching parentheses ---------------- */

  /** Change in nesting depth caused by one token. */
  function Step(t: string): int {
    if t == "(" then 1 else if t == ")" then -1 else 0
  }

  /** Opening minus closing parentheses in a token run. */
  function Net(ts: seq<string>): int {
    if ts == [] then 0 else Step(ts[0]) + Net(ts[1..])
  }

  /** The balance of the stretch `tokens[i..k]`. */
  function Balance(tokens: seq<string>, i: nat, k: nat): int
    requires i <= k <= |tokens|
  {
    Net(tokens[i..k])
  }

  /** Depth reached after the opening parenthesis at `s` and the tokens
      `tokens[s+1..k]`. */
  function Depth(tokens: seq<string>, s: nat, k: nat): int
    requires s < k <= |tokens|
  {
    1 + Balance(tokens, s + 1, k)
  }

  /** The scan of `get_ind`: `depth` is the number of opening minus closing
      parentheses seen so far (the source keeps the two counts separately and
      compares them); the group closes at the first token that brings it to
      zero. The last token of the whole sequence is never examined. */
  function MatchFrom(tokens: seq<string>, i: nat, depth: int): (r: Result<nat>)
    ensures r.Ok? ==> i <= r.value && r.value + 1 < |tokens|
    ensures r.Err? ==> r.error == SyntaxError
    decreases |tokens| - i
  {
    if i + 1 >= |tokens| then Err(SyntaxError)
    else
      var d := depth + Step(tokens[i]);
      if d == 0 then Ok(i) else MatchFrom(tokens, i + 1, d)
  }

  /** `get_ind(s)`: index of the parenthesis closing the one at `s`. */
  function GetInd(tokens: seq<string>, s: nat): (r: Result<nat>)
    ensures r.Ok? ==> s < r.value && r.value + 1 < |tokens|
  {
    MatchFrom(tokens, s + 1, 1)
  }

  /* ---------------- parsing ---------------- */

  /** `parse_tok(s, e)`: the elements of the group whose contents are
      `tokens[s..e]`. */
  function ParseTok(tokens: seq<string>, s: nat, e: int): (r: Result<seq<Expr>>)
    requires e <= |tokens|
    ensures r.Err? ==> r.error == SyntaxError
    decreases |tokens| + 1 - s
  {
    if s >= e then Ok([])
    else if !InParenText(tokens[s]) then
      var rest :- ParseTok(tokens, s + 1, e);
      Ok([NumberOrSymbol(tokens[s])] + rest)
    else if tokens[s] == "(" then
      var g :- GetInd(tokens, s);
      var inner :- ParseTok(tokens, s + 1, g);
      var rest :- ParseTok(tokens, g + 1, e);
      Ok([Form(inner)] + rest)
    else Err(SyntaxError)
  }

  /** `parse(tokens)`. An empty token list gives the empty form, as the
      source's `parse_tok(1, -1)` does. */
  function Parse(tokens: seq<string>): (r: Result<Expr>)
    ensures r.Err? ==> r.error == SyntaxError
  {
    if |tokens| == 1 then
      if InParenText(tokens[0]) then Err(SyntaxError) else Ok(NumberOrSymbol(tokens[0]))
    else if |tokens| > 1 && (tokens[0] != "(" || tokens[|tokens| - 1] != ")") then
      Err(SyntaxError)
    else
      var items :- ParseTok(tokens, 1, |tokens| - 1);
      Ok(Form(items))
  }

  /* ---------------- what get_ind computes ---------------- */

  lemma NetCons(tokens: seq<string>, i: nat, k: nat)
    requires i < k <= |tokens|
    ensures Balance(tokens, i, k) == Step(tokens[i]) + Balance(tokens, i + 1, k)
  {
    assert tokens[i..k][0] == tokens[i];
    assert tokens[i..k][1..] == tokens[i + 1..k];
  }

  /** The scan stops at the first index `g` (before the last token) where
      `depth` plus the parentheses balance of `tokens[i..g+1]` is zero, and
      fails exactly when there is no such index. */
  lemma {:induction false} MatchFromSpec(tokens: seq<string>, i: nat, depth: int)
    ensures MatchFrom(tokens, i, depth).Ok? ==>
      var g := MatchFrom(tokens, i, depth).value;
      && depth + Balance(tokens, i, g + 1) == 0
      && forall k :: i < k <= g ==> depth + Balance(tokens, i, k) != 0
    ensures MatchFrom(tokens, i, depth).Err? ==>
      forall k :: i < k < |tokens| ==> depth + Balance(tokens, i, k) != 0
    decreases |tokens| - i
  {
    if i + 1 < |tokens| {
      var d := depth + Step(tokens[i]);
      NetCons(tokens, i, i + 1);
      assert Balance(tokens, i + 1, i + 1) == 0;
      if d != 0 {
        var i' := i + 1;
        MatchFromSpec(tokens, i', d);
        forall k | i' < k <= |tokens|
          ensures depth + Balance(tokens, i, k) == d + Balance(tokens, i', k)
        {
          NetCons(tokens, i, k);
        }
      }
    }
  }

  /** `get_ind(s)` returns the first index after `s` at which the
      parentheses of `tokens[s+1..]` close the one at `s`, and raises a syntax
      error when none does before the last token. */
  lemma GetIndSpec(tokens: seq<string>, s: nat)
    ensures GetInd(tokens, s).Ok? ==>
      var g := GetInd(tokens, s).value;
      && Depth(tokens, s, g + 1) == 0
      && forall k :: s < k <= g ==> Depth(tokens, s, k) != 0
    ensures GetInd(tokens, s).Err? ==>
      && GetInd(tokens, s).error == SyntaxError
      && forall k :: s < k < |tokens| ==> Depth(tokens, s, k) != 0
  {
    var i := s + 1;
    MatchFromSpec(tokens, i, 1);
    if i <= |tokens| {
      assert Balance(tokens, i, i) == 0;
    }
  }

  /** The scan passes over a stretch along which the running depth never
      reaches zero. */
  lemma {:induction false} MatchSkip(tokens: seq<string>, i: nat, j: nat, depth: int)
    requires i <= j < |tokens|
    requires forall k :: i < k <= j ==> depth + Balance(tokens, i, k) != 0
    ensures MatchFrom(tokens, i, depth) == MatchFrom(tokens, j, depth + Balance(tokens, i, j))
    decreases j - i
  {
    if i < j {
      var d := depth + Step(tokens[i]);
      var i' := i + 1;
      NetCons(tokens, i, i');
      assert Balance(tokens, i', i') == 0;
      assert d != 0;
      forall k | i' < k <= j
        ensures d + Balance(tokens, i', k) != 0
      {
        NetCons(tokens, i, k);
      }
      MatchSkip(tokens, i + 1, j, d);
      NetCons(tokens, i, j);
    } else {
      assert tokens[i..j] == [];
    }
  }

  /* ---------------- rendering expressions as tokens ---------------- */

  /** The tokens of an expression: atoms as their text, forms bracketed. */
  function Serialize(e: Expr): seq<string>
    decreases e
  {
    match e
    case Number(n) => [Numerals.ShowInt(n)]
    case Symbol(s) => [s]
    case Form(xs) => ["("] + SerializeAll(xs) + [")"]
  }

  function SerializeAll(xs: seq<Expr>): seq<string>
    decreases xs
  {
    if xs == [] then [] else Serialize(xs[0]) + SerializeAll(xs[1..])
  }

  /** Expressions the parser can reproduce: every symbol is a token the
      parser reads as a symbol. */
  predicate Readable(e: Expr)
    decreases e
  {
    match e
    case Number(_) => true
    case Symbol(s) => !InParenText(s) && Numerals.ParseInt(s).None?
    case Form(xs) => forall i :: 0 <= i < |xs| ==> Readable(xs[i])
  }

  /** Token runs in which the depth never drops below zero and ends at zero. */
  predicate Balanced(ts: seq<string>) {
    && Net(ts) == 0
    && forall k :: 0 <= k <= |ts| ==> Net(ts[..k]) >= 0
  }

  lemma {:induction false} NetAppend(a: seq<string>, b: seq<string>)
    ensures Net(a + b) == Net(a) + Net(b)
    decreases |a|
  {
    if a == [] {
      assert a + b == b;
    } else {
      assert (a + b)[0] == a[0];
      assert (a + b)[1..] == a[1..] + b;
      NetAppend(a[1..], b);
    }
  }

  lemma BalancedAppend(a: seq<string>, b: seq<string>)
    requires Balanced(a) && Balanced(b)
    ensures Balanced(a + b)
  {
    NetAppend(a, b);
    forall k | 0 <= k <= |a + b|
      ensures Net((a + b)[..k]) >= 0
    {
      if k <= |a| {
        assert (a + b)[..k] == a[..k];
      } else {
        assert (a + b)[..k] == a + b[..k - |a|];
        NetAppend(a, b[..k - |a|]);
      }
    }
  }

  lemma NetOne(t: string)
    ensures Net([t]) == Step(t)
  {
    assert [t][1..] == [];
  }

  lemma {:induction false} SerializeBalanced(e: Expr)
    requires Readable(e)
    ensures Balanced(Serialize(e))
    decreases e
  {
    match e
    case Number(n) =>
      NetOne(Numerals.ShowInt(n));
      assert Serialize(e)[..0] == [];
      assert Serialize(e)[..1] == Serialize(e);
    case Symbol(s) =>
      NetOne(s);
      assert Serialize(e)[..0] == [];
      assert Serialize(e)[..1] == Serialize(e);
    case Form(xs) =>
      var b := SerializeAll(xs);
      SerializeAllBalanced(xs);
      var w := ["("] + b + [")"];
      NetOne("(");
      NetOne(")");
      NetAppend(["("] + b, [")"]);
      NetAppend(["("], b);
      forall k | 0 <= k <= |w|
        ensures Net(w[..k]) >= 0
      {
        if k == 0 {
          assert w[..k] == [];
        } else if k <= |b| + 1 {
          assert w[..k] == ["("] + b[..k - 1];
          NetAppend(["("], b[..k - 1]);
        } else {
          assert w[..k] == w;
        }
      }
  }

  lemma {:induction false} SerializeAllBalanced(xs: seq<Expr>)
    requires forall i :: 0 <= i < |xs| ==> Readable(xs[i])
    ensures Balanced(SerializeAll(xs))
    decreases xs
  {
    if xs == [] {
      assert SerializeAll(xs)[..0] == [];
    } else {
      SerializeBalanced(xs[0]);
      SerializeAllBalanced(xs[1..]);
      BalancedAppend(Serialize(xs[0]), SerializeAll(xs[1..]));
    }
  }

  /* ---------------- parse inverts serialize ---------------- */

  lemma ReadableAtom(e: Expr)
    requires Readable(e) && !e.Form?
    ensures !InParenText(Serialize(e)[0])
    ensures NumberOrSymbol(Serialize(e)[0]) == e
  {
    if e.Number? {
      Numerals.ParseShowInt(e.n);
      var t := Numerals.ShowInt(e.n);
      assert t[0] != '(' && t[0] != ')';
    }
  }

  /** The closing parenthesis of a serialized form placed at `s` is the one
      `get_ind(s)` finds. */
  lemma GetIndSerialized(tokens: seq<string>, s: nat, xs: seq<Expr>)
    requires s + |SerializeAll(xs)| + 2 < |tokens|
    requires forall i :: 0 <= i < |xs| ==> Readable(xs[i])
    requires tokens[s..s + |SerializeAll(xs)| + 2] == Serialize(Form(xs))
    ensures GetInd(tokens, s) == Ok(s + 1 + |SerializeAll(xs)|)
    ensures tokens[s + 1..s + 1 + |SerializeAll(xs)|] == SerializeAll(xs)
  {
    var b := SerializeAll(xs);
    var g := s + 1 + |b|;
    SerializeAllBalanced(xs);
    assert Serialize(Form(xs)) == ["("] + (b + [")"]);
    SliceSplit(tokens, s, s + |b| + 2, ["("], b + [")"]);
    SliceSplit(tokens, s + 1, s + |b| + 2, b, [")"]);
    assert tokens[g] == tokens[g..g + 1][0];
    var i := s + 1;
    forall k | i < k <= g
      ensures 1 + Balance(tokens, i, k) != 0
    {
      assert tokens[i..k] == b[..k - i];
    }
    MatchSkip(tokens, i, g, 1);
  }

  lemma SliceSplit(tokens: seq<string>, s: nat, e: nat, a: seq<string>, b: seq<string>)
    requires s <= e <= |tokens|
    requires tokens[s..e] == a + b
    ensures tokens[s..s + |a|] == a
    ensures tokens[s + |a|..e] == b
  {
    assert tokens[s..s + |a|] == tokens[s..e][..|a|];
    assert tokens[s + |a|..e] == tokens[s..e][|a|..];
  }

  lemma {:induction false} ParseTokSerialized(tokens: seq<string>, s: nat, e: nat, xs: seq<Expr>)
    requires forall i :: 0 <= i < |xs| ==> Readable(xs[i])
    requires s <= e < |tokens|
    requires tokens[s..e] == SerializeAll(xs)
    ensures ParseTok(tokens, s, e) == Ok(xs)
    decreases SizeAll(xs), 1
  {
    if xs == [] {
      assert s == e;
    } else {
      match xs[0]
      case Form(ys) =>
        var g := GroupSlices(tokens, s, e, xs);
        ParseTokSerializedGroup(tokens, s, e, g, ys, xs[1..]);
        HeadTail(xs);
      case _ =>
        ParseTokSerializedAtom(tokens, s, e, xs);
    }
  }

  /** The first element is serialized as `tokens[s..s + |Serialize(xs[0])|]`
      and the rest after it. */
  lemma SerializedHead(tokens: seq<string>, s: nat, e: nat, xs: seq<Expr>)
    requires forall i :: 0 <= i < |xs| ==> Readable(xs[i])
    requires s <= e < |tokens| && xs != []
    requires tokens[s..e] == SerializeAll(xs)
    ensures s + |Serialize(xs[0])| <= e
    ensures tokens[s..s + |Serialize(xs[0])|] == Serialize(xs[0])
    ensures tokens[s + |Serialize(xs[0])|..e] == SerializeAll(xs[1..])
    ensures tokens[s] == Serialize(xs[0])[0]
    ensures forall i :: 0 <= i < |xs[1..]| ==> Readable(xs[1..][i])
    ensures SizeAll(xs) == Size(xs[0]) + SizeAll(xs[1..])
  {
    SliceSplit(tokens, s, e, Serialize(xs[0]), SerializeAll(xs[1..]));
    assert tokens[s] == tokens[s..s + |Serialize(xs[0])|][0];
  }

  lemma {:induction false} ParseTokSerializedAtom(tokens: seq<string>, s: nat, e: nat, xs: seq<Expr>)
    requires forall i :: 0 <= i < |xs| ==> Readable(xs[i])
    requires s <= e < |tokens|
    requires tokens[s..e] == SerializeAll(xs)
    requires xs != [] && !xs[0].Form?
    ensures ParseTok(tokens, s, e) == Ok(xs)
    decreases SizeAll(xs), 0
  {
    var x := xs[0];
    SerializedHead(tokens, s, e, xs);
    ReadableAtom(x);
    var m := s + |Serialize(x)|;
    ParseTokSerialized(tokens, m, e, xs[1..]);
    assert m == s + 1;
    ParseTokAtomStep(tokens, s, e, xs[1..]);
    assert [x] + xs[1..] == xs;
  }

  lemma {:induction false} ParseTokSerializedGroup(tokens: seq<string>, s: nat, e: nat, g: nat, ys: seq<Expr>, zs: seq<Expr>)
    requires s < g < e < |tokens| && tokens[s] == "(" && GetInd(tokens, s) == Ok(g)
    requires tokens[s + 1..g] == SerializeAll(ys)
    requires tokens[g + 1..e] == SerializeAll(zs)
    requires forall i :: 0 <= i < |ys| ==> Readable(ys[i])
    requires forall i :: 0 <= i < |zs| ==> Readable(zs[i])
    ensures ParseTok(tokens, s, e) == Ok([Form(ys)] + zs)
    decreases SizeAll(ys) + SizeAll(zs) + 1, 0
  {
    ParseTokSerialized(tokens, s + 1, g, ys);
    ParseTokSerialized(tokens, g + 1, e, zs);
    ParseTokGroupStep(tokens, s, e, g, ys, zs);
  }

  lemma HeadTail(xs: seq<Expr>)
    requires xs != []
    ensures [xs[0]] + xs[1..] == xs
  {
  }

  /** Where the pieces of a serialized leading form sit in `tokens`. */
  lemma GroupSlices(tokens: seq<string>, s: nat, e: nat, xs: seq<Expr>) returns (g: nat)
    requires forall i :: 0 <= i < |xs| ==> Readable(xs[i])
    requires s <= e < |tokens|
    requires tokens[s..e] == SerializeAll(xs)
    requires xs != [] && xs[0].Form?
    ensures s < g < e && tokens[s] == "(" && GetInd(tokens, s) == Ok(g)
    ensures tokens[s + 1..g] == SerializeAll(xs[0].items)
    ensures tokens[g + 1..e] == SerializeAll(xs[1..])
    ensures forall i :: 0 <= i < |xs[0].items| ==> Readable(xs[0].items[i])
    ensures forall i :: 0 <= i < |xs[1..]| ==> Readable(xs[1..][i])
    ensures SizeAll(xs[0].items) < SizeAll(xs) && SizeAll(xs[1..]) < SizeAll(xs)
  {
    var x := xs[0];
    var ys := x.items;
    var b := SerializeAll(ys);
    SerializedHead(tokens, s, e, xs);
    g := s + 1 + |b|;
    assert tokens[s] == "(";
    assert forall i :: 0 <= i < |ys| ==> Readable(ys[i]);
    GetIndSerialized(tokens, s, ys);
    assert Size(x) == 1 + SizeAll(ys);
  }

  lemma ParseTokAtomStep(tokens: seq<string>, s: nat, e: nat, zs: seq<Expr>)
    requires s < e <= |tokens| && !InParenText(tokens[s])
    requires ParseTok(tokens, s + 1, e) == Ok(zs)
    ensures ParseTok(tokens, s, e) == Ok([NumberOrSymbol(tokens[s])] + zs)
  {
  }

  lemma ParseTokGroupStep(tokens: seq<string>, s: nat, e: nat, g: nat, ys: seq<Expr>, zs: seq<Expr>)
    requires s < e <= |tokens| && tokens[s] == "(" && GetInd(tokens, s) == Ok(g)
    requires ParseTok(tokens, s + 1, g) == Ok(ys) && ParseTok(tokens, g + 1, e) == Ok(zs)
    ensures ParseTok(tokens, s, e) == Ok([Form(ys)] + zs)
  {
    assert InParenText(tokens[s]);
  }

  /** Parsing the tokens of a readable expression gives the expression back:
      the nesting of the result mirrors the parentheses. */
  lemma ParseSerialize(e: Expr)
    requires Readable(e)
    ensures Parse(Serialize(e)) == Ok(e)
  {
    var ts := Serialize(e);
    if e.Form? {
      var b := SerializeAll(e.items);
      assert ts[1..|ts| - 1] == b;
      ParseTokSerialized(ts, 1, |ts| - 1, e.items);
    } else {
      ReadableAtom(e);
    }
  }

  /* ---------------- text round trip ---------------- */

  /** Readable expressions whose symbols are single atom tokens: no
      whitespace, parenthesis or `;` inside a symbol. */
  predicate Printable(e: Expr)
    decreases e
  {
    match e
    case Number(_) => true
    case Symbol(s) => !InParenText(s) && Numerals.ParseInt(s).None? && Lexer.AtomText(s)
    case Form(xs) => forall i :: 0 <= i < |xs| ==> Printable(xs[i])
  }

  predicate AllWellFormed(ts: seq<string>) {
    forall i :: 0 <= i < |ts| ==> Lexer.WellFormedToken(ts[i])
  }

  lemma AllWellFormedAppend(a: seq<string>, b: seq<string>)
    requires AllWellFormed(a) && AllWellFormed(b)
    ensures AllWellFormed(a + b)
  {
    forall i | 0 <= i < |a + b|
      ensures Lexer.WellFormedToken((a + b)[i])
    {
      if i >= |a| {
        assert (a + b)[i] == b[i - |a|];
      }
    }
  }

  lemma {:induction false} PrintableTokens(e: Expr)
    requires Printable(e)
    decreases e, 1
    ensures Readable(e)
    ensures AllWellFormed(Serialize(e))
  {
    match e
    case Number(n) =>
      var t := Numerals.ShowInt(n);
      assert Lexer.AtomText(t) by {
        forall i | 0 <= i < |t|
          ensures Lexer.IsAtomChar(t[i])
        {
          assert Numerals.IsDigit(t[i]) || t[i] == '-';
        }
      }
    case Symbol(_) =>
    case Form(xs) =>
      PrintableAllTokens(xs);
      AllWellFormedAppend(["("], SerializeAll(xs));
      AllWellFormedAppend(["("] + SerializeAll(xs), [")"]);
  }

  lemma {:induction false} PrintableAllTokens(xs: seq<Expr>)
    requires forall i :: 0 <= i < |xs| ==> Printable(xs[i])
    decreases xs, 0
    ensures forall i :: 0 <= i < |xs| ==> Readable(xs[i])
    ensures AllWellFormed(SerializeAll(xs))
  {
    if xs != [] {
      PrintableTokens(xs[0]);
      PrintableAllTokens(xs[1..]);
      AllWellFormedAppend(Serialize(xs[0]), SerializeAll(xs[1..]));
      forall i | 0 <= i < |xs|
        ensures Readable(xs[i])
      {
        if i > 0 {
          assert xs[i] == xs[1..][i - 1];
        }
      }
    }
  }

  /** Writing a printable expression out as text, one space after each
      token, and running the tokenizer and the parser on the text gives the
      expression back. */
  lemma ReadBack(e: Expr)
    requires Printable(e)
    ensures Parse(Lexer.Tokenize(Lexer.Unwords(Serialize(e)))) == Ok(e)
  {
    PrintableTokens(e);
    Lexer.TokenizeUnwords(Serialize(e));
    ParseSerialize(e);
  }

  /* ---------------- syntax errors ---------------- */

  /** A lone parenthesis is a syntax error, and so is a run of two or more
      tokens that does not start with `(` and end with `)`. */
  lemma ParseBadShape(tokens: seq<string>)
    requires
      || (|tokens| == 1 && (tokens[0] == "(" || tokens[0] == ")"))
      || (|tokens| > 1 && (tokens[0] != "(" || tokens[|tokens| - 1] != ")"))
    ensures Parse(tokens) == Err(SyntaxError)
  {
  }

  /** Inside a group, a closing parenthesis where an element should start is
      a syntax error, and so is an opening parenthesis that no later token
      before the last closes. */
  lemma ParseTokErrors(tokens: seq<string>, s: nat, e: int)
    requires e <= |tokens| && s < e
    requires
      || tokens[s] == ")"
      || (tokens[s] == "(" && forall k :: s < k < |tokens| ==> Depth(tokens, s, k) != 0)
    ensures ParseTok(tokens, s, e) == Err(SyntaxError)
  {
    if tokens[s] == "(" {
      GetIndSpec(tokens, s);
    }
  }
}
