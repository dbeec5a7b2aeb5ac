/** Running a program text: `remove_space` drops comments and newlines,
    `get_line` cuts the result into top-level pieces, and `evaluate_file`
    evaluates the pieces in order in one shared top-level frame. */
module Driver {
  import opened Errors
  import opened Values
  import opened Frames
  import opened Evaluator
  import Lexer

  /* ---------------- remove_space ---------------- */

  /** `remove_space`: every line cut at its first `;`, and the lines joined
      with nothing in between. Spaces are kept; only newlines and comments
      go. */
  function RemoveSpace(file: string): (r: string)
    ensures ';' !in r && '\n' !in r
  {
    CodeTextClean(Lexer.Lines(file));
    Lexer.CodeText(Lexer.Lines(file))
  }

  lemma {:induction false} CodeTextClean(lines: seq<string>)
    requires forall i :: 0 <= i < |lines| ==> '\n' !in lines[i]
    ensures ';' !in Lexer.CodeText(lines) && '\n' !in Lexer.CodeText(lines)
  {
    if lines != [] {
      CodeTextClean(lines[1..]);
      var c := Lexer.Code(lines[0]);
      assert c == lines[0][..|c|];
      assert '\n' !in c by {
        forall i | 0 <= i < |c|
          ensures c[i] != '\n'
        {
          assert c[i] == lines[0][i];
        }
      }
    }
  }

  /** The text without its newlines. */
  function DropNewlines(s: string): (r: string)
    ensures '\n' !in r
  {
    if s == [] then []
    else if s[0] == '\n' then DropNewlines(s[1..])
    else [s[0]] + DropNewlines(s[1..])
  }

  lemma CodeNoComment(line: string)
    requires ';' !in line
    ensures Lexer.Code(line) == line
  {
    assert forall i :: 0 <= i < |line| ==> line[i] != ';';
  }

  lemma {:induction false} CodeTextNoComment(s: string, cur: string)
    requires ';' !in s && ';' !in cur && '\n' !in cur
    ensures Lexer.CodeText(Lexer.LinesFrom(s, cur)) == cur + DropNewlines(s)
    decreases |s|
  {
    if s == [] {
      CodeNoComment(cur);
      assert Lexer.CodeText([cur]) == Lexer.Code(cur) + Lexer.CodeText([]);
    } else if s[0] == '\n' {
      CodeNoComment(cur);
      CodeTextNoComment(s[1..], "");
      var rest := Lexer.LinesFrom(s[1..], "");
      assert ([cur] + rest)[1..] == rest;
    } else {
      assert ';' !in s[1..] by {
        forall i | 0 <= i < |s[1..]|
          ensures s[1..][i] != ';'
        {
          assert s[1..][i] == s[i + 1];
        }
      }
      CodeTextNoComment(s[1..], cur + [s[0]]);
      assert cur + [s[0]] + DropNewlines(s[1..]) == cur + ([s[0]] + DropNewlines(s[1..]));
    }
  }

  /** Without comments, `remove_space` only removes the newlines. */
  lemma RemoveSpaceNoComment(file: string)
    requires ';' !in file
    ensures RemoveSpace(file) == DropNewlines(file)
  {
    CodeTextNoComment(file, "");
  }

  /* ---------------- get_line ---------------- */

  predicate ParenFree(s: string) {
    '(' !in s && ')' !in s
  }

  /** The state of the `get_line` loop: the pieces so far, the piece being
      built, the counts of opening and closing parentheses seen (never
      reset), and whether the piece being built is inside parentheses. */
  datatype Scan = Scan(chunks: seq<string>, line: string, ob: nat, cb: nat, inParen: bool)

  /** One step of the loop. An opening parenthesis first ends a piece of
      text read outside parentheses; a closing one ends the piece once the
      closing count reaches the opening count. */
  function Feed(s: Scan, c: char): Scan {
    if c == '(' then
      if !s.inParen && s.line != [] then Scan(s.chunks + [s.line], "(", s.ob + 1, s.cb, true)
      else Scan(s.chunks, s.line + "(", s.ob + 1, s.cb, true)
    else if c != ')' then Scan(s.chunks, s.line + [c], s.ob, s.cb, s.inParen)
    else if s.cb + 1 >= s.ob then Scan(s.chunks + [s.line + [c]], "", s.ob, s.cb + 1, false)
    else Scan(s.chunks, s.line + [c], s.ob, s.cb + 1, s.inParen)
  }

  function FeedAll(s: Scan, code: string): Scan
    decreases |code|
  {
    if code == [] then s else FeedAll(Feed(s, code[0]), code[1..])
  }

  const Start := Scan([], "", 0, 0, false)

  /** `get_line`: the pieces; the unfinished last piece is not returned. */
  function GetLine(code: string): seq<string> {
    FeedAll(Start, code).chunks
  }

  /** Every piece is non-empty and either ends with `)` or holds no
      parenthesis at all; outside parentheses the piece being built holds
      none either, and the closing count has caught up. */
  predicate ScanOk(s: Scan) {
    && (forall i :: 0 <= i < |s.chunks| ==>
          s.chunks[i] != [] && (s.chunks[i][|s.chunks[i]| - 1] == ')' || ParenFree(s.chunks[i])))
    && (!s.inParen ==> ParenFree(s.line) && s.cb >= s.ob)
  }

  lemma FeedOk(s: Scan, c: char)
    requires ScanOk(s)
    ensures ScanOk(Feed(s, c))
    ensures Lexer.Concat(Feed(s, c).chunks) + Feed(s, c).line == Lexer.Concat(s.chunks) + s.line + [c]
  {
    var t := Feed(s, c);
    if t.chunks != s.chunks {
      var piece := t.chunks[|t.chunks| - 1];
      assert t.chunks == s.chunks + [piece];
      Lexer.ConcatAppend(s.chunks, [piece]);
      assert Lexer.Concat([piece]) == piece + Lexer.Concat([]);
    }
    if !t.inParen && c != ')' {
      assert t.line == s.line + [c];
      assert forall i :: 0 <= i < |t.line| - 1 ==> t.line[i] == s.line[i];
    }
  }

  lemma {:induction false} FeedAllOk(s: Scan, code: string)
    requires ScanOk(s)
    ensures ScanOk(FeedAll(s, code))
    ensures Lexer.Concat(FeedAll(s, code).chunks) + FeedAll(s, code).line == Lexer.Concat(s.chunks) + s.line + code
    decreases |code|
  {
    if code != [] {
      FeedOk(s, code[0]);
      FeedAllOk(Feed(s, code[0]), code[1..]);
      assert Lexer.Concat(s.chunks) + s.line + [code[0]] + code[1..] == Lexer.Concat(s.chunks) + s.line + code;
    }
  }

  /** The pieces are the code cut into consecutive non-empty parts, each
      ending in `)` or free of parentheses; what follows the last piece is
      dropped. */
  lemma GetLineSpec(code: string)
    ensures Lexer.Concat(GetLine(code)) + FeedAll(Start, code).line == code
    ensures forall i :: 0 <= i < |GetLine(code)| ==>
      GetLine(code)[i] != [] &&
      (GetLine(code)[i][|GetLine(code)[i]| - 1] == ')' || ParenFree(GetLine(code)[i]))
  {
    FeedAllOk(Start, code);
  }

  /* ---------------- get_line on well-formed programs ---------------- */

  /** Occurrences of `c` in `s`. */
  function Count(s: string, c: char): nat {
    if s == [] then 0 else Count(s[..|s| - 1], c) + (if s[|s| - 1] == c then 1 else 0)
  }

  /** A parenthesized form written out: it opens with `(`, closes with `)`,
      and its parentheses balance at the end and nowhere before. */
  predicate Group(t: string) {
    && |t| >= 2 && t[0] == '(' && t[|t| - 1] == ')'
    && Count(t, '(') == Count(t, ')')
    && forall k :: 1 <= k < |t| ==> Count(t[..k], '(') > Count(t[..k], ')')
  }

  function Flush(s: string): seq<string> {
    if s == [] then [] else [s]
  }

  lemma {:induction false} FeedAllAppend(s: Scan, a: string, b: string)
    ensures FeedAll(s, a + b) == FeedAll(FeedAll(s, a), b)
    decreases |a|
  {
    if a != [] {
      assert (a + b)[0] == a[0] && (a + b)[1..] == a[1..] + b;
      FeedAllAppend(Feed(s, a[0]), a[1..], b);
    } else {
      assert a + b == b;
    }
  }

  lemma FeedAllSnoc(s: Scan, a: string)
    requires a != []
    ensures FeedAll(s, a) == Feed(FeedAll(s, a[..|a| - 1]), a[|a| - 1])
  {
    assert a == a[..|a| - 1] + [a[|a| - 1]];
    FeedAllAppend(s, a[..|a| - 1], [a[|a| - 1]]);
  }

  /** Text without parentheses, read outside parentheses, only grows the
      piece being built. */
  lemma {:induction false} TextFeed(cs: seq<string>, pre: string, n: nat, m: nat, b: string)
    requires ParenFree(b)
    ensures FeedAll(Scan(cs, pre, n, m, false), b) == Scan(cs, pre + b, n, m, false)
    decreases |b|
  {
    if b != [] {
      assert ParenFree(b[1..]) by {
        assert forall i :: 0 <= i < |b[1..]| ==> b[1..][i] == b[i + 1];
      }
      TextFeed(cs, pre + [b[0]], n, m, b[1..]);
      assert pre + [b[0]] + b[1..] == pre + b;
    }
  }

  /** Inside a form, before its end, the piece being built is the prefix
      read so far, after the text that preceded the form was set apart. */
  lemma {:induction false} GroupPrefix(cs: seq<string>, pre: string, n: nat, t: string, k: nat)
    requires Group(t) && ParenFree(pre) && 1 <= k < |t|
    ensures FeedAll(Scan(cs, pre, n, n, false), t[..k]) ==
      Scan(cs + Flush(pre), t[..k], n + Count(t[..k], '('), n + Count(t[..k], ')'), true)
    decreases k
  {
    var s0 := Scan(cs, pre, n, n, false);
    FeedAllSnoc(s0, t[..k]);
    assert t[..k][..k - 1] == t[..k - 1] && t[..k][k - 1] == t[k - 1];
    if k == 1 {
      assert t[..1] == "(";
      assert Count(t[..1], '(') == 1 && Count(t[..1], ')') == 0 by {
        assert t[..1][..0] == [];
      }
    } else {
      GroupPrefix(cs, pre, n, t, k - 1);
      assert t[..k - 1] + [t[k - 1]] == t[..k];
    }
  }

  /** A whole form, preceded by parenthesis-free text, becomes one piece
      after that text's own piece; the counts are level again. */
  lemma GroupFeed(cs: seq<string>, pre: string, n: nat, t: string)
    requires Group(t) && ParenFree(pre)
    ensures FeedAll(Scan(cs, pre, n, n, false), t) ==
      Scan(cs + Flush(pre) + [t], "", n + Count(t, '('), n + Count(t, '('), false)
  {
    var k := |t| - 1;
    GroupPrefix(cs, pre, n, t, k);
    FeedAllSnoc(Scan(cs, pre, n, n, false), t);
    assert t[..k] + [t[k]] == t;
  }

  /** A program laid out as text-then-form pairs followed by trailing text. */
  function Layout(bs: seq<string>, gs: seq<string>): string
    requires |bs| == |gs|
  {
    if bs == [] then [] else bs[0] + gs[0] + Layout(bs[1..], gs[1..])
  }

  /** The pieces `get_line` should produce for that layout. */
  function Pieces(bs: seq<string>, gs: seq<string>): seq<string>
    requires |bs| == |gs|
  {
    if bs == [] then [] else Flush(bs[0]) + [gs[0]] + Pieces(bs[1..], gs[1..])
  }

  predicate Shape(bs: seq<string>, gs: seq<string>) {
    |bs| == |gs| && forall i :: 0 <= i < |bs| ==> ParenFree(bs[i]) && Group(gs[i])
  }

  lemma ShapeTail(bs: seq<string>, gs: seq<string>)
    requires Shape(bs, gs) && bs != []
    ensures Shape(bs[1..], gs[1..]) && ParenFree(bs[0]) && Group(gs[0])
  {
    forall i | 0 <= i < |bs| - 1
      ensures ParenFree(bs[1..][i]) && Group(gs[1..][i])
    {
      assert bs[1..][i] == bs[i + 1] && gs[1..][i] == gs[i + 1];
    }
  }

  lemma {:induction false} LayoutFeed(cs: seq<string>, n: nat, bs: seq<string>, gs: seq<string>, tail: string)
    requires Shape(bs, gs) && ParenFree(tail)
    ensures FeedAll(Scan(cs, "", n, n, false), Layout(bs, gs) + tail).chunks == cs + Pieces(bs, gs)
    ensures FeedAll(Scan(cs, "", n, n, false), Layout(bs, gs) + tail).line == tail
    decreases |bs|
  {
    if bs == [] {
      TextFeed(cs, "", n, n, tail);
      assert "" + tail == tail;
    } else {
      ShapeTail(bs, gs);
      var rest := Layout(bs[1..], gs[1..]) + tail;
      var k := Count(gs[0], '(');
      var s0 := Scan(cs, "", n, n, false);
      var cs2 := cs + Flush(bs[0]) + [gs[0]];
      var s2 := Scan(cs2, "", n + k, n + k, false);
      assert Layout(bs, gs) == bs[0] + gs[0] + Layout(bs[1..], gs[1..]);
      assert Layout(bs, gs) + tail == bs[0] + (gs[0] + rest);
      PairFeed(cs, n, bs[0], gs[0], rest);
      assert FeedAll(s0, Layout(bs, gs) + tail) == FeedAll(s2, rest);
      LayoutFeed(cs2, n + k, bs[1..], gs[1..], tail);
      assert Pieces(bs, gs) == Flush(bs[0]) + [gs[0]] + Pieces(bs[1..], gs[1..]);
      assert cs2 + Pieces(bs[1..], gs[1..]) == cs + Pieces(bs, gs);
    }
  }

  /** Text without parentheses followed by a form: two pieces (one if the
      text is empty), and the counts level again. */
  lemma PairFeed(cs: seq<string>, n: nat, b: string, g: string, rest: string)
    requires ParenFree(b) && Group(g)
    ensures FeedAll(Scan(cs, "", n, n, false), b + (g + rest)) ==
      FeedAll(Scan(cs + Flush(b) + [g], "", n + Count(g, '('), n + Count(g, '('), false), rest)
  {
    var s0 := Scan(cs, "", n, n, false);
    var s1 := Scan(cs, b, n, n, false);
    assert "" + b == b;
    calc {
      FeedAll(s0, b + (g + rest));
      { FeedAllAppend(s0, b, g + rest); }
      FeedAll(FeedAll(s0, b), g + rest);
      { TextFeed(cs, "", n, n, b); }
      FeedAll(s1, g + rest);
      { FeedAllAppend(s1, g, rest); }
      FeedAll(FeedAll(s1, g), rest);
      { GroupFeed(cs, b, n, g); }
      FeedAll(Scan(cs + Flush(b) + [g], "", n + Count(g, '('), n + Count(g, '('), false), rest);
    }
  }

  /** On a program made of forms, each possibly preceded by text without
      parentheses, `get_line` returns each non-empty text and each form as
      its own piece, in order; text after the last form is dropped. */
  lemma GetLineForms(bs: seq<string>, gs: seq<string>, tail: string)
    requires Shape(bs, gs) && ParenFree(tail)
    ensures GetLine(Layout(bs, gs) + tail) == Pieces(bs, gs)
  {
    LayoutFeed([], 0, bs, gs, tail);
  }

  /** The parenthesis counts are never reset, so a stray `)` early on
      makes a later form end one `)` too soon. */
  lemma GetLineStrayClose()
    ensures GetLine(")((a))") == [")", "((a)", ")"]
  {
    var s1 := Feed(Start, ')');
    assert "" + [')'] == ")" && [] + [")"] == [")"];
    assert s1 == Scan([")"], "", 0, 1, false);
    assert ")((a))"[1..] == "((a))";
    assert Feed(s1, '(') == Scan([")"], "(", 1, 1, true);
    assert Feed(Feed(s1, '('), '(') == Scan([")"], "((", 2, 1, true);
    assert Feed(Feed(Feed(s1, '('), '('), 'a') == Scan([")"], "((a", 2, 1, true);
    var s2 := Feed(Feed(Feed(Feed(s1, '('), '('), 'a'), ')');
    assert "((a" + [')'] == "((a)" && [")"] + ["((a)"] == [")", "((a)"];
    assert s2 == Scan([")", "((a)"], "", 2, 2, false);
    assert Feed(s2, ')') == Scan([")", "((a)", ")"], "", 2, 3, false);
    assert "((a))"[1..] == "(a))" && "(a))"[1..] == "a))" && "a))"[1..] == "))" && "))"[1..] == ")";
    assert ")"[1..] == "";
    assert FeedAll(Start, ")((a))") == Feed(s2, ')');
  }

  /* ---------------- evaluate_file ---------------- */

  /** The loop of `evaluate_file`: each piece is tokenized, parsed and
      evaluated in the top-level frame in turn; the result is the value of
      the last piece, or nothing when there are no pieces. The first error
      ends the run. */
  function RunChunks(fuel: nat, chunks: seq<string>, st: Store): (r: Outcome<Option<Value>>)
    requires Valid(st) && GlobalFrame in st.frames
    ensures r.Done? ==> Grows(st, r.st) && (r.val.None? <==> chunks == [])
    decreases |chunks|
  {
    if chunks == [] then Done(None, st)
    else
      match EvaluateExpression(fuel, chunks[0], st)
      case Fail(x) => Fail(x)
      case Done(v, st1) =>
        if |chunks| == 1 then Done(Some(v), st1)
        else
          match RunChunks(fuel, chunks[1..], st1)
          case Fail(x) => Fail(x)
          case Done(w, st2) => Done(w, st2)
  }

  /** Adding a piece at the end runs it after the others, in the store they
      left, and its value becomes the result. */
  lemma {:induction false} RunChunksLast(fuel: nat, chunks: seq<string>, c: string, st: Store)
    requires Valid(st) && GlobalFrame in st.frames
    ensures RunChunks(fuel, chunks + [c], st) ==
      match RunChunks(fuel, chunks, st)
      case Fail(x) => Fail(x)
      case Done(_, st1) =>
        match EvaluateExpression(fuel, c, st1)
        case Fail(x) => Fail(x)
        case Done(v, st2) => Done(Some(v), st2)
    decreases |chunks|
  {
    if chunks != [] {
      assert (chunks + [c])[0] == chunks[0];
      assert (chunks + [c])[1..] == chunks[1..] + [c];
      match EvaluateExpression(fuel, chunks[0], st)
      case Fail(_) =>
      case Done(_, st1) =>
        if |chunks| > 1 {
          RunChunksLast(fuel, chunks[1..], c, st1);
        } else {
          assert chunks[1..] + [c] == [c];
        }
    }
  }

  /** `evaluate_file` on the program text, with the store holding the
      shared top-level frame passed in. */
  function EvaluateFile(fuel: nat, file: string, st: Store): (r: Outcome<Option<Value>>)
    requires Valid(st) && GlobalFrame in st.frames
    ensures r.Done? ==> Grows(st, r.st)
  {
    RunChunks(fuel, GetLine(RemoveSpace(file)), st)
  }

  /** A program without comments, laid out as forms possibly preceded by
      text without parentheses, runs exactly those pieces. */
  lemma EvaluateFileForms(fuel: nat, file: string, st: Store, bs: seq<string>, gs: seq<string>, tail: string)
    requires Valid(st) && GlobalFrame in st.frames && ';' !in file
    requires Shape(bs, gs) && ParenFree(tail)
    requires DropNewlines(file) == Layout(bs, gs) + tail
    ensures EvaluateFile(fuel, file, st) == RunChunks(fuel, Pieces(bs, gs), st)
  {
    RemoveSpaceNoComment(file);
    GetLineForms(bs, gs, tail);
  }
}
