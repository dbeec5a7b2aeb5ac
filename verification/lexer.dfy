/** The tokenizer (`tokenize`, interpreter.py:59-80): each line is cut at its
    first `;`, every parenthesis is surrounded by spaces, and the result is
    split on whitespace. Alongside the model sits `Lex`, a conventional
    character scanner used as an independent reference. */
module Lexer {

  /** The characters Python's `str.split()` and `str.strip()` treat as
      whitespace. */
  predicate IsSpace(c: char) {
    || ('\t' <= c <= '\r')
    || ('\U{1C}' <= c <= '\U{1F}')
    || c == ' '
    || c == '\U{85}'
    || c == '\U{A0}'
    || c == '\U{1680}'
    || ('\U{2000}' <= c <= '\U{200A}')
    || c == '\U{2028}'
    || c == '\U{2029}'
    || c == '\U{202F}'
    || c == '\U{205F}'
    || c == '\U{3000}'
  }

  predicate IsParen(c: char) {
    c == '(' || c == ')'
  }

  /** A character that can sit inside an atom token. */
  predicate IsAtomChar(c: char) {
    !IsSpace(c) && !IsParen(c) && c != ';'
  }

  predicate AtomText(s: string) {
    forall i :: 0 <= i < |s| ==> IsAtomChar(s[i])
  }

  /** What a token produced by the tokenizer looks like: a parenthesis on
      its own, or a non-empty run of atom characters. */
  predicate WellFormedToken(t: string) {
    t == "(" || t == ")" || (|t| > 0 && AtomText(t))
  }

  /* ---------------- lines ---------------- */

  /** `s.split("\n")`: the pieces between newlines, one more than the number
      of newlines. */
  function Lines(s: string): (r: seq<string>)
    ensures |r| > 0
    ensures forall i :: 0 <= i < |r| ==> '\n' !in r[i]
  {
    LinesFrom(s, "")
  }

  function LinesFrom(s: string, cur: string): (r: seq<string>)
    requires '\n' !in cur
    ensures |r| > 0
    ensures forall i :: 0 <= i < |r| ==> '\n' !in r[i]
    decreases |s|
  {
    if s == [] then [cur]
    else if s[0] == '\n' then [cur] + LinesFrom(s[1..], "")
    else LinesFrom(s[1..], cur + [s[0]])
  }

  /** Inverse of `Lines`: the pieces joined with newlines. */
  function JoinLines(ls: seq<string>): string
    requires |ls| > 0
  {
    if |ls| == 1 then ls[0] else ls[0] + "\n" + JoinLines(ls[1..])
  }

  lemma {:induction false} LinesFromJoin(s: string, cur: string)
    requires '\n' !in cur
    ensures JoinLines(LinesFrom(s, cur)) == cur + s
    decreases |s|
  {
    if s == [] {
    } else if s[0] == '\n' {
      LinesFromJoin(s[1..], "");
      assert s == [s[0]] + s[1..];
    } else {
      LinesFromJoin(s[1..], cur + [s[0]]);
      assert cur + [s[0]] + s[1..] == cur + s;
    }
  }

  /** Splitting on newlines loses nothing: joining the lines gives back the
      source. */
  lemma LinesRoundTrip(s: string)
    ensures JoinLines(Lines(s)) == s
  {
    LinesFromJoin(s, "");
  }

  lemma {:induction false} LinesFromNoNewline(s: string, cur: string)
    requires '\n' !in cur && '\n' !in s
    ensures LinesFrom(s, cur) == [cur + s]
    decreases |s|
  {
    if s != [] {
      assert s[0] in s;
      LinesFromNoNewline(s[1..], cur + [s[0]]);
      assert cur + [s[0]] + s[1..] == cur + s;
    } else {
      assert cur + s == cur;
    }
  }

  /* ---------------- comments ---------------- */

  /** The part of a line before its first `;`. */
  function Code(line: string): (r: string)
    ensures r <= line
    ensures ';' !in r
    ensures |r| < |line| ==> line[|r|] == ';'
  {
    if line == [] || line[0] == ';' then []
    else
      var r := Code(line[1..]);
      assert line == [line[0]] + line[1..];
      assert ([line[0]] + r)[1..] == r;
      [line[0]] + r
  }

  /** The comment-free text of a whole source: every line cut at its first
      `;`, the pieces concatenated. */
  function CodeText(lines: seq<string>): string {
    if lines == [] then [] else Code(lines[0]) + CodeText(lines[1..])
  }

  /** The non-whitespace characters of `s`, in order. */
  function NonSpace(s: string): (r: string)
    ensures forall i :: 0 <= i < |r| ==> !IsSpace(r[i])
  {
    if s == [] then []
    else if IsSpace(s[0]) then NonSpace(s[1..])
    else
      var r := NonSpace(s[1..]);
      assert forall i :: 1 <= i < |[s[0]] + r| ==> ([s[0]] + r)[i] == r[i - 1];
      [s[0]] + r
  }

  lemma {:induction false} NonSpaceAppend(a: string, b: string)
    ensures NonSpace(a + b) == NonSpace(a) + NonSpace(b)
    decreases |a|
  {
    if a != [] {
      assert (a + b)[0] == a[0];
      assert (a + b)[1..] == a[1..] + b;
      NonSpaceAppend(a[1..], b);
    } else {
      assert a + b == b;
    }
  }

  /* ---------------- the tokenizer as written ---------------- */

  /** The inner loop of `tokenize` over one line: stop at `;`, surround each
      parenthesis with spaces, copy every other character. */
  function Padded(line: string): string {
    if line == [] || line[0] == ';' then []
    else if IsParen(line[0]) then [' ', line[0], ' '] + Padded(line[1..])
    else [line[0]] + Padded(line[1..])
  }

  function Flush(cur: string): seq<string> {
    if cur == [] then [] else [cur]
  }

  /** `s.split()`, continuing a word already holding `cur`. */
  function SplitFrom(s: string, cur: string): seq<string>
    decreases |s|
  {
    if s == [] then Flush(cur)
    else if IsSpace(s[0]) then Flush(cur) + SplitFrom(s[1..], [])
    else SplitFrom(s[1..], cur + [s[0]])
  }

  function SplitWords(s: string): seq<string> {
    SplitFrom(s, [])
  }

  function LineTokens(line: string): seq<string> {
    SplitWords(Padded(line))
  }

  function TokenizeLines(lines: seq<string>): seq<string> {
    if lines == [] then [] else LineTokens(lines[0]) + TokenizeLines(lines[1..])
  }

  /** `tokenize(source)`. */
  function Tokenize(source: string): seq<string> {
    TokenizeLines(Lines(source))
  }

  /* ---------------- reference scanner ---------------- */

  /** A one-pass scanner over a raw line: `cur` is the atom being read; a
      parenthesis is emitted on its own, whitespace ends an atom, `;` ends
      the line. */
  function Lex(line: string, cur: string): seq<string>
    decreases |line|
  {
    if line == [] || line[0] == ';' then Flush(cur)
    else if IsParen(line[0]) then Flush(cur) + [[line[0]]] + Lex(line[1..], [])
    else if IsSpace(line[0]) then Flush(cur) + Lex(line[1..], [])
    else Lex(line[1..], cur + [line[0]])
  }

  /** Padding parentheses with spaces and splitting on whitespace is the same
      as scanning the line once. */
  lemma {:induction false} SplitPaddedIsLex(line: string, cur: string)
    ensures SplitFrom(Padded(line), cur) == Lex(line, cur)
    decreases |line|
  {
    if line == [] || line[0] == ';' {
    } else if IsParen(line[0]) {
      var c := line[0];
      var p := Padded(line[1..]);
      var s := [' ', c, ' '] + p;
      assert s[0] == ' ' && s[1..] == [c, ' '] + p;
      assert ([c, ' '] + p)[0] == c && ([c, ' '] + p)[1..] == [' '] + p;
      assert ([' '] + p)[0] == ' ' && ([' '] + p)[1..] == p;
      assert SplitFrom(s, cur) == Flush(cur) + SplitFrom([c, ' '] + p, []);
      assert !IsSpace(c);
      assert [] + [c] == [c];
      assert SplitFrom([c, ' '] + p, []) == SplitFrom([' '] + p, [c]);
      assert SplitFrom([' '] + p, [c]) == [[c]] + SplitFrom(p, []);
      SplitPaddedIsLex(line[1..], []);
    } else {
      var s := [line[0]] + Padded(line[1..]);
      assert s[0] == line[0] && s[1..] == Padded(line[1..]);
      SplitPaddedIsLex(line[1..], if IsSpace(line[0]) then [] else cur + [line[0]]);
    }
  }

  lemma LineTokensIsLex(line: string)
    ensures LineTokens(line) == Lex(line, [])
  {
    SplitPaddedIsLex(line, []);
  }

  /* ---------------- properties of the scanner ---------------- */

  function Concat(ts: seq<string>): string {
    if ts == [] then [] else ts[0] + Concat(ts[1..])
  }

  lemma {:induction false} ConcatAppend(a: seq<string>, b: seq<string>)
    ensures Concat(a + b) == Concat(a) + Concat(b)
    decreases |a|
  {
    if a != [] {
      assert (a + b)[0] == a[0];
      assert (a + b)[1..] == a[1..] + b;
      ConcatAppend(a[1..], b);
      assert Concat(a + b) == a[0] + Concat(a[1..] + b);
      assert Concat(a) == a[0] + Concat(a[1..]);
    } else {
      assert a + b == b;
    }
  }

  /** Scanning keeps exactly the non-whitespace characters before the first
      `;`, in order. */
  lemma {:induction false} LexConcat(line: string, cur: string)
    ensures Concat(Lex(line, cur)) == cur + NonSpace(Code(line))
    decreases |line|
  {
    if line == [] || line[0] == ';' {
      ConcatFlush(cur);
    } else {
      var c := line[0];
      CodeCons(line);
      if IsParen(c) {
        LexConcat(line[1..], []);
        LexConcatParen(line, cur);
      } else if IsSpace(c) {
        LexConcat(line[1..], []);
        LexConcatSpace(line, cur);
      } else {
        LexConcat(line[1..], cur + [c]);
        LexConcatAtom(line, cur);
      }
    }
  }

  lemma ConcatFlush(cur: string)
    ensures Concat(Flush(cur)) == cur
  {
    if cur != [] {
      assert Concat([cur]) == cur + Concat([]);
    }
  }

  /** A line that does not start with `;` keeps its first character. */
  lemma CodeCons(line: string)
    requires line != [] && line[0] != ';'
    ensures Code(line) == [line[0]] + Code(line[1..])
    ensures NonSpace(Code(line)) ==
      if IsSpace(line[0]) then NonSpace(Code(line[1..])) else [line[0]] + NonSpace(Code(line[1..]))
  {
    var c := line[0];
    assert ([c] + Code(line[1..]))[0] == c;
    assert ([c] + Code(line[1..]))[1..] == Code(line[1..]);
  }

  lemma LexConcatSpace(line: string, cur: string)
    requires line != [] && IsSpace(line[0])
    requires Concat(Lex(line[1..], [])) == NonSpace(Code(line[1..]))
    ensures Concat(Lex(line, cur)) == cur + NonSpace(Code(line))
  {
    CodeCons(line);
    ConcatFlush(cur);
    ConcatAppend(Flush(cur), Lex(line[1..], []));
  }

  lemma AppendAssoc(a: string, b: string, c: string)
    ensures a + b + c == a + (b + c)
  {
  }

  lemma LexConcatAtom(line: string, cur: string)
    requires line != [] && IsAtomChar(line[0])
    requires Concat(Lex(line[1..], cur + [line[0]])) == cur + [line[0]] + NonSpace(Code(line[1..]))
    ensures Concat(Lex(line, cur)) == cur + NonSpace(Code(line))
  {
    var c := line[0];
    CodeCons(line);
    assert Lex(line, cur) == Lex(line[1..], cur + [c]);
    AppendAssoc(cur, [c], NonSpace(Code(line[1..])));
  }

  lemma LexConcatParen(line: string, cur: string)
    requires line != [] && IsParen(line[0])
    requires Concat(Lex(line[1..], [])) == NonSpace(Code(line[1..]))
    ensures Concat(Lex(line, cur)) == cur + NonSpace(Code(line))
  {
    var c := line[0];
    CodeCons(line);
    ConcatAppend(Flush(cur) + [[c]], Lex(line[1..], []));
    ConcatAppend(Flush(cur), [[c]]);
    ConcatFlush(cur);
    assert Concat([[c]]) == [c] + Concat([]);
  }

  /** Every scanned token is a lone parenthesis or a non-empty atom. */
  lemma {:induction false} LexWellFormed(line: string, cur: string)
    requires AtomText(cur)
    ensures forall i :: 0 <= i < |Lex(line, cur)| ==> WellFormedToken(Lex(line, cur)[i])
    decreases |line|
  {
    if line == [] || line[0] == ';' {
    } else if IsParen(line[0]) {
      LexWellFormed(line[1..], []);
      assert [line[0]] == "(" || [line[0]] == ")";
    } else if IsSpace(line[0]) {
      LexWellFormed(line[1..], []);
    } else {
      LexWellFormed(line[1..], cur + [line[0]]);
    }
  }

  lemma {:induction false} TokenizeLinesConcat(lines: seq<string>)
    ensures Concat(TokenizeLines(lines)) == NonSpace(CodeText(lines))
    decreases |lines|
  {
    if lines != [] {
      LineTokensIsLex(lines[0]);
      LexConcat(lines[0], []);
      ConcatAppend(LineTokens(lines[0]), TokenizeLines(lines[1..]));
      NonSpaceAppend(Code(lines[0]), CodeText(lines[1..]));
      TokenizeLinesConcat(lines[1..]);
    }
  }

  /** Concatenating the tokens gives exactly the non-whitespace characters of
      each line cut at its first `;`, in order. */
  lemma TokenizeConcat(source: string)
    ensures Concat(Tokenize(source)) == NonSpace(CodeText(Lines(source)))
  {
    TokenizeLinesConcat(Lines(source));
  }

  lemma {:induction false} TokenizeLinesWellFormed(lines: seq<string>)
    ensures forall i :: 0 <= i < |TokenizeLines(lines)| ==> WellFormedToken(TokenizeLines(lines)[i])
    decreases |lines|
  {
    if lines != [] {
      LineTokensIsLex(lines[0]);
      LexWellFormed(lines[0], []);
      TokenizeLinesWellFormed(lines[1..]);
    }
  }

  /** Every token is either a parenthesis on its own or a non-empty run of
      characters that are neither whitespace, parentheses nor `;`. */
  lemma TokenizeWellFormed(source: string)
    ensures forall i :: 0 <= i < |Tokenize(source)| ==> WellFormedToken(Tokenize(source)[i])
  {
    TokenizeLinesWellFormed(Lines(source));
  }

  /* ---------------- rendering tokens back to text ---------------- */

  /** Tokens written out, each followed by one space. */
  function Unwords(ts: seq<string>): string {
    if ts == [] then [] else ts[0] + " " + Unwords(ts[1..])
  }

  lemma {:induction false} LexAtomPrefix(a: string, b: string, cur: string)
    requires AtomText(a)
    ensures Lex(a + b, cur) == Lex(b, cur + a)
    decreases |a|
  {
    if a != [] {
      assert (a + b)[0] == a[0];
      assert (a + b)[1..] == a[1..] + b;
      assert IsAtomChar(a[0]);
      LexAtomPrefix(a[1..], b, cur + [a[0]]);
      assert cur + [a[0]] + a[1..] == cur + a;
    } else {
      assert a + b == b && cur + a == cur;
    }
  }

  lemma {:induction false} LexUnwords(ts: seq<string>)
    requires forall i :: 0 <= i < |ts| ==> WellFormedToken(ts[i])
    ensures Lex(Unwords(ts), []) == ts
    decreases |ts|
  {
    if ts != [] {
      var rest := Unwords(ts[1..]);
      assert Unwords(ts) == ts[0] + ([' '] + rest);
      var tail := [' '] + rest;
      assert tail[0] == ' ' && tail[1..] == rest;
      LexUnwords(ts[1..]);
      if ts[0] == "(" || ts[0] == ")" {
        var s := ts[0] + tail;
        assert s[0] == ts[0][0] && s[1..] == tail;
      } else {
        LexAtomPrefix(ts[0], tail, []);
        assert [] + ts[0] == ts[0];
        assert Lex(tail, ts[0]) == Flush(ts[0]) + Lex(rest, []);
        assert ts == [ts[0]] + ts[1..];
      }
    }
  }

  lemma {:induction false} UnwordsPlain(ts: seq<string>)
    requires forall i :: 0 <= i < |ts| ==> WellFormedToken(ts[i])
    ensures '\n' !in Unwords(ts)
    decreases |ts|
  {
    if ts != [] {
      UnwordsPlain(ts[1..]);
      assert IsSpace('\n');
      var t := ts[0];
      assert WellFormedToken(t);
      assert forall k :: 0 <= k < |t| ==> t[k] != '\n';
    }
  }

  /** Writing well-formed tokens out separated by spaces and tokenizing the
      text gives the same tokens back. */
  lemma TokenizeUnwords(ts: seq<string>)
    requires forall i :: 0 <= i < |ts| ==> WellFormedToken(ts[i])
    ensures Tokenize(Unwords(ts)) == ts
  {
    var s := Unwords(ts);
    UnwordsPlain(ts);
    LinesFromNoNewline(s, "");
    assert "" + s == s;
    assert Lines(s) == [s];
    LineTokensIsLex(s);
    LexUnwords(ts);
    assert [s][1..] == [];
    assert TokenizeLines([s]) == LineTokens(s) + TokenizeLines([]);
    assert TokenizeLines([s]) == LineTokens(s);
  }
}
