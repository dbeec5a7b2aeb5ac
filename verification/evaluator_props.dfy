/** Properties of the evaluator: the comparison chain, the boolean
    combinators, `if`, closure application, `let`, `define`, `lambda`, `set!`
    and `del`, and the places where operands are evaluated more than once. */
module EvaluatorProps {
  import opened Errors
  import opened Syntax
  import opened Values
  import opened Frames
  import opened Evaluator
  import Builtins
  import Lists

  /* ---------------- atoms ---------------- */

  /** Operands that are numbers or names: evaluating them reads the store
      and changes nothing. */
  predicate AtomsDone(args: seq<Expr>, st: Store, fid: FrameId)
    requires Valid(st) && fid in st.frames
  {
    forall i :: 0 <= i < |args| ==> !args[i].Form? && Evaluate(0, args[i], st, fid).Done?
  }

  function AtomValues(args: seq<Expr>, st: Store, fid: FrameId): (vs: seq<Value>)
    requires Valid(st) && fid in st.frames && AtomsDone(args, st, fid)
    ensures |vs| == |args|
  {
    seq(|args|, i requires 0 <= i < |args| => Evaluate(0, args[i], st, fid).val)
  }

  lemma AtomEval(fuel: nat, e: Expr, st: Store, fid: FrameId)
    requires Valid(st) && fid in st.frames && !e.Form?
    ensures Evaluate(fuel, e, st, fid) == Evaluate(0, e, st, fid)
    ensures Evaluate(fuel, e, st, fid).Done? ==> Evaluate(fuel, e, st, fid).st == st
  {
  }

  lemma AtomValuesTail(args: seq<Expr>, st: Store, fid: FrameId)
    requires Valid(st) && fid in st.frames && AtomsDone(args, st, fid) && args != []
    ensures AtomsDone(args[1..], st, fid)
    ensures AtomValues(args[1..], st, fid) == AtomValues(args, st, fid)[1..]
  {
    assert forall i :: 0 <= i < |args[1..]| ==> args[1..][i] == args[i + 1];
  }

  /** Operands that are atoms evaluate to their values, in order, and leave
      the store as it was. */
  lemma {:induction false} EvalArgsAtoms(fuel: nat, args: seq<Expr>, st: Store, fid: FrameId)
    requires Valid(st) && fid in st.frames && AtomsDone(args, st, fid)
    ensures EvalArgs(fuel, args, st, fid) == Done(AtomValues(args, st, fid), st)
    decreases |args|
  {
    if args != [] {
      AtomEval(fuel, args[0], st, fid);
      AtomValuesTail(args, st, fid);
      EvalArgsAtoms(fuel, args[1..], st, fid);
      var vs := AtomValues(args, st, fid);
      assert vs == [vs[0]] + vs[1..];
    }
  }

  /* ---------------- operands in order ---------------- */

  /** Operands are evaluated left to right, each in the store the previous
      one left: the first `k + 1` operands evaluate as the first `k` do,
      followed by operand `k`. */
  lemma {:induction false} EvalArgsSnoc(fuel: nat, args: seq<Expr>, k: nat, st: Store, fid: FrameId)
    requires Valid(st) && fid in st.frames && k < |args|
    requires EvalArgs(fuel, args[..k], st, fid).Done?
    ensures var r := EvalArgs(fuel, args[..k], st, fid);
      EvalArgs(fuel, args[..k + 1], st, fid) ==
        match Evaluate(fuel, args[k], r.st, fid)
        case Fail(x) => Fail(x)
        case Done(v, s2) => Done(r.val + [v], s2)
    decreases k
  {
    if k == 0 {
      EvalArgsOne(fuel, args, st, fid);
    } else {
      var r0 := Evaluate(fuel, args[0], st, fid);
      EvalArgsSlices(fuel, args, k, st, fid);
      EvalArgsSnoc(fuel, args[1..], k - 1, r0.st, fid);
      var rest := EvalArgs(fuel, args[1..][..k - 1], r0.st, fid);
      assert args[1..][k - 1] == args[k];
      SnocCons(r0.val, EvalArgs(fuel, args[..k], st, fid), rest, EvalArgs(fuel, args[..k + 1], st, fid),
               EvalArgs(fuel, args[1..][..k], r0.st, fid), Evaluate(fuel, args[k], rest.st, fid));
    }
  }

  lemma EvalArgsOne(fuel: nat, args: seq<Expr>, st: Store, fid: FrameId)
    requires Valid(st) && fid in st.frames && 0 < |args|
    ensures EvalArgs(fuel, args[..0], st, fid) == Done([], st)
    ensures EvalArgs(fuel, args[..1], st, fid) ==
        match Evaluate(fuel, args[0], st, fid)
        case Fail(x) => Fail(x)
        case Done(v, s2) => Done([] + [v], s2)
  {
    var pre1 := args[..1];
    assert args[..0] == [] && pre1[0] == args[0] && pre1[1..] == [];
    match Evaluate(fuel, args[0], st, fid)
    case Fail(x) =>
    case Done(v, s1) =>
      assert EvalArgs(fuel, pre1[1..], s1, fid) == Done([], s1);
      assert [v] + [] == [] + [v];
  }

  /** The first `k` operands, as the first operand followed by a prefix of
      the rest. */
  lemma EvalArgsPrefix(fuel: nat, args: seq<Expr>, k: nat, st: Store, fid: FrameId)
    requires Valid(st) && fid in st.frames && 0 < k <= |args|
    requires EvalArgs(fuel, args[..k], st, fid).Done?
    ensures Evaluate(fuel, args[0], st, fid).Done?
    ensures var r0 := Evaluate(fuel, args[0], st, fid);
      && EvalArgs(fuel, args[1..][..k - 1], r0.st, fid).Done?
      && EvalArgs(fuel, args[..k], st, fid) ==
           Done([r0.val] + EvalArgs(fuel, args[1..][..k - 1], r0.st, fid).val,
                EvalArgs(fuel, args[1..][..k - 1], r0.st, fid).st)
  {
    var pre := args[..k];
    assert pre[0] == args[0] && pre[1..] == args[1..][..k - 1];
  }

  /** The first `k` and the first `k + 1` operands, as the first operand
      followed by a prefix of the rest. */
  lemma EvalArgsSlices(fuel: nat, args: seq<Expr>, k: nat, st: Store, fid: FrameId)
    requires Valid(st) && fid in st.frames && 0 < k < |args|
    requires EvalArgs(fuel, args[..k], st, fid).Done?
    ensures Evaluate(fuel, args[0], st, fid).Done?
    ensures var r0 := Evaluate(fuel, args[0], st, fid);
      && EvalArgs(fuel, args[1..][..k - 1], r0.st, fid).Done?
      && EvalArgs(fuel, args[..k], st, fid) ==
           Done([r0.val] + EvalArgs(fuel, args[1..][..k - 1], r0.st, fid).val,
                EvalArgs(fuel, args[1..][..k - 1], r0.st, fid).st)
      && EvalArgs(fuel, args[..k + 1], st, fid) ==
           match EvalArgs(fuel, args[1..][..k], r0.st, fid)
           case Fail(x) => Fail(x)
           case Done(vs, s2) => Done([r0.val] + vs, s2)
  {
    EvalArgsPrefix(fuel, args, k, st, fid);
    var pre1 := args[..k + 1];
    assert pre1[0] == args[0] && pre1[1..] == args[1..][..k];
  }

  /** Prepending a value and appending one commute, on outcomes. */
  lemma SnocCons(x: Value, a: Outcome<seq<Value>>, rest: Outcome<seq<Value>>, b: Outcome<seq<Value>>,
                 c: Outcome<seq<Value>>, e: Outcome<Value>)
    requires rest.Done? && a == Done([x] + rest.val, rest.st)
    requires b == match c case Fail(y) => Fail(y) case Done(vs, s2) => Done([x] + vs, s2)
    requires c == match e case Fail(y) => Fail(y) case Done(v, s2) => Done(rest.val + [v], s2)
    ensures b == match e case Fail(y) => Fail(y) case Done(v, s2) => Done(a.val + [v], s2)
  {
    if e.Done? {
      assert [x] + (rest.val + [e.val]) == a.val + [e.val];
    }
  }

  /* ---------------- comparison chains ---------------- */

  /** Every adjacent pair of values is related. */
  predicate Chained(rel: Builtins.Relation, vs: seq<Value>) {
    forall i :: 0 <= i < |vs| - 1 ==> Builtins.Holds(rel, vs[i], vs[i + 1]) == Ok(true)
  }

  /** Comparing values pairwise from the left: the first pair that is not
      related answers `false`, and the first pair that cannot be compared
      gives its error. */
  function CompareValues(rel: Builtins.Relation, vs: seq<Value>): Result<bool>
    decreases |vs|
  {
    if |vs| < 2 then Ok(true)
    else
      match Builtins.Holds(rel, vs[0], vs[1])
      case Err(x) => Err(x)
      case Ok(b) => if !b then Ok(false) else CompareValues(rel, vs[1..])
  }

  /** Every adjacent pair of values can be compared. */
  predicate Comparable(rel: Builtins.Relation, vs: seq<Value>) {
    forall i :: 0 <= i < |vs| - 1 ==> Builtins.Holds(rel, vs[i], vs[i + 1]).Ok?
  }

  lemma ChainedTail(rel: Builtins.Relation, vs: seq<Value>)
    requires |vs| >= 2
    ensures Chained(rel, vs) <==> Builtins.Holds(rel, vs[0], vs[1]) == Ok(true) && Chained(rel, vs[1..])
    ensures Comparable(rel, vs) ==> Builtins.Holds(rel, vs[0], vs[1]).Ok? && Comparable(rel, vs[1..])
  {
    var ws := vs[1..];
    assert forall i :: 0 <= i < |ws| ==> ws[i] == vs[i + 1];
    if Builtins.Holds(rel, vs[0], vs[1]) == Ok(true) && Chained(rel, ws) {
      forall i | 0 <= i < |vs| - 1
        ensures Builtins.Holds(rel, vs[i], vs[i + 1]) == Ok(true)
      {
        if i > 0 {
          assert vs[i] == ws[i - 1] && vs[i + 1] == ws[i];
        }
      }
    }
  }

  /** The pairwise comparison answers `true` exactly when every adjacent
      pair is related, and answers at all when every pair can be compared. */
  lemma {:induction false} CompareValuesChained(rel: Builtins.Relation, vs: seq<Value>)
    ensures CompareValues(rel, vs) == Ok(true) <==> Chained(rel, vs)
    ensures Comparable(rel, vs) ==> CompareValues(rel, vs).Ok?
    decreases |vs|
  {
    if |vs| >= 2 {
      CompareValuesChained(rel, vs[1..]);
      ChainedTail(rel, vs);
    }
  }

  /** Operands whose evaluation succeeds and leaves the store as it was:
      atoms, and forms without side effects such as `(+ x 1)`. */
  predicate Steady(fuel: nat, args: seq<Expr>, st: Store, fid: FrameId)
    requires Valid(st) && fid in st.frames
  {
    forall i :: 0 <= i < |args| ==>
      Evaluate(fuel, args[i], st, fid).Done? && Evaluate(fuel, args[i], st, fid).st == st
  }

  function SteadyValues(fuel: nat, args: seq<Expr>, st: Store, fid: FrameId): (vs: seq<Value>)
    requires Valid(st) && fid in st.frames && Steady(fuel, args, st, fid)
    ensures |vs| == |args|
  {
    seq(|args|, i requires 0 <= i < |args| => Evaluate(fuel, args[i], st, fid).val)
  }

  lemma SteadyTail(fuel: nat, args: seq<Expr>, st: Store, fid: FrameId)
    requires Valid(st) && fid in st.frames && Steady(fuel, args, st, fid) && args != []
    ensures Steady(fuel, args[1..], st, fid)
    ensures SteadyValues(fuel, args[1..], st, fid) == SteadyValues(fuel, args, st, fid)[1..]
  {
    assert forall i :: 0 <= i < |args[1..]| ==> args[1..][i] == args[i + 1];
  }

  /** Atoms are operands without side effects, whatever the fuel. */
  lemma AtomsSteady(fuel: nat, args: seq<Expr>, st: Store, fid: FrameId)
    requires Valid(st) && fid in st.frames && AtomsDone(args, st, fid)
    ensures Steady(fuel, args, st, fid)
    ensures SteadyValues(fuel, args, st, fid) == AtomValues(args, st, fid)
  {
    forall i | 0 <= i < |args|
      ensures Evaluate(fuel, args[i], st, fid) == Done(AtomValues(args, st, fid)[i], st)
    {
      AtomEval(fuel, args[i], st, fid);
      AtomEval(0, args[i], st, fid);
    }
  }

  /** `compare` on operands without side effects is the pairwise comparison
      of their values: `"#t"` exactly when every adjacent pair is related,
      `"#f"` at the first pair that is not, and the error of the first pair
      that cannot be compared. */
  lemma {:induction false} CompareSteady(fuel: nat, rel: Builtins.Relation, args: seq<Expr>, st: Store, fid: FrameId)
    requires Valid(st) && fid in st.frames && Steady(fuel, args, st, fid)
    ensures CompareChain(fuel, rel, args, st, fid) ==
      match CompareValues(rel, SteadyValues(fuel, args, st, fid))
      case Ok(b) => Done(if b then True else False, st)
      case Err(x) => Fail(x)
    decreases |args|
  {
    if |args| >= 2 {
      var vs := SteadyValues(fuel, args, st, fid);
      assert Evaluate(fuel, args[0], st, fid) == Done(vs[0], st);
      assert Evaluate(fuel, args[1], st, fid) == Done(vs[1], st);
      SteadyTail(fuel, args, st, fid);
      CompareSteady(fuel, rel, args[1..], st, fid);
    }
  }

  /** One step of `compare` on any operands. Once the first two operands
      are evaluated, a pair that is not related answers `"#f"` and the
      later operands are never evaluated; a related pair continues the
      chain from the second operand, which is evaluated again, in the store
      its first evaluation left. */
  lemma ComparePair(fuel: nat, rel: Builtins.Relation, args: seq<Expr>, st: Store, fid: FrameId)
    requires Valid(st) && fid in st.frames && |args| >= 2
    requires Evaluate(fuel, args[0], st, fid).Done?
    requires Evaluate(fuel, args[1], Evaluate(fuel, args[0], st, fid).st, fid).Done?
    ensures var r1 := Evaluate(fuel, args[0], st, fid);
      var r2 := Evaluate(fuel, args[1], r1.st, fid);
      && (Builtins.Holds(rel, r1.val, r2.val) == Ok(false) ==>
            CompareChain(fuel, rel, args, st, fid) == Done(False, r2.st))
      && (Builtins.Holds(rel, r1.val, r2.val) == Ok(true) ==>
            CompareChain(fuel, rel, args, st, fid) == CompareChain(fuel, rel, args[1..], r2.st, fid))
  {
  }

  /** A comparison form with fewer than two operands answers `"#t"` in the
      store it was given: no operand is evaluated, so an operand that would
      fail or define a name has no effect. */
  lemma CompareShort(fuel: nat, name: string, args: seq<Expr>, st: Store, fid: FrameId)
    requires Valid(st) && fid in st.frames && Builtins.RelationOf(name).Some? && |args| < 2
    ensures Evaluate(fuel + 1, Form([Symbol(name)] + args), st, fid) == Done(True, st)
  {
    assert ([Symbol(name)] + args)[0] == Symbol(name) && ([Symbol(name)] + args)[1..] == args;
  }

  /* ---------------- and, or, not ---------------- */

  /** Operands before position `k` that all evaluate, to the values `vs`
      none of which is `"#f"`, are passed over by `and`, which carries on
      from operand `k` in the store `s1` they left. */
  lemma {:induction false} AndSkip(fuel: nat, args: seq<Expr>, k: nat, st: Store, fid: FrameId, vs: seq<Value>, s1: Store)
    requires Valid(st) && fid in st.frames && k <= |args|
    requires EvalArgs(fuel, args[..k], st, fid) == Done(vs, s1) && False !in vs
    ensures Valid(s1) && fid in s1.frames
    ensures AndChain(fuel, args, st, fid) == AndChain(fuel, args[k..], s1, fid)
    decreases k
  {
    if k == 0 {
      assert args[..0] == [] && args[0..] == args;
    } else {
      EvalArgsPrefix(fuel, args, k, st, fid);
      var r0 := Evaluate(fuel, args[0], st, fid);
      var rest := EvalArgs(fuel, args[1..][..k - 1], r0.st, fid);
      assert vs[0] == r0.val && vs[1..] == rest.val;
      AndSkip(fuel, args[1..], k - 1, r0.st, fid, rest.val, rest.st);
      assert args[1..][k - 1..] == args[k..];
    }
  }

  /** `and` on any operands. Suppose the operands before position `k` all
      evaluate, left to right, and none gives `"#f"`. Then `and` answers
      `"#t"` if there are no more operands. Otherwise operand `k` decides:
      its failure is the answer, `"#f"` ends `and` there without evaluating
      the rest, and any other value extends the run to `k + 1` operands. */
  lemma AndSpec(fuel: nat, args: seq<Expr>, k: nat, st: Store, fid: FrameId, vs: seq<Value>, s1: Store)
    requires Valid(st) && fid in st.frames && k <= |args|
    requires EvalArgs(fuel, args[..k], st, fid) == Done(vs, s1) && False !in vs
    ensures Valid(s1) && fid in s1.frames
    ensures k == |args| ==> AndChain(fuel, args, st, fid) == Done(True, s1)
    ensures k < |args| ==>
      match Evaluate(fuel, args[k], s1, fid)
      case Fail(x) => AndChain(fuel, args, st, fid) == Fail(x)
      case Done(v, s2) =>
        if v == False then AndChain(fuel, args, st, fid) == Done(False, s2)
        else EvalArgs(fuel, args[..k + 1], st, fid) == Done(vs + [v], s2) && False !in vs + [v]
  {
    AndSkip(fuel, args, k, st, fid, vs, s1);
    if k < |args| {
      EvalArgsSnoc(fuel, args, k, st, fid);
      assert args[k..][0] == args[k] && args[k..][1..] == args[k + 1..];
    }
  }

  /** Operands before position `k` that all evaluate, to the values `vs`
      none of which is `"#t"`, are passed over by `or`, which carries on
      from operand `k` in the store `s1` they left. */
  lemma {:induction false} OrSkip(fuel: nat, args: seq<Expr>, k: nat, st: Store, fid: FrameId, vs: seq<Value>, s1: Store)
    requires Valid(st) && fid in st.frames && k <= |args|
    requires EvalArgs(fuel, args[..k], st, fid) == Done(vs, s1) && True !in vs
    ensures Valid(s1) && fid in s1.frames
    ensures OrChain(fuel, args, st, fid) == OrChain(fuel, args[k..], s1, fid)
    decreases k
  {
    if k == 0 {
      assert args[..0] == [] && args[0..] == args;
    } else {
      EvalArgsPrefix(fuel, args, k, st, fid);
      var r0 := Evaluate(fuel, args[0], st, fid);
      var rest := EvalArgs(fuel, args[1..][..k - 1], r0.st, fid);
      assert vs[0] == r0.val && vs[1..] == rest.val;
      OrSkip(fuel, args[1..], k - 1, r0.st, fid, rest.val, rest.st);
      assert args[1..][k - 1..] == args[k..];
    }
  }

  /** `or` on any operands, dually to `and`: after a run of operands none
      of which gives `"#t"`, `or` answers `"#f"` if there are no more, and
      otherwise operand `k` decides: its failure is the answer, `"#t"` ends
      `or` there, and any other value extends the run. */
  lemma OrSpec(fuel: nat, args: seq<Expr>, k: nat, st: Store, fid: FrameId, vs: seq<Value>, s1: Store)
    requires Valid(st) && fid in st.frames && k <= |args|
    requires EvalArgs(fuel, args[..k], st, fid) == Done(vs, s1) && True !in vs
    ensures Valid(s1) && fid in s1.frames
    ensures k == |args| ==> OrChain(fuel, args, st, fid) == Done(False, s1)
    ensures k < |args| ==>
      match Evaluate(fuel, args[k], s1, fid)
      case Fail(x) => OrChain(fuel, args, st, fid) == Fail(x)
      case Done(v, s2) =>
        if v == True then OrChain(fuel, args, st, fid) == Done(True, s2)
        else EvalArgs(fuel, args[..k + 1], st, fid) == Done(vs + [v], s2) && True !in vs + [v]
  {
    OrSkip(fuel, args, k, st, fid, vs, s1);
    if k < |args| {
      EvalArgsSnoc(fuel, args, k, st, fid);
      assert args[k..][0] == args[k] && args[k..][1..] == args[k + 1..];
    }
  }

  /** A symbol that the evaluator looks up and applies: not a special-form
      keyword and not a comparison name. */
  predicate Applied(op: Expr) {
    && op.Symbol?
    && op !in {Symbol("define"), Symbol("del"), Symbol("lambda"), Symbol("let"), Symbol("set!")}
    && Builtins.RelationOf(op.name).None?
  }

  /** A form headed by such a symbol looks the symbol up along the current
      frame's chain and applies what it finds to the operands, unevaluated,
      in the current frame; an unbound head is the lookup's error. */
  lemma CallByName(fuel: nat, op: Expr, args: seq<Expr>, st: Store, fid: FrameId)
    requires Valid(st) && fid in st.frames && Applied(op)
    ensures Lookup(st, fid, op).Err? ==>
      Evaluate(fuel + 1, Form([op] + args), st, fid) == Fail(Lookup(st, fid, op).error)
    ensures Lookup(st, fid, op).Ok? ==>
      Evaluate(fuel + 1, Form([op] + args), st, fid) == Apply(fuel, Lookup(st, fid, op).value, op, args, st, fid)
  {
    assert ([op] + args)[0] == op && ([op] + args)[1..] == args;
  }

  /** `and` stops at a first operand that gives `"#f"` and `or` at one that
      gives `"#t"`: the operands after it are never evaluated. */
  lemma ShortCircuit(fuel: nat, args: seq<Expr>, st: Store, fid: FrameId)
    requires Valid(st) && fid in st.frames && args != []
    ensures Evaluate(fuel, args[0], st, fid).Done? && Evaluate(fuel, args[0], st, fid).val == False ==>
      AndChain(fuel, args, st, fid) == Done(False, Evaluate(fuel, args[0], st, fid).st)
    ensures Evaluate(fuel, args[0], st, fid).Done? && Evaluate(fuel, args[0], st, fid).val == True ==>
      OrChain(fuel, args, st, fid) == Done(True, Evaluate(fuel, args[0], st, fid).st)
  {
  }

  /** The shared combinator procedure behaves by the operator's name: `not`
      checks for exactly one operand before evaluating it and negates `"#f"`
      only, `and` is `and`, and every other name bound to it, `or`
      included, behaves as `or`. */
  lemma CombinatorByName(fuel: nat, op: Expr, args: seq<Expr>, st: Store, fid: FrameId)
    requires Valid(st) && fid in st.frames
    ensures op == Symbol("not") && |args| != 1 ==>
      Apply(fuel, Builtin(Combinator), op, args, st, fid) == Fail(EvaluationError)
    ensures op == Symbol("not") && |args| == 1 ==>
      Apply(fuel, Builtin(Combinator), op, args, st, fid) ==
        match Evaluate(fuel, args[0], st, fid)
        case Fail(x) => Fail(x)
        case Done(v, s1) => Done(if v == False then True else False, s1)
    ensures op == Symbol("and") ==>
      Apply(fuel, Builtin(Combinator), op, args, st, fid) == AndChain(fuel, args, st, fid)
    ensures op != Symbol("not") && op != Symbol("and") ==>
      Apply(fuel, Builtin(Combinator), op, args, st, fid) == OrChain(fuel, args, st, fid)
    ensures Applied(op) && Lookup(st, fid, op) == Ok(Builtin(Combinator)) ==>
      Evaluate(fuel + 1, Form([op] + args), st, fid) == Apply(fuel, Builtin(Combinator), op, args, st, fid)
  {
    if Applied(op) {
      CallByName(fuel, op, args, st, fid);
    }
  }

  /* ---------------- if ---------------- */

  /** `if` evaluates its test first and then only one branch, in the store
      the test left: the consequent when the test gives exactly `"#t"`, the
      alternative for any other value, numbers and the empty list included.
      Fewer than three operands is a host index error, before any operand
      is evaluated. */
  lemma IfBranches(fuel: nat, op: Expr, args: seq<Expr>, st: Store, fid: FrameId)
    requires Valid(st) && fid in st.frames
    ensures |args| < 3 ==> Apply(fuel, Builtin(Conditional), op, args, st, fid) == Fail(HostError)
    ensures |args| >= 3 ==>
      Apply(fuel, Builtin(Conditional), op, args, st, fid) ==
        match Evaluate(fuel, args[0], st, fid)
        case Fail(x) => Fail(x)
        case Done(test, s1) => Evaluate(fuel, if test == True then args[1] else args[2], s1, fid)
    ensures Applied(op) && Lookup(st, fid, op) == Ok(Builtin(Conditional)) ==>
      Evaluate(fuel + 1, Form([op] + args), st, fid) == Apply(fuel, Builtin(Conditional), op, args, st, fid)
  {
    if Applied(op) {
      CallByName(fuel, op, args, st, fid);
    }
  }

  /* ---------------- binding a frame ---------------- */

  predicate Distinct(names: seq<Expr>) {
    forall i, j :: 0 <= i < j < |names| ==> names[i] != names[j]
  }

  lemma {:induction false} RefsAllBound(vs: seq<Value>, keys: set<FrameId>)
    requires forall i :: 0 <= i < |vs| ==> Refs(vs[i]) <= keys
    ensures RefsAll(vs) <= keys
  {
    if vs != [] {
      RefsAllBound(vs[1..], keys);
    }
  }

  /** What binding `names` to `vals` in frame `fid` does to a store: only that
      frame's table changes, every name keeps its old binding unless it is
      one of `names`, and each name is bound to the value paired with its
      last occurrence (later bindings overwrite earlier ones). */
  predicate BoundIn(st: Store, st2: Store, fid: FrameId, names: seq<Expr>, vals: seq<Value>)
    requires fid in st.frames && fid in st2.frames && |names| == |vals|
  {
    && st2.next == st.next
    && st2.frames.Keys == st.frames.Keys
    && (forall g :: g in st.frames && g != fid ==> st2.frames[g] == st.frames[g])
    && st2.frames[fid].parent == st.frames[fid].parent
    && (forall n :: n in st2.frames[fid].vars ==> n in names || n in st.frames[fid].vars)
    && (forall n :: n !in names && n in st.frames[fid].vars ==>
          n in st2.frames[fid].vars && st2.frames[fid].vars[n] == st.frames[fid].vars[n])
    && (forall i :: 0 <= i < |names| && LastAt(names, i) ==>
          names[i] in st2.frames[fid].vars && st2.frames[fid].vars[names[i]] == vals[i])
  }

  /** Position `i` holds the last occurrence of its name. */
  predicate LastAt(names: seq<Expr>, i: nat)
    requires i < |names|
  {
    names[i] !in names[i + 1..]
  }

  /** With distinct names every occurrence is the last. */
  lemma DistinctLast(names: seq<Expr>)
    requires Distinct(names)
    ensures forall i :: 0 <= i < |names| ==> LastAt(names, i)
  {
  }

  /** Binding names that are not lists always succeeds, with the effect
      `BoundIn` describes. */
  lemma {:induction false} BindAllSpec(st: Store, fid: FrameId, names: seq<Expr>, vals: seq<Value>)
    requires Valid(st) && fid in st.frames && |names| == |vals|
    requires RefsAll(vals) <= st.frames.Keys
    requires forall i :: 0 <= i < |names| ==> !names[i].Form?
    ensures BindAll(st, fid, names, vals).Ok?
    ensures BoundIn(st, BindAll(st, fid, names, vals).value, fid, names, vals)
    decreases |names|
  {
    if names != [] {
      RefsAllMember(vals, 0);
      var st1 := AddVar(st, fid, names[0], vals[0]).value;
      assert RefsAll(vals) == Refs(vals[0]) + RefsAll(vals[1..]);
      BindAllSpec(st1, fid, names[1..], vals[1..]);
      var st2 := BindAll(st1, fid, names[1..], vals[1..]).value;
      assert BindAll(st, fid, names, vals) == Ok(st2);
      BoundInStep(st, st1, st2, fid, names, vals);
    }
  }

  /** One binding followed by the rest is binding them all. */
  lemma BoundInStep(st: Store, st1: Store, st2: Store, fid: FrameId, names: seq<Expr>, vals: seq<Value>)
    requires fid in st.frames && fid in st1.frames && fid in st2.frames
    requires |names| == |vals| && names != []
    requires st1.next == st.next && st1.frames.Keys == st.frames.Keys
    requires st1.frames[fid].vars == st.frames[fid].vars[names[0] := vals[0]]
    requires st1.frames[fid].parent == st.frames[fid].parent
    requires forall g :: g in st.frames && g != fid ==> st1.frames[g] == st.frames[g]
    requires BoundIn(st1, st2, fid, names[1..], vals[1..])
    ensures BoundIn(st, st2, fid, names, vals)
  {
    var m, m1, m2 := st.frames[fid].vars, st1.frames[fid].vars, st2.frames[fid].vars;
    var rest := names[1..];
    forall n | n in m2
      ensures n in names || n in m
    {
      if n in rest {
        assert n in names;
      }
    }
    forall n | n !in names && n in m
      ensures n in m2 && m2[n] == m[n]
    {
      assert n != names[0] && n !in rest;
    }
    forall i | 0 <= i < |names| && LastAt(names, i)
      ensures names[i] in m2 && m2[names[i]] == vals[i]
    {
      if i == 0 {
        assert names[1..] == rest;
        assert names[0] in m1 && m1[names[0]] == vals[0];
      } else {
        assert rest[i - 1] == names[i] && vals[1..][i - 1] == vals[i];
        assert rest[i..] == names[i + 1..];
        assert LastAt(rest, i - 1);
      }
    }
  }

  /** In a fresh child of `parent` bound to `names`, each name looks up to
      the value paired with its last occurrence (so with distinct names,
      each to its own value), and every other symbol looks up as it does
      from `parent` in the store before the child was made. */
  lemma FreshFrameLookup(st: Store, parent: FrameId, names: seq<Expr>, vals: seq<Value>)
    returns (st2: Store, child: FrameId)
    requires Valid(st) && parent in st.frames && |names| == |vals|
    requires RefsAll(vals) <= st.frames.Keys
    requires forall i :: 0 <= i < |names| ==> names[i].Symbol?
    ensures PushFrame(st, parent).1 == child && child !in st.frames
    ensures BindAll(PushFrame(st, parent).0, child, names, vals) == Ok(st2)
    ensures Valid(st2) && child in st2.frames && st2.frames[child].parent == Some(parent)
    ensures forall i :: 0 <= i < |names| && LastAt(names, i) ==>
      Lookup(st2, child, names[i]) == Ok(vals[i])
    ensures Distinct(names) ==>
      forall i :: 0 <= i < |names| ==> Lookup(st2, child, names[i]) == Ok(vals[i])
    ensures forall n: Expr :: n.Symbol? && n !in names ==> Lookup(st2, child, n) == Lookup(st, parent, n)
  {
    var st1: Store;
    st1, child := PushFrame(st, parent).0, PushFrame(st, parent).1;
    BindAllSpec(st1, child, names, vals);
    st2 := BindAll(st1, child, names, vals).value;
    assert SameBelow(st, st2, parent) by {
      assert parent < st.next;
    }
    forall n: Expr | n.Symbol? && n !in names
      ensures Lookup(st2, child, n) == Lookup(st, parent, n)
    {
      assert n !in st2.frames[child].vars;
      LookupSameBelow(st, st2, parent, n);
    }
    if Distinct(names) {
      DistinctLast(names);
    }
  }

  /* ---------------- closures ---------------- */

  /** The names a closure binds: the items of a parameter list, or the
      characters of a parameter symbol. */
  function ParamNames(params: Expr): (names: seq<Expr>)
    requires !params.Number?
  {
    Iterate(params).value
  }

  /** Entering a closure. The argument count must equal the number of
      parameter names, else an evaluation error; otherwise the body runs in a
      fresh frame whose parent is the frame the closure was made in, where
      each parameter is bound to the argument at its last occurrence (its
      own argument when the parameters are distinct) and every other
      name resolves as it does from the closure's frame: scoping is
      lexical, not by caller. */
  lemma EnterSpec(fuel: nat, f: Value, vals: seq<Value>, st: Store) returns (st2: Store, callee: FrameId)
    requires Valid(st) && f.Closure? && f.frame in st.frames && RefsAll(vals) <= st.frames.Keys
    requires !f.params.Number?
    requires forall i :: 0 <= i < |ParamNames(f.params)| ==> ParamNames(f.params)[i].Symbol?
    ensures |vals| != |ParamNames(f.params)| ==> Enter(fuel, f, vals, st) == Fail(EvaluationError)
    ensures |vals| == |ParamNames(f.params)| ==>
      && Valid(st2) && callee in st2.frames && callee !in st.frames
      && st2.frames[callee].parent == Some(f.frame)
      && Enter(fuel, f, vals, st) == Evaluate(fuel, f.body, st2, callee)
      && (forall i :: 0 <= i < |vals| && LastAt(ParamNames(f.params), i) ==>
            Lookup(st2, callee, ParamNames(f.params)[i]) == Ok(vals[i]))
      && (Distinct(ParamNames(f.params)) ==>
            forall i :: 0 <= i < |vals| ==> Lookup(st2, callee, ParamNames(f.params)[i]) == Ok(vals[i]))
      && (forall n: Expr :: n.Symbol? && n !in ParamNames(f.params) ==>
            Lookup(st2, callee, n) == Lookup(st, f.frame, n))
  {
    var names := ParamNames(f.params);
    if |vals| == |names| {
      st2, callee := FreshFrameLookup(st, f.frame, names, vals);
    } else {
      st2, callee := st, f.frame;
    }
  }

  /* ---------------- let ---------------- */

  predicate Shaped(bs: seq<Expr>) {
    forall i :: 0 <= i < |bs| ==> bs[i].Form? && |bs[i].items| == 2
  }

  /** `let` bindings `(name init)` whose names are symbols and whose
      initializers are atoms that evaluate in frame `fid`. */
  predicate LetAtoms(bs: seq<Expr>, st: Store, fid: FrameId)
    requires Valid(st) && fid in st.frames
  {
    && Shaped(bs)
    && forall i :: 0 <= i < |bs| ==>
         && bs[i].items[0].Symbol? && !bs[i].items[1].Form?
         && Evaluate(0, bs[i].items[1], st, fid).Done?
  }

  function LetNames(bs: seq<Expr>): (names: seq<Expr>)
    requires Shaped(bs)
    ensures |names| == |bs|
  {
    seq(|bs|, i requires 0 <= i < |bs| => bs[i].items[0])
  }

  function LetValues(bs: seq<Expr>, st: Store, fid: FrameId): (vs: seq<Value>)
    requires Valid(st) && fid in st.frames && LetAtoms(bs, st, fid)
    ensures |vs| == |bs|
  {
    seq(|bs|, i requires 0 <= i < |bs| => Evaluate(0, bs[i].items[1], st, fid).val)
  }

  /** An atom evaluates the same in any store that agrees from `fid` down. */
  lemma AtomSameBelow(e: Expr, st: Store, st2: Store, fid: FrameId)
    requires Valid(st) && Valid(st2) && fid in st.frames && SameBelow(st, st2, fid) && !e.Form?
    ensures fid in st2.frames
    ensures Evaluate(0, e, st2, fid).Done? == Evaluate(0, e, st, fid).Done?
    ensures Evaluate(0, e, st, fid).Done? ==> Evaluate(0, e, st2, fid).val == Evaluate(0, e, st, fid).val
  {
    LookupSameBelow(st, st2, fid, e);
  }

  lemma LetAtomsSameBelow(bs: seq<Expr>, st: Store, st2: Store, fid: FrameId)
    requires Valid(st) && Valid(st2) && fid in st.frames && SameBelow(st, st2, fid)
    requires LetAtoms(bs, st, fid)
    ensures fid in st2.frames && LetAtoms(bs, st2, fid)
    ensures LetValues(bs, st2, fid) == LetValues(bs, st, fid)
  {
    LookupSameBelow(st, st2, fid, Symbol(""));
    forall i | 0 <= i < |bs|
      ensures Evaluate(0, bs[i].items[1], st2, fid).Done?
      ensures Evaluate(0, bs[i].items[1], st2, fid).val == Evaluate(0, bs[i].items[1], st, fid).val
    {
      AtomSameBelow(bs[i].items[1], st, st2, fid);
    }
  }

  lemma LetAtomsTail(bs: seq<Expr>, st: Store, fid: FrameId)
    requires Valid(st) && fid in st.frames && LetAtoms(bs, st, fid) && bs != []
    ensures LetAtoms(bs[1..], st, fid)
    ensures LetNames(bs[1..]) == LetNames(bs)[1..]
    ensures LetValues(bs[1..], st, fid) == LetValues(bs, st, fid)[1..]
  {
    assert forall i :: 0 <= i < |bs[1..]| ==> bs[1..][i] == bs[i + 1];
  }

  lemma LetValuesRefs(bs: seq<Expr>, st: Store, fid: FrameId)
    requires Valid(st) && fid in st.frames && LetAtoms(bs, st, fid)
    ensures RefsAll(LetValues(bs, st, fid)) <= st.frames.Keys
  {
    var vs := LetValues(bs, st, fid);
    forall i | 0 <= i < |vs|
      ensures Refs(vs[i]) <= st.frames.Keys
    {
      AtomEval(0, bs[i].items[1], st, fid);
    }
    RefsAllBound(vs, st.frames.Keys);
  }

  /** Atom initializers are evaluated in the outer frame, unaffected by the
      bindings already made in the inner one, and bound in order in the
      inner frame. */
  lemma {:induction false} LetBindAtoms(fuel: nat, bs: seq<Expr>, st: Store, outer: FrameId, inner: FrameId)
    requires Valid(st) && outer in st.frames && inner in st.frames && outer < inner
    requires LetAtoms(bs, st, outer)
    ensures RefsAll(LetValues(bs, st, outer)) <= st.frames.Keys
    ensures BindAll(st, inner, LetNames(bs), LetValues(bs, st, outer)).Ok?
    ensures LetBind(fuel, bs, st, outer, inner) ==
      Done((), BindAll(st, inner, LetNames(bs), LetValues(bs, st, outer)).value)
    decreases |bs|
  {
    var names, vals := LetNames(bs), LetValues(bs, st, outer);
    LetValuesRefs(bs, st, outer);
    BindAllSpec(st, inner, names, vals);
    if bs != [] {
      var e0 := bs[0].items[1];
      AtomEval(fuel, e0, st, outer);
      RefsAllMember(vals, 0);
      var st1 := AddVar(st, inner, names[0], vals[0]).value;
      assert SameBelow(st, st1, outer);
      LetAtomsTail(bs, st, outer);
      LetAtomsSameBelow(bs[1..], st, st1, outer);
      LetBindAtoms(fuel, bs[1..], st1, outer, inner);
    }
  }

  /** `let` with atom initializers: the body runs in a fresh child of the
      current frame, where each (distinct) name is bound to its
      initializer's value from the current frame and every other symbol
      resolves as it does from the current frame. */
  lemma LetSpec(fuel: nat, bs: seq<Expr>, body: Expr, st: Store, fid: FrameId)
    returns (st2: Store, inner: FrameId)
    requires Valid(st) && fid in st.frames && LetAtoms(bs, st, fid)
    ensures Valid(st2) && inner in st2.frames && inner !in st.frames
    ensures st2.frames[inner].parent == Some(fid)
    ensures EvalLet(fuel, [Symbol("let"), Form(bs), body], st, fid) == Evaluate(fuel, body, st2, inner)
    ensures Distinct(LetNames(bs)) ==>
      forall i :: 0 <= i < |bs| ==> Lookup(st2, inner, LetNames(bs)[i]) == Ok(LetValues(bs, st, fid)[i])
    ensures forall n: Expr :: n.Symbol? && n !in LetNames(bs) ==> Lookup(st2, inner, n) == Lookup(st, fid, n)
  {
    var (st1, fr) := PushFrame(st, fid);
    assert fid < st.next;
    LetAtomsSameBelow(bs, st, st1, fid);
    LetBindAtoms(fuel, bs, st1, fid, fr);
    LetValuesRefs(bs, st, fid);
    st2, inner := FreshFrameLookup(st, fid, LetNames(bs), LetValues(bs, st, fid));
  }

  /** One `let` binding with any initializer: the initializer is evaluated
      in the frame around the `let`, its value is bound to the name in the
      new frame, and the remaining bindings follow in the resulting store;
      a failing initializer stops the rest. */
  lemma LetBindStep(fuel: nat, name: Expr, init: Expr, rest: seq<Expr>, st: Store, outer: FrameId, inner: FrameId)
    requires Valid(st) && outer in st.frames && inner in st.frames && name.Symbol?
    ensures match Evaluate(fuel, init, st, outer)
      case Fail(x) => LetBind(fuel, [Form([name, init])] + rest, st, outer, inner) == Fail(x)
      case Done(v, s1) =>
        && AddVar(s1, inner, name, v).Ok?
        && Lookup(AddVar(s1, inner, name, v).value, inner, name) == Ok(v)
        && LetBind(fuel, [Form([name, init])] + rest, st, outer, inner) ==
             LetBind(fuel, rest, AddVar(s1, inner, name, v).value, outer, inner)
  {
    var bs := [Form([name, init])] + rest;
    assert bs[0] == Form([name, init]) && bs[1..] == rest;
  }

  /** `let` with any bindings: a frame numbered `st.next`, a child of the
      current frame, is made before anything is evaluated; a failing
      binding is the answer, and otherwise the body is evaluated in that
      frame, which is still a child of the current frame. */
  lemma LetFrame(fuel: nat, bs: seq<Expr>, body: Expr, st: Store, fid: FrameId)
    requires Valid(st) && fid in st.frames
    ensures var (st1, inner) := PushFrame(st, fid);
      && inner == st.next && inner !in st.frames
      && match LetBind(fuel, bs, st1, fid, inner)
         case Fail(x) => EvalLet(fuel, [Symbol("let"), Form(bs), body], st, fid) == Fail(x)
         case Done(_, s2) =>
           && inner in s2.frames && s2.frames[inner].parent == Some(fid)
           && EvalLet(fuel, [Symbol("let"), Form(bs), body], st, fid) == Evaluate(fuel, body, s2, inner)
  {
  }

  /* ---------------- operands evaluated twice ---------------- */

  /** `(let () n)`: a number, at the cost of one fresh frame. */
  function LetOne(n: int): Expr {
    Form([Symbol("let"), Form([]), Number(n)])
  }

  lemma LetOneSpec(fuel: nat, n: int, st: Store, fid: FrameId)
    requires Valid(st) && fid in st.frames
    ensures Evaluate(fuel + 1, LetOne(n), st, fid) == Done(Int(n), PushFrame(st, fid).0)
    ensures PushFrame(st, fid).0.next == st.next + 1
  {
    var items := [Symbol("let"), Form([]), Number(n)];
    assert Evaluate(fuel + 1, LetOne(n), st, fid) == EvalForm(fuel, items, st, fid);
    assert EvalForm(fuel, items, st, fid) == EvalLet(fuel, items, st, fid);
    var (st1, inner) := PushFrame(st, fid);
    assert Iterate(items[1]) == Ok([]);
    assert LetBind(fuel, [], st1, fid, inner) == Done((), st1);
  }

  /** `compare` evaluates every inner operand twice, once as the right of
      one pair and once as the left of the next: `(<= 1 (let () 1) 1)` makes
      two frames. */
  lemma CompareEvaluatesTwice(fuel: nat, st: Store, fid: FrameId)
    requires Valid(st) && fid in st.frames
    ensures Evaluate(fuel + 2, Form([Symbol("<="), Number(1), LetOne(1), Number(1)]), st, fid).Done?
    ensures Evaluate(fuel + 2, Form([Symbol("<="), Number(1), LetOne(1), Number(1)]), st, fid).val == True
    ensures Evaluate(fuel + 2, Form([Symbol("<="), Number(1), LetOne(1), Number(1)]), st, fid).st.next
      == st.next + 2
  {
    var items := [Symbol("<="), Number(1), LetOne(1), Number(1)];
    var args := [Number(1), LetOne(1), Number(1)];
    assert items[1..] == args && args[1..] == [LetOne(1), Number(1)];
    assert Builtins.RelationOf("<=") == Some(Builtins.AtMost);
    assert Evaluate(fuel + 2, Form(items), st, fid) == CompareChain(fuel + 1, Builtins.AtMost, args, st, fid);
    LetOneSpec(fuel, 1, st, fid);
    var st1 := PushFrame(st, fid).0;
    assert Builtins.Holds(Builtins.AtMost, Int(1), Int(1)) == Ok(true);
    assert CompareChain(fuel + 1, Builtins.AtMost, args, st, fid)
        == CompareChain(fuel + 1, Builtins.AtMost, args[1..], st1, fid);
    LetOneSpec(fuel, 1, st1, fid);
    var st2 := PushFrame(st1, fid).0;
    assert [LetOne(1), Number(1)][1..] == [Number(1)];
    assert CompareChain(fuel + 1, Builtins.AtMost, args[1..], st1, fid)
        == CompareChain(fuel + 1, Builtins.AtMost, [Number(1)], st2, fid);
  }

  /** A failing pair ends the chain: in `(< 2 (let () 1) (let () 1))` the
      last operand is never evaluated, so only one frame is made. */
  lemma CompareStopsEarly(fuel: nat, st: Store, fid: FrameId)
    requires Valid(st) && fid in st.frames
    ensures Evaluate(fuel + 2, Form([Symbol("<"), Number(2), LetOne(1), LetOne(1)]), st, fid).Done?
    ensures Evaluate(fuel + 2, Form([Symbol("<"), Number(2), LetOne(1), LetOne(1)]), st, fid).val == False
    ensures Evaluate(fuel + 2, Form([Symbol("<"), Number(2), LetOne(1), LetOne(1)]), st, fid).st.next
      == st.next + 1
  {
    var items := [Symbol("<"), Number(2), LetOne(1), LetOne(1)];
    var args := [Number(2), LetOne(1), LetOne(1)];
    assert items[1..] == args;
    assert Builtins.RelationOf("<") == Some(Builtins.Below);
    assert Evaluate(fuel + 2, Form(items), st, fid) == CompareChain(fuel + 1, Builtins.Below, args, st, fid);
    assert Evaluate(fuel + 1, Number(2), st, fid) == Done(Int(2), st);
    LetOneSpec(fuel, 1, st, fid);
    var r2 := Evaluate(fuel + 1, LetOne(1), st, fid);
    assert r2.Done? && r2.val == Int(1) && r2.st.next == st.next + 1;
    assert Builtins.Holds(Builtins.Below, Int(2), Int(1)) == Ok(false);
    ComparePair(fuel + 1, Builtins.Below, args, st, fid);
  }

  /** The one-operand list builtins evaluate their operand twice: once with
      all operands before the count is checked, and again to pass it on.
      `(list? (let () 1))` makes two frames and gives `"#f"`. */
  lemma UnaryEvaluatesTwice(fuel: nat, st: Store, fid: FrameId)
    requires Valid(st) && fid in st.frames
    requires Lookup(st, fid, Symbol("list?")) == Ok(Builtin(UnaryOp(ListQ)))
    ensures Evaluate(fuel + 2, Form([Symbol("list?"), LetOne(1)]), st, fid).Done?
    ensures Evaluate(fuel + 2, Form([Symbol("list?"), LetOne(1)]), st, fid).val == False
    ensures Evaluate(fuel + 2, Form([Symbol("list?"), LetOne(1)]), st, fid).st.next == st.next + 2
  {
    var op := Symbol("list?");
    assert [op] + [LetOne(1)] == [op, LetOne(1)];
    assert Builtins.RelationOf("list?") == None;
    CallByName(fuel + 1, op, [LetOne(1)], st, fid);
    UnaryTwice(fuel + 1, ListQ, op, LetOne(1), st, fid);
    LetOneSpec(fuel, 1, st, fid);
    LetOneSpec(fuel, 1, PushFrame(st, fid).0, fid);
    assert Lists.IsList(Int(1)) == False;
  }

  /* ---------------- define and lambda ---------------- */

  /** `(define x e)` evaluates `e` and binds its value to `x` in the
      current frame only; every other name looks up as it did after `e`
      was evaluated. A failure of `e` is the failure of the whole form. */
  lemma DefineBinds(fuel: nat, x: Expr, e: Expr, st: Store, fid: FrameId)
    requires Valid(st) && fid in st.frames && x.Symbol?
    ensures Evaluate(fuel, e, st, fid).Fail? ==>
      EvalDefine(fuel, [Symbol("define"), x, e], st, fid) == Fail(Evaluate(fuel, e, st, fid).err)
    ensures Evaluate(fuel, e, st, fid).Done? ==>
      && EvalDefine(fuel, [Symbol("define"), x, e], st, fid).Done?
      && EvalDefine(fuel, [Symbol("define"), x, e], st, fid).val == Evaluate(fuel, e, st, fid).val
      && Lookup(EvalDefine(fuel, [Symbol("define"), x, e], st, fid).st, fid, x)
         == Ok(Evaluate(fuel, e, st, fid).val)
      && EvalDefine(fuel, [Symbol("define"), x, e], st, fid).st.frames[fid].vars
         == Evaluate(fuel, e, st, fid).st.frames[fid].vars[x := Evaluate(fuel, e, st, fid).val]
      && (forall g :: g in Evaluate(fuel, e, st, fid).st.frames && g != fid ==>
            EvalDefine(fuel, [Symbol("define"), x, e], st, fid).st.frames[g]
            == Evaluate(fuel, e, st, fid).st.frames[g])
  {
    var r := Evaluate(fuel, e, st, fid);
    if r.Done? {
      AddVarLookup(r.st, fid, x, r.val, fid, if x == Symbol("") then Symbol("x") else Symbol(""));
    }
  }

  /** `(lambda params body)` makes a closure over the current frame, with
      the next fresh number as its identity, and binds it to the name
      `lambda` in the current frame. Fewer than three items is a host index
      error. */
  lemma LambdaBinds(items: seq<Expr>, st: Store, fid: FrameId)
    requires Valid(st) && fid in st.frames && items != [] && items[0] == Symbol("lambda")
    ensures |items| < 3 ==> EvalLambda(items, st, fid) == Fail(HostError)
    ensures |items| >= 3 ==>
      && EvalLambda(items, st, fid).Done?
      && EvalLambda(items, st, fid).val == Closure(st.next, fid, items[1], items[2])
      && EvalLambda(items, st, fid).st.next == st.next + 1
      && Lookup(EvalLambda(items, st, fid).st, fid, Symbol("lambda")) == Ok(EvalLambda(items, st, fid).val)
  {
  }

  /** `(define (f params...) body)` binds `f` to a closure over the current
      frame with those parameters and body; on the way it also binds the
      same closure to `lambda`. */
  lemma DefineProcedure(fuel: nat, f: Expr, ps: seq<Expr>, body: Expr, st: Store, fid: FrameId)
    requires Valid(st) && fid in st.frames && f.Symbol? && f != Symbol("lambda")
    ensures EvalDefine(fuel + 2, [Symbol("define"), Form([f] + ps), body], st, fid).Done?
    ensures EvalDefine(fuel + 2, [Symbol("define"), Form([f] + ps), body], st, fid).val
      == Closure(st.next, fid, Form(ps), body)
    ensures Lookup(EvalDefine(fuel + 2, [Symbol("define"), Form([f] + ps), body], st, fid).st, fid, f)
      == Ok(Closure(st.next, fid, Form(ps), body))
    ensures Lookup(EvalDefine(fuel + 2, [Symbol("define"), Form([f] + ps), body], st, fid).st, fid, Symbol("lambda"))
      == Ok(Closure(st.next, fid, Form(ps), body))
  {
    var c := Closure(st.next, fid, Form(ps), body);
    var lam := [Symbol("lambda"), Form(ps), body];
    var def := [Symbol("define"), f, Form(lam)];
    assert ([f] + ps)[0] == f && ([f] + ps)[1..] == ps;
    assert EvalDefine(fuel + 2, [Symbol("define"), Form([f] + ps), body], st, fid)
        == Evaluate(fuel + 2, Form(def), st, fid);
    assert Evaluate(fuel + 2, Form(def), st, fid) == EvalDefine(fuel + 1, def, st, fid);
    assert Evaluate(fuel + 1, Form(lam), st, fid) == EvalLambda(lam, st, fid);
    LambdaBinds(lam, st, fid);
    var st1 := EvalLambda(lam, st, fid).st;
    DefineBinds(fuel + 1, f, Form(lam), st, fid);
    assert EvalDefine(fuel + 1, def, st, fid).st == AddVar(st1, fid, f, c).value;
    AddVarLookup(st1, fid, f, c, fid, Symbol("lambda"));
  }

  /* ---------------- set! and del ---------------- */

  /** `(set! x e)` evaluates `e` first, so its failure is the failure of the
      form even when `x` is bound nowhere. Then it is a name error when no
      frame from the current one up binds `x`, and otherwise the nearest
      such frame is overwritten, so `x` looks up to the new value. */
  lemma SetSpec(fuel: nat, x: Expr, e: Expr, st: Store, fid: FrameId)
    requires Valid(st) && fid in st.frames && x.Symbol?
    ensures Evaluate(fuel, e, st, fid).Fail? ==>
      EvalSet(fuel, [Symbol("set!"), x, e], st, fid) == Fail(Evaluate(fuel, e, st, fid).err)
    ensures Evaluate(fuel, e, st, fid).Done? && Nearest(Evaluate(fuel, e, st, fid).st, fid, x).None? ==>
      EvalSet(fuel, [Symbol("set!"), x, e], st, fid) == Fail(NameError)
    ensures Evaluate(fuel, e, st, fid).Done? && Nearest(Evaluate(fuel, e, st, fid).st, fid, x).Some? ==>
      && EvalSet(fuel, [Symbol("set!"), x, e], st, fid).Done?
      && EvalSet(fuel, [Symbol("set!"), x, e], st, fid).val == Evaluate(fuel, e, st, fid).val
      && Lookup(EvalSet(fuel, [Symbol("set!"), x, e], st, fid).st, fid, x) == Ok(Evaluate(fuel, e, st, fid).val)
  {
    var r := Evaluate(fuel, e, st, fid);
    if r.Done? && Nearest(r.st, fid, x).Some? {
      AssignLookup(r.st, fid, x, r.val);
    }
  }

  /** Since the value comes first, `(set! x (define x n))` succeeds even
      when `x` was unbound: the inner `define` makes the binding that the
      outer `set!` then overwrites. */
  lemma SetAfterDefine(fuel: nat, x: Expr, n: int, st: Store, fid: FrameId)
    requires Valid(st) && fid in st.frames && x.Symbol?
    ensures EvalSet(fuel + 1, [Symbol("set!"), x, Form([Symbol("define"), x, Number(n)])], st, fid).Done?
    ensures EvalSet(fuel + 1, [Symbol("set!"), x, Form([Symbol("define"), x, Number(n)])], st, fid).val == Int(n)
    ensures Lookup(EvalSet(fuel + 1, [Symbol("set!"), x, Form([Symbol("define"), x, Number(n)])], st, fid).st, fid, x)
      == Ok(Int(n))
  {
    var items := [Symbol("define"), x, Number(n)];
    DefineBinds(fuel, x, Number(n), st, fid);
    assert Evaluate(fuel + 1, Form(items), st, fid) == EvalForm(fuel, items, st, fid);
    assert EvalForm(fuel, items, st, fid) == EvalDefine(fuel, items, st, fid);
    var r := EvalDefine(fuel, items, st, fid);
    assert r.st == AddVar(st, fid, x, Int(n)).value;
    assert x in r.st.frames[fid].vars;
    assert Nearest(r.st, fid, x) == Some(fid);
    SetSpec(fuel + 1, x, Form(items), st, fid);
  }

  /** `set!` from a frame whose nearest binding of `x` is in an ancestor
      overwrites the ancestor's binding. */
  lemma SetInAncestor(fuel: nat, x: Expr, n: int, st: Store, fid: FrameId, g: FrameId)
    requires Valid(st) && fid in st.frames && x.Symbol? && Nearest(st, fid, x) == Some(g)
    ensures EvalSet(fuel, [Symbol("set!"), x, Number(n)], st, fid).Done?
    ensures g in EvalSet(fuel, [Symbol("set!"), x, Number(n)], st, fid).st.frames
    ensures EvalSet(fuel, [Symbol("set!"), x, Number(n)], st, fid).st.frames[g].vars
      == st.frames[g].vars[x := Int(n)]
    ensures Lookup(EvalSet(fuel, [Symbol("set!"), x, Number(n)], st, fid).st, fid, x) == Ok(Int(n))
  {
    SetSpec(fuel, x, Number(n), st, fid);
  }

  /** The builtin frame is an ordinary frame as far as `set!` is concerned:
      from the top level, `(set! car 5)` overwrites the builtin binding. */
  lemma SetBuiltin(fuel: nat, st: Store)
    requires st == InitialStore()
    ensures Valid(st) && GlobalFrame in st.frames
    ensures EvalSet(fuel, [Symbol("set!"), Symbol("car"), Number(5)], st, GlobalFrame).Done?
    ensures Lookup(EvalSet(fuel, [Symbol("set!"), Symbol("car"), Number(5)], st, GlobalFrame).st,
                   GlobalFrame, Symbol("car")) == Ok(Int(5))
  {
    InitialNearestCar();
    SetInAncestor(fuel, Symbol("car"), 5, st, GlobalFrame, BuiltinFrame);
  }

  lemma InitialNearestCar()
    ensures Valid(InitialStore()) && GlobalFrame in InitialStore().frames
    ensures Nearest(InitialStore(), GlobalFrame, Symbol("car")) == Some(BuiltinFrame)
  {
    InitialStoreSpec("car");
    var st := InitialStore();
    assert Symbol("car") in Builtins.BuiltinTable();
    assert Symbol("car") !in st.frames[GlobalFrame].vars;
    assert st.frames[GlobalFrame].parent == Some(BuiltinFrame);
  }

  /** `(del x)` removes `x` from the current frame only: it is a name error
      when only an ancestor binds `x`, and afterwards `x` looks up as it does
      from the parent. */
  lemma DelSpec(x: Expr, st: Store, fid: FrameId)
    requires Valid(st) && fid in st.frames && x.Symbol?
    ensures x !in st.frames[fid].vars ==> EvalDel([Symbol("del"), x], st, fid) == Fail(NameError)
    ensures x in st.frames[fid].vars ==>
      && EvalDel([Symbol("del"), x], st, fid).Done?
      && EvalDel([Symbol("del"), x], st, fid).val == st.frames[fid].vars[x]
      && Lookup(EvalDel([Symbol("del"), x], st, fid).st, fid, x) ==
           match st.frames[fid].parent
           case Some(p) => Lookup(st, p, x)
           case None => Err(NameError)
  {
    if x in st.frames[fid].vars {
      DeleteLookup(st, fid, x, x);
    }
  }

  /* ---------------- application ---------------- */

  /** Calling a procedure on any operands. The variadic builtins and
      closures take the operands' values, evaluated left to right in the
      caller's frame. `cons` and `list-ref` check for exactly two operands
      before evaluating any. The unary builtins evaluate every operand
      before checking for exactly one. A value that is not a procedure
      fails in the host once the operands are evaluated. */
  lemma ApplySpec(fuel: nat, f: Value, op: Expr, args: seq<Expr>, st: Store, fid: FrameId)
    requires Valid(st) && fid in st.frames && Refs(f) <= st.frames.Keys
    ensures f.Builtin? && f.kind.VariadicOp? ==>
      Apply(fuel, f, op, args, st, fid) ==
        match EvalArgs(fuel, args, st, fid)
        case Fail(x) => Fail(x)
        case Done(vals, s) => Lift(Builtins.CallVariadic(f.kind.v, vals), s)
    ensures f.Builtin? && f.kind.BinaryOp? && |args| != 2 ==>
      Apply(fuel, f, op, args, st, fid) == Fail(EvaluationError)
    ensures f.Builtin? && f.kind.BinaryOp? && |args| == 2 ==>
      Apply(fuel, f, op, args, st, fid) ==
        match EvalArgs(fuel, args, st, fid)
        case Fail(x) => Fail(x)
        case Done(vals, s) =>
          if f.kind.b == ConsFn then Done(Lists.Cons(vals[0], vals[1]), s)
          else Lift(Lists.GetAt(vals[0], vals[1]), s)
    ensures f.Builtin? && f.kind.UnaryOp? && |args| != 1 ==>
      Apply(fuel, f, op, args, st, fid) ==
        match EvalArgs(fuel, args, st, fid)
        case Fail(x) => Fail(x)
        case Done(_, _) => Fail(EvaluationError)
    ensures f.Closure? ==>
      && f.frame in st.frames
      && Apply(fuel, f, op, args, st, fid) ==
           match EvalArgs(fuel, args, st, fid)
           case Fail(x) => Fail(x)
           case Done(vals, s) => Enter(fuel, f, vals, s)
    ensures f.Int? || f.Sym? || f.Nil? || f.Pair? ==>
      Apply(fuel, f, op, args, st, fid) ==
        match EvalArgs(fuel, args, st, fid)
        case Fail(x) => Fail(x)
        case Done(_, _) => Fail(HostError)
  {
    if f.Builtin? && f.kind.BinaryOp? && |args| == 2 {
      assert args[1..][0] == args[1] && args[1..][1..] == [];
      match Evaluate(fuel, args[0], st, fid)
      case Fail(x) =>
      case Done(v, s1) =>
        match Evaluate(fuel, args[1], s1, fid)
        case Fail(x) =>
          assert EvalArgs(fuel, args[1..], s1, fid) == Fail(x);
        case Done(w, s2) =>
          assert EvalArgs(fuel, args[1..][1..], s2, fid) == Done([], s2);
          assert [w] + [] == [w] && [v] + [w] == [v, w];
          assert EvalArgs(fuel, args[1..], s1, fid) == Done([w], s2);
          assert EvalArgs(fuel, args, st, fid) == Done([v, w], s2);
    }
  }

  /** A unary builtin evaluates its one operand twice: once with all the
      operands, and again, in the store the first evaluation left, for the
      value it is applied to. */
  lemma UnaryTwice(fuel: nat, u: Unary, op: Expr, e: Expr, st: Store, fid: FrameId)
    requires Valid(st) && fid in st.frames
    ensures Apply(fuel, Builtin(UnaryOp(u)), op, [e], st, fid) ==
      match Evaluate(fuel, e, st, fid)
      case Fail(x) => Fail(x)
      case Done(_, s1) =>
        match Evaluate(fuel, e, s1, fid)
        case Fail(x) => Fail(x)
        case Done(v, s2) => Lift(CallUnary(u, v), s2)
  {
    assert [e][0] == e && [e][1..] == [];
    assert Apply(fuel, Builtin(UnaryOp(u)), op, [e], st, fid) == ApplyUnary(fuel, u, [e], st, fid);
    match Evaluate(fuel, e, st, fid)
    case Fail(x) =>
      assert EvalArgs(fuel, [e], st, fid) == Fail(x);
    case Done(v, s1) =>
      assert EvalArgs(fuel, [e][1..], s1, fid) == Done([], s1);
      assert [v] + [] == [v];
      assert EvalArgs(fuel, [e], st, fid) == Done([v], s1);
      assert ApplyUnary(fuel, u, [e], st, fid) ==
        match Evaluate(fuel, e, s1, fid)
        case Fail(x) => Fail(x)
        case Done(w, s2) => Lift(CallUnary(u, w), s2);
  }

  /** A list in operator position is evaluated first: `((lambda (x) x) 5)`
      is 5, and making the closure also binds `lambda` in the current
      frame. */
  lemma CompoundOperator(fuel: nat, st: Store, fid: FrameId)
    requires Valid(st) && fid in st.frames
    ensures Evaluate(fuel + 2, Form([Form([Symbol("lambda"), Form([Symbol("x")]), Symbol("x")]), Number(5)]),
                     st, fid).Done?
    ensures Evaluate(fuel + 2, Form([Form([Symbol("lambda"), Form([Symbol("x")]), Symbol("x")]), Number(5)]),
                     st, fid).val == Int(5)
  {
    var lam := [Symbol("lambda"), Form([Symbol("x")]), Symbol("x")];
    var c := Closure(st.next, fid, Form([Symbol("x")]), Symbol("x"));
    var st1 := CompoundHead(fuel, st, fid);
    CallIdentity(fuel + 1, c, Form(lam), st1, fid);
  }

  lemma CompoundHead(fuel: nat, st: Store, fid: FrameId) returns (st1: Store)
    requires Valid(st) && fid in st.frames
    ensures Valid(st1) && fid in st1.frames
    ensures Refs(Closure(st.next, fid, Form([Symbol("x")]), Symbol("x"))) <= st1.frames.Keys
    ensures Evaluate(fuel + 2, Form([Form([Symbol("lambda"), Form([Symbol("x")]), Symbol("x")]), Number(5)]), st, fid)
      == Apply(fuel + 1, Closure(st.next, fid, Form([Symbol("x")]), Symbol("x")),
               Form([Symbol("lambda"), Form([Symbol("x")]), Symbol("x")]), [Number(5)], st1, fid)
  {
    var lam := [Symbol("lambda"), Form([Symbol("x")]), Symbol("x")];
    var items := [Form(lam), Number(5)];
    assert items[1..] == [Number(5)];
    assert Evaluate(fuel + 1, Form(lam), st, fid) == EvalLambda(lam, st, fid);
    LambdaBinds(lam, st, fid);
    st1 := EvalLambda(lam, st, fid).st;
    var c := Closure(st.next, fid, Form([Symbol("x")]), Symbol("x"));
    assert Evaluate(fuel + 1, Form(lam), st, fid) == Done(c, st1);
    assert EvalForm(fuel + 1, items, st, fid) == Apply(fuel + 1, c, Form(lam), items[1..], st1, fid);
  }

  lemma CallIdentity(fuel: nat, c: Value, op: Expr, st: Store, fid: FrameId)
    requires Valid(st) && fid in st.frames && c.Closure? && c.frame in st.frames
    requires c.params == Form([Symbol("x")]) && c.body == Symbol("x")
    ensures Apply(fuel, c, op, [Number(5)], st, fid).Done?
    ensures Apply(fuel, c, op, [Number(5)], st, fid).val == Int(5)
  {
    assert [Number(5)][1..] == [] && [Int(5)] + [] == [Int(5)];
    assert EvalArgs(fuel, [Number(5)], st, fid) == Done([Int(5)], st);
    assert Apply(fuel, c, op, [Number(5)], st, fid) == Enter(fuel, c, [Int(5)], st);
    EnterIdentity(fuel, c, st);
  }

  lemma EnterIdentity(fuel: nat, c: Value, st: Store)
    requires Valid(st) && c.Closure? && c.frame in st.frames
    requires c.params == Form([Symbol("x")]) && c.body == Symbol("x")
    ensures Enter(fuel, c, [Int(5)], st).Done?
    ensures Enter(fuel, c, [Int(5)], st).val == Int(5)
  {
    var (st1, callee) := PushFrame(st, c.frame);
    assert Iterate(c.params) == Ok([Symbol("x")]);
    var st2 := AddVar(st1, callee, Symbol("x"), Int(5)).value;
    assert [Symbol("x")][1..] == [] && [Int(5)][1..] == [];
    assert BindAll(st1, callee, [Symbol("x")], [Int(5)]) == Ok(st2);
    assert Symbol("x") in st2.frames[callee].vars;
    assert Lookup(st2, callee, Symbol("x")) == Ok(Int(5));
  }
}
