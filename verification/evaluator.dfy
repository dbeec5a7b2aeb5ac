/** The evaluator: special forms, comparison chains, closure application and
    builtin calls, threaded through the frame store. Evaluation is bounded by
    fuel, which stands for the host's recursion limit. */
module Evaluator {
  import opened Errors
  import opened Syntax
  import opened Values
  import opened Frames
  import Lists
  import Builtins
  import Lexer

  /** A value (or a unit, or a list of values) and the store after the step,
      or the error that aborted evaluation. */
  datatype Outcome<+T> = Done(val: T, st: Store) | Fail(err: Error)

  /** A successful step leaves a valid store that grew from the old one. */
  predicate Grows(st: Store, st2: Store) {
    Valid(st2) && Evolves(st, st2)
  }

  function Lift(r: Result<Value>, st: Store): (o: Outcome<Value>)
    ensures o.Done? <==> r.Ok?
    ensures o.Done? ==> o.val == r.value && o.st == st
    ensures o.Fail? ==> o.err == r.error
  {
    match r
    case Ok(v) => Done(v, st)
    case Err(x) => Fail(x)
  }

  /** Host iteration over an unevaluated expression: the items of a list,
      the one-character strings of a symbol; a number is not iterable. */
  function Iterate(e: Expr): (r: Result<seq<Expr>>)
    ensures e.Form? ==> r == Ok(e.items)
    ensures e.Symbol? ==>
      && r.Ok? && |r.value| == |e.name|
      && forall i :: 0 <= i < |e.name| ==> r.value[i] == Symbol([e.name[i]])
    ensures e.Number? ==> r == Err(HostError)
  {
    match e
    case Form(items) => Ok(items)
    case Symbol(s) => Ok(seq(|s|, i requires 0 <= i < |s| => Symbol([s[i]])))
    case Number(_) => Err(HostError)
  }

  /** Host unpacking of one `let` binding into a name and an initializer:
      a two-item list, or a two-character symbol. */
  function Unpack(b: Expr): (r: Result<(Expr, Expr)>)
    ensures r.Ok? <==> (b.Form? && |b.items| == 2) || (b.Symbol? && |b.name| == 2)
    ensures r.Err? ==> r.error == HostError
  {
    match b
    case Form(items) => if |items| == 2 then Ok((items[0], items[1])) else Err(HostError)
    case Symbol(s) => if |s| == 2 then Ok((Symbol([s[0]]), Symbol([s[1]]))) else Err(HostError)
    case Number(_) => Err(HostError)
  }

  /** Binding parameters to arguments one after another in one frame. */
  function BindAll(st: Store, fid: FrameId, names: seq<Expr>, vals: seq<Value>): (r: Result<Store>)
    requires Valid(st) && fid in st.frames && |names| == |vals|
    requires RefsAll(vals) <= st.frames.Keys
    ensures r.Ok? ==> Grows(st, r.value) && r.value.frames.Keys == st.frames.Keys
    decreases |names|
  {
    if names == [] then Ok(st)
    else
      match AddVar(st, fid, names[0], vals[0])
      case Err(x) => Err(x)
      case Ok(st1) => BindAll(st1, fid, names[1..], vals[1..])
  }

  /** The unary list builtins on their one operand. */
  function CallUnary(u: Unary, v: Value): (r: Result<Value>)
    ensures r.Ok? ==> Refs(r.value) <= Refs(v)
  {
    match u
    case CarFn => Lists.Car(v)
    case CdrFn => Lists.Cdr(v)
    case ListQ => Ok(Lists.IsList(v))
    case LengthFn =>
      match Lists.Length(v)
      case Ok(n) => Ok(Int(n))
      case Err(x) => Err(x)
  }

  /* ---------------- evaluation ---------------- */

  /** `evaluate`: the two boolean strings and numbers stand for themselves,
      any other symbol is looked up, and the empty list is the empty list. */
  function Evaluate(fuel: nat, e: Expr, st: Store, fid: FrameId): (r: Outcome<Value>)
    requires Valid(st) && fid in st.frames
    ensures r.Done? ==> Grows(st, r.st) && Refs(r.val) <= r.st.frames.Keys
    decreases fuel, 0, 0
  {
    match e
    case Number(n) => Done(Int(n), st)
    case Symbol(s) =>
      if s == "#t" || s == "#f" then Done(Sym(s), st) else Lift(Lookup(st, fid, e), st)
    case Form(items) =>
      if items == [] then Done(Nil, st)
      else if fuel == 0 then Fail(OutOfFuel)
      else EvalForm(fuel - 1, items, st, fid)
  }

  /** A non-empty list: the special forms by their head symbol, then the
      comparison names, then a compound operator, then a looked-up one. */
  function EvalForm(fuel: nat, items: seq<Expr>, st: Store, fid: FrameId): (r: Outcome<Value>)
    requires Valid(st) && fid in st.frames && items != []
    ensures r.Done? ==> Grows(st, r.st) && Refs(r.val) <= r.st.frames.Keys
    decreases fuel, 4, 0
  {
    var head := items[0];
    if head == Symbol("define") then EvalDefine(fuel, items, st, fid)
    else if head == Symbol("del") then EvalDel(items, st, fid)
    else if head == Symbol("lambda") then EvalLambda(items, st, fid)
    else if head == Symbol("let") then EvalLet(fuel, items, st, fid)
    else if head == Symbol("set!") then EvalSet(fuel, items, st, fid)
    else if head.Symbol? && Builtins.RelationOf(head.name).Some? then
      CompareChain(fuel, Builtins.RelationOf(head.name).value, items[1..], st, fid)
    else if head.Form? then
      match Evaluate(fuel, head, st, fid)
      case Fail(x) => Fail(x)
      case Done(f, st1) => Apply(fuel, f, head, items[1..], st1, fid)
    else
      match Lookup(st, fid, head)
      case Err(x) => Fail(x)
      case Ok(f) => Apply(fuel, f, head, items[1..], st, fid)
  }

  /** `(define name expr)` binds the value in the current frame and returns
      it; `(define (name params...) body)` is `(define name (lambda (params...)
      body))`. */
  function EvalDefine(fuel: nat, items: seq<Expr>, st: Store, fid: FrameId): (r: Outcome<Value>)
    requires Valid(st) && fid in st.frames
    ensures r.Done? ==> Grows(st, r.st) && Refs(r.val) <= r.st.frames.Keys
    decreases fuel, 2, 0
  {
    if |items| < 2 then Fail(HostError)
    else if items[1].Form? then
      var target := items[1].items;
      if target == [] || |items| < 3 then Fail(HostError)
      else
        Evaluate(fuel, Form([Symbol("define"), target[0],
                             Form([Symbol("lambda"), Form(target[1..]), items[2]])]), st, fid)
    else if |items| < 3 then Fail(HostError)
    else
      match Evaluate(fuel, items[2], st, fid)
      case Fail(x) => Fail(x)
      case Done(v, st1) =>
        match AddVar(st1, fid, items[1], v)
        case Err(x) => Fail(x)
        case Ok(st2) => Done(v, st2)
  }

  /** `(del name)` removes the name from the current frame and returns its
      value. */
  function EvalDel(items: seq<Expr>, st: Store, fid: FrameId): (r: Outcome<Value>)
    requires Valid(st) && fid in st.frames
    ensures r.Done? ==> Grows(st, r.st) && Refs(r.val) <= r.st.frames.Keys
  {
    if |items| < 2 then Fail(HostError)
    else
      match Delete(st, fid, items[1])
      case Err(x) => Fail(x)
      case Ok((v, st1)) => Done(v, st1)
  }

  /** `(lambda params body)` makes a closure over the current frame and also
      binds it to the name `lambda` there. */
  function EvalLambda(items: seq<Expr>, st: Store, fid: FrameId): (r: Outcome<Value>)
    requires Valid(st) && fid in st.frames
    ensures r.Done? ==> Grows(st, r.st) && Refs(r.val) <= r.st.frames.Keys
  {
    if |items| < 3 then Fail(HostError)
    else
      var (id, st1) := NewId(st);
      var c := Closure(id, fid, items[1], items[2]);
      match AddVar(st1, fid, Symbol("lambda"), c)
      case Err(x) => Fail(x)
      case Ok(st2) => Done(c, st2)
  }

  /** `(let bindings body)`: a child frame of the current one; every
      initializer is evaluated in the current frame and bound in the child,
      then the body is evaluated in the child. */
  function EvalLet(fuel: nat, items: seq<Expr>, st: Store, fid: FrameId): (r: Outcome<Value>)
    requires Valid(st) && fid in st.frames
    ensures r.Done? ==> Grows(st, r.st) && Refs(r.val) <= r.st.frames.Keys
    decreases fuel, 2, 0
  {
    var (st1, inner) := PushFrame(st, fid);
    if |items| < 2 then Fail(HostError)
    else
      match Iterate(items[1])
      case Err(x) => Fail(x)
      case Ok(bindings) =>
        match LetBind(fuel, bindings, st1, fid, inner)
        case Fail(x) => Fail(x)
        case Done(_, st2) =>
          if |items| < 3 then Fail(HostError) else Evaluate(fuel, items[2], st2, inner)
  }

  function LetBind(fuel: nat, bindings: seq<Expr>, st: Store, outer: FrameId, inner: FrameId)
    : (r: Outcome<()>)
    requires Valid(st) && outer in st.frames && inner in st.frames
    ensures r.Done? ==> Grows(st, r.st)
    decreases fuel, 1, |bindings|
  {
    if bindings == [] then Done((), st)
    else
      match Unpack(bindings[0])
      case Err(x) => Fail(x)
      case Ok((name, init)) =>
        match Evaluate(fuel, init, st, outer)
        case Fail(x) => Fail(x)
        case Done(v, st1) =>
          match AddVar(st1, inner, name, v)
          case Err(x) => Fail(x)
          case Ok(st2) => LetBind(fuel, bindings[1..], st2, outer, inner)
  }

  /** `(set! name expr)`: the value first, then the nearest frame binding
      the name is overwritten. */
  function EvalSet(fuel: nat, items: seq<Expr>, st: Store, fid: FrameId): (r: Outcome<Value>)
    requires Valid(st) && fid in st.frames
    ensures r.Done? ==> Grows(st, r.st) && Refs(r.val) <= r.st.frames.Keys
    decreases fuel, 2, 0
  {
    if |items| < 3 then Fail(HostError)
    else
      match Evaluate(fuel, items[2], st, fid)
      case Fail(x) => Fail(x)
      case Done(v, st1) =>
        match Assign(st1, fid, items[1], v)
        case Err(x) => Fail(x)
        case Ok(st2) => Done(v, st2)
  }

  /** The interpreter's `compare`: each adjacent pair of operands is
      evaluated afresh and tested; the first failing pair gives `"#f"`. */
  function CompareChain(fuel: nat, rel: Builtins.Relation, args: seq<Expr>, st: Store, fid: FrameId)
    : (r: Outcome<Value>)
    requires Valid(st) && fid in st.frames
    ensures r.Done? ==> Grows(st, r.st) && (r.val == True || r.val == False)
    ensures |args| < 2 ==> r == Done(True, st)
    decreases fuel, 1, |args|
  {
    if |args| < 2 then Done(True, st)
    else
      match Evaluate(fuel, args[0], st, fid)
      case Fail(x) => Fail(x)
      case Done(a, st1) =>
        match Evaluate(fuel, args[1], st1, fid)
        case Fail(x) => Fail(x)
        case Done(b, st2) =>
          match Builtins.Holds(rel, a, b)
          case Err(x) => Fail(x)
          case Ok(holds) =>
            if !holds then Done(False, st2) else CompareChain(fuel, rel, args[1..], st2, fid)
  }

  /** `and`: `"#f"` at the first operand whose value is `"#f"`. */
  function AndChain(fuel: nat, args: seq<Expr>, st: Store, fid: FrameId): (r: Outcome<Value>)
    requires Valid(st) && fid in st.frames
    ensures r.Done? ==> Grows(st, r.st) && (r.val == True || r.val == False)
    decreases fuel, 1, |args|
  {
    if args == [] then Done(True, st)
    else
      match Evaluate(fuel, args[0], st, fid)
      case Fail(x) => Fail(x)
      case Done(v, st1) =>
        if v == False then Done(False, st1) else AndChain(fuel, args[1..], st1, fid)
  }

  /** `or`: `"#t"` at the first operand whose value is `"#t"`. */
  function OrChain(fuel: nat, args: seq<Expr>, st: Store, fid: FrameId): (r: Outcome<Value>)
    requires Valid(st) && fid in st.frames
    ensures r.Done? ==> Grows(st, r.st) && (r.val == True || r.val == False)
    decreases fuel, 1, |args|
  {
    if args == [] then Done(False, st)
    else
      match Evaluate(fuel, args[0], st, fid)
      case Fail(x) => Fail(x)
      case Done(v, st1) =>
        if v == True then Done(True, st1) else OrChain(fuel, args[1..], st1, fid)
  }

  /** Operands evaluated left to right, each in the store the previous one
      left. */
  function EvalArgs(fuel: nat, args: seq<Expr>, st: Store, fid: FrameId): (r: Outcome<seq<Value>>)
    requires Valid(st) && fid in st.frames
    ensures r.Done? ==> Grows(st, r.st) && |r.val| == |args| && RefsAll(r.val) <= r.st.frames.Keys
    decreases fuel, 1, |args|
  {
    if args == [] then Done([], st)
    else
      match Evaluate(fuel, args[0], st, fid)
      case Fail(x) => Fail(x)
      case Done(v, st1) =>
        match EvalArgs(fuel, args[1..], st1, fid)
        case Fail(x) => Fail(x)
        case Done(vs, st2) =>
          assert ([v] + vs)[0] == v && ([v] + vs)[1..] == vs;
          Done([v] + vs, st2)
  }

  /* ---------------- application ---------------- */

  /** Calling the value `f` found for the operator `op` on the unevaluated
      operands `args`, by the kind of `f`. A value that is not a procedure
      fails in the host once its operands are evaluated. */
  function Apply(fuel: nat, f: Value, op: Expr, args: seq<Expr>, st: Store, fid: FrameId)
    : (r: Outcome<Value>)
    requires Valid(st) && fid in st.frames && Refs(f) <= st.frames.Keys
    ensures r.Done? ==> Grows(st, r.st) && Refs(r.val) <= r.st.frames.Keys
    decreases fuel, 3, 0
  {
    match f
    case Closure(_, _, _, _) => ApplyClosure(fuel, f, args, st, fid)
    case Builtin(Conditional) => ApplyConditional(fuel, args, st, fid)
    case Builtin(Combinator) =>
      if op == Symbol("not") then ApplyNot(fuel, args, st, fid)
      else if op == Symbol("and") then AndChain(fuel, args, st, fid)
      else OrChain(fuel, args, st, fid)
    case Builtin(BinaryOp(b)) => ApplyBinary(fuel, b, args, st, fid)
    case Builtin(UnaryOp(u)) => ApplyUnary(fuel, u, args, st, fid)
    case Builtin(VariadicOp(v)) =>
      (match EvalArgs(fuel, args, st, fid)
       case Fail(x) => Fail(x)
       case Done(vals, st1) => Lift(Builtins.CallVariadic(v, vals), st1))
    case _ =>
      match EvalArgs(fuel, args, st, fid)
      case Fail(x) => Fail(x)
      case Done(_, _) => Fail(HostError)
  }

  /** A closure call: operands in the caller's frame, then the closure is
      entered with their values. */
  function ApplyClosure(fuel: nat, f: Value, args: seq<Expr>, st: Store, fid: FrameId)
    : (r: Outcome<Value>)
    requires Valid(st) && fid in st.frames && f.Closure? && f.frame in st.frames
    ensures r.Done? ==> Grows(st, r.st) && Refs(r.val) <= r.st.frames.Keys
    decreases fuel, 2, 0
  {
    match EvalArgs(fuel, args, st, fid)
    case Fail(x) => Fail(x)
    case Done(vals, st1) => Enter(fuel, f, vals, st1)
  }

  /** A fresh frame whose parent is the closure's frame; the argument count
      must equal the parameter count; the parameters are bound in the fresh
      frame and the body runs there. */
  function Enter(fuel: nat, f: Value, vals: seq<Value>, st: Store): (r: Outcome<Value>)
    requires Valid(st) && f.Closure? && f.frame in st.frames && RefsAll(vals) <= st.frames.Keys
    ensures r.Done? ==> Grows(st, r.st) && Refs(r.val) <= r.st.frames.Keys
    decreases fuel, 1, 0
  {
    var (st1, callee) := PushFrame(st, f.frame);
    match Iterate(f.params)
    case Err(x) => Fail(x)
    case Ok(names) =>
      if |vals| != |names| then Fail(EvaluationError)
      else
        match BindAll(st1, callee, names, vals)
        case Err(x) => Fail(x)
        case Ok(st2) => Evaluate(fuel, f.body, st2, callee)
  }

  /** The interpreter's `condition`: the consequent when the test gives
      `"#t"`, the alternative for any other value. */
  function ApplyConditional(fuel: nat, args: seq<Expr>, st: Store, fid: FrameId): (r: Outcome<Value>)
    requires Valid(st) && fid in st.frames
    ensures r.Done? ==> Grows(st, r.st) && Refs(r.val) <= r.st.frames.Keys
    decreases fuel, 2, 0
  {
    if |args| < 3 then Fail(HostError)
    else
      match Evaluate(fuel, args[0], st, fid)
      case Fail(x) => Fail(x)
      case Done(test, st1) =>
        if test == True then Evaluate(fuel, args[1], st1, fid)
        else Evaluate(fuel, args[2], st1, fid)
  }

  /** `not` takes exactly one operand and is `"#t"` exactly for `"#f"`. */
  function ApplyNot(fuel: nat, args: seq<Expr>, st: Store, fid: FrameId): (r: Outcome<Value>)
    requires Valid(st) && fid in st.frames
    ensures r.Done? ==> Grows(st, r.st) && (r.val == True || r.val == False)
    decreases fuel, 2, 0
  {
    if |args| != 1 then Fail(EvaluationError)
    else
      match Evaluate(fuel, args[0], st, fid)
      case Fail(x) => Fail(x)
      case Done(v, st1) => Done(if v == False then True else False, st1)
  }

  /** `cons` and `list-ref`: exactly two operands, evaluated in order. */
  function ApplyBinary(fuel: nat, b: Binary, args: seq<Expr>, st: Store, fid: FrameId)
    : (r: Outcome<Value>)
    requires Valid(st) && fid in st.frames
    ensures r.Done? ==> Grows(st, r.st) && Refs(r.val) <= r.st.frames.Keys
    decreases fuel, 2, 0
  {
    if |args| != 2 then Fail(EvaluationError)
    else
      match Evaluate(fuel, args[0], st, fid)
      case Fail(x) => Fail(x)
      case Done(a, st1) =>
        match Evaluate(fuel, args[1], st1, fid)
        case Fail(x) => Fail(x)
        case Done(c, st2) =>
          match b
          case ConsFn => Done(Lists.Cons(a, c), st2)
          case ListRefFn => Lift(Lists.GetAt(a, c), st2)
  }

  /** `car`, `cdr`, `list?` and `length`: every operand is evaluated once,
      the count is checked, and then the single operand is evaluated again
      and passed on. */
  function ApplyUnary(fuel: nat, u: Unary, args: seq<Expr>, st: Store, fid: FrameId)
    : (r: Outcome<Value>)
    requires Valid(st) && fid in st.frames
    ensures r.Done? ==> Grows(st, r.st) && Refs(r.val) <= r.st.frames.Keys
    decreases fuel, 2, 0
  {
    match EvalArgs(fuel, args, st, fid)
    case Fail(x) => Fail(x)
    case Done(_, st1) =>
      if |args| != 1 then Fail(EvaluationError)
      else
        match Evaluate(fuel, args[0], st1, fid)
        case Fail(x) => Fail(x)
        case Done(v, st2) => Lift(CallUnary(u, v), st2)
  }

  /* ---------------- entry points ---------------- */

  /** The interpreter's `evaluate_exp`, with the store and its top-level
      frame passed explicitly. */
  function EvaluateExpression(fuel: nat, text: string, st: Store): (r: Outcome<Value>)
    requires Valid(st) && GlobalFrame in st.frames
    ensures r.Done? ==> Grows(st, r.st)
  {
    match Parse(Lexer.Tokenize(text))
    case Err(x) => Fail(x)
    case Ok(e) => Evaluate(fuel, e, st, GlobalFrame)
  }
}
