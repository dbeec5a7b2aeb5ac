/** Runtime values of the interpreter: numbers, the strings that stand for
    booleans, the empty list, pairs, user procedures and builtin procedures. */
module Values {
  import opened Syntax

  /** Frames live in a store and are referred to by number. */
  type FrameId = nat

  /** Builtins that take their operands as one evaluated list
      (`+ - * / list append begin`). */
  datatype Variadic = Plus | Minus | Times | Divide | ListFn | AppendFn | BeginFn

  /** Builtins called with exactly one evaluated operand
      (`car cdr list? length`). */
  datatype Unary = CarFn | CdrFn | ListQ | LengthFn

  /** Builtins called with exactly two evaluated operands (`cons list-ref`). */
  datatype Binary = ConsFn | ListRefFn

  /** One tag per builtin procedure object. `and`, `or` and `not` share one
      procedure in the interpreter, so they share the `Combinator` tag and are
      equal as values. */
  datatype BuiltinKind =
    | Conditional
    | Combinator
    | BinaryOp(b: Binary)
    | UnaryOp(u: Unary)
    | VariadicOp(v: Variadic)

  /** `Sym` holds the host strings the evaluator produces: `"#t"`, `"#f"` and
      their repetitions under `*`. A closure carries its allocation number
      (`id`, which gives it identity), the frame it was created in, and its
      unevaluated parameter list and body. */
  datatype Value =
    | Int(i: int)
    | Sym(s: string)
    | Nil
    | Pair(car: Value, cdr: Value)
    | Closure(id: nat, frame: FrameId, params: Expr, body: Expr)
    | Builtin(kind: BuiltinKind)

  const True: Value := Sym("#t")
  const False: Value := Sym("#f")

  /** The frames a value keeps alive: the frames captured by the closures it
      contains. */
  function Refs(v: Value): set<FrameId> {
    match v
    case Pair(a, d) => Refs(a) + Refs(d)
    case Closure(_, f, _, _) => {f}
    case _ => {}
  }

  function RefsAll(vs: seq<Value>): set<FrameId> {
    if vs == [] then {} else Refs(vs[0]) + RefsAll(vs[1..])
  }

  lemma {:induction false} RefsAllMember(vs: seq<Value>, i: nat)
    requires i < |vs|
    ensures Refs(vs[i]) <= RefsAll(vs)
  {
    if i > 0 {
      RefsAllMember(vs[1..], i - 1);
    }
  }

  lemma {:induction false} RefsAllAppend(a: seq<Value>, b: seq<Value>)
    ensures RefsAll(a + b) == RefsAll(a) + RefsAll(b)
  {
    if a == [] {
      assert a + b == b;
    } else {
      assert (a + b)[1..] == a[1..] + b;
      RefsAllAppend(a[1..], b);
    }
  }
}
