/** The arithmetic builtins, `begin`, the comparison relations and the table
    of builtin names. */
module Builtins {
  import opened Errors
  import opened Syntax
  import opened Values
  import Lists

  predicate AllInt(args: seq<Value>) {
    forall i :: 0 <= i < |args| ==> args[i].Int?
  }

  /* ---------------- + and - ---------------- */

  /** Reference sum of integer operands, folded from the right. */
  function Total(args: seq<Value>): int
    requires AllInt(args)
  {
    if args == [] then 0 else args[0].i + Total(args[1..])
  }

  /** The host `sum`: accumulate from 0, left to right; adding a non-number
      to a number is a host type error. */
  function SumFrom(acc: int, args: seq<Value>): Result<Value>
    decreases |args|
  {
    if args == [] then Ok(Int(acc))
    else if args[0].Int? then SumFrom(acc + args[0].i, args[1..])
    else Err(HostError)
  }

  function Sum(args: seq<Value>): Result<Value> {
    SumFrom(0, args)
  }

  lemma {:induction false} SumFromTotal(acc: int, args: seq<Value>)
    ensures AllInt(args) ==> SumFrom(acc, args) == Ok(Int(acc + Total(args)))
    ensures !AllInt(args) ==> SumFrom(acc, args) == Err(HostError)
    decreases |args|
  {
    if args != [] {
      SumFromTotal(if args[0].Int? then acc + args[0].i else acc, args[1..]);
      if !args[0].Int? {
        assert !AllInt(args);
      } else {
        assert AllInt(args) <==> AllInt(args[1..]) by {
          if AllInt(args[1..]) {
            forall i | 0 <= i < |args|
              ensures args[i].Int?
            {
              if i > 0 {
                assert args[i] == args[1..][i - 1];
              }
            }
          }
        }
      }
    }
  }

  /** `+` adds integer operands (0 for none) and fails on anything else. */
  lemma SumSpec(args: seq<Value>)
    ensures AllInt(args) ==> Sum(args) == Ok(Int(Total(args)))
    ensures !AllInt(args) ==> Sum(args) == Err(HostError)
  {
    SumFromTotal(0, args);
  }

  /** `-`: negation of a single operand, otherwise the first operand minus
      the sum of the rest; no operand at all is a host index error. */
  function Sub(args: seq<Value>): (r: Result<Value>)
    ensures r.Ok? <==> |args| >= 1 && AllInt(args)
    ensures r.Ok? && |args| == 1 ==> r.value == Int(-args[0].i)
    ensures r.Ok? && |args| >= 2 ==> r.value == Int(args[0].i - Total(args[1..]))
    ensures r.Err? ==> r.error == HostError
  {
    if |args| == 0 then Err(HostError)
    else if |args| == 1 then
      if args[0].Int? then Ok(Int(-args[0].i)) else Err(HostError)
    else
      SumSpec(args[1..]);
      match Sum(args[1..])
      case Err(x) => Err(x)
      case Ok(t) =>
        if args[0].Int? && t.Int? then Ok(Int(args[0].i - t.i)) else Err(HostError)
  }

  /* ---------------- * and / ---------------- */

  /** A string repeated `n` times; empty when `n` is not positive. */
  function Repeat(s: string, n: int): (r: string)
    decreases n
    ensures |r| == if n <= 0 then 0 else |s| * n
  {
    if n <= 0 then "" else s + Repeat(s, n - 1)
  }

  /** The host `*` on two values: integer product, or repetition of a string
      by an integer on either side. */
  function Multiply(a: Value, b: Value): Result<Value> {
    match (a, b)
    case (Int(x), Int(y)) => Ok(Int(x * y))
    case (Int(n), Sym(s)) => Ok(Sym(Repeat(s, n)))
    case (Sym(s), Int(n)) => Ok(Sym(Repeat(s, n)))
    case _ => Err(HostError)
  }

  lemma MultiplyCommutes(a: Value, b: Value)
    ensures Multiply(a, b) == Multiply(b, a)
  {
    if a.Int? && b.Int? {
      assert a.i * b.i == b.i * a.i;
    }
  }

  /** Reference product of integer operands, folded from the right. */
  function Product(args: seq<Value>): int
    requires AllInt(args)
  {
    if args == [] then 1 else args[0].i * Product(args[1..])
  }

  /** The interpreter's `multiply`: start from 1 and multiply left to right. */
  function MulFrom(acc: Value, args: seq<Value>): Result<Value>
    decreases |args|
  {
    if args == [] then Ok(acc)
    else
      match Multiply(acc, args[0])
      case Err(x) => Err(x)
      case Ok(p) => MulFrom(p, args[1..])
  }

  function Mul(args: seq<Value>): Result<Value> {
    MulFrom(Int(1), args)
  }

  lemma {:induction false} MulFromProduct(acc: int, args: seq<Value>)
    requires AllInt(args)
    ensures MulFrom(Int(acc), args) == Ok(Int(acc * Product(args)))
    decreases |args|
  {
    if args != [] {
      assert AllInt(args[1..]) by {
        forall i | 0 <= i < |args[1..]|
          ensures args[1..][i].Int?
        {
          assert args[1..][i] == args[i + 1];
        }
      }
      MulFromProduct(acc * args[0].i, args[1..]);
      assert acc * args[0].i * Product(args[1..]) == acc * (args[0].i * Product(args[1..]));
    }
  }

  /** `*` of integer operands is their product (1 for none). */
  lemma MulSpec(args: seq<Value>)
    requires AllInt(args)
    ensures Mul(args) == Ok(Int(Product(args)))
  {
    MulFromProduct(1, args);
  }

  lemma {:induction false} MulFromKind(acc: Value, args: seq<Value>)
    requires acc.Int? || acc.Sym?
    ensures MulFrom(acc, args).Ok? ==> MulFrom(acc, args).value.Int? || MulFrom(acc, args).value.Sym?
    ensures MulFrom(acc, args).Err? ==> MulFrom(acc, args).error == HostError
    decreases |args|
  {
    if args != [] {
      match Multiply(acc, args[0])
      case Err(_) =>
      case Ok(p) => MulFromKind(p, args[1..]);
    }
  }

  /** The interpreter's `divide`: a single operand is returned unchanged, no
      operand is a host index error, and otherwise the first operand is
      divided by the product of the rest. Host division of integers yields a
      floating point number, which is outside this model; division by zero
      and non-numeric operands are host errors. */
  function Div(args: seq<Value>): (r: Result<Value>)
    ensures r.Ok? <==> |args| == 1
    ensures r.Ok? ==> r.value == args[0]
    ensures |args| >= 2 && AllInt(args) && Product(args[1..]) != 0 ==> r == Err(Unsupported)
    ensures |args| >= 2 && AllInt(args) && Product(args[1..]) == 0 ==> r == Err(HostError)
  {
    if |args| == 1 then Ok(args[0])
    else if |args| == 0 then Err(HostError)
    else
      MulFromKind(Int(1), args[1..]);
      if AllInt(args) then MulSpec(args[1..]); DivideBy(args[0], Mul(args[1..]))
      else DivideBy(args[0], Mul(args[1..]))
  }

  function DivideBy(n: Value, d: Result<Value>): Result<Value> {
    match d
    case Err(x) => Err(x)
    case Ok(dv) =>
      if n.Int? && dv.Int? then (if dv.i == 0 then Err(HostError) else Err(Unsupported))
      else Err(HostError)
  }

  /* ---------------- begin ---------------- */

  /** `begin` returns its last operand; with none it is a host index error. */
  function Begin(args: seq<Value>): (r: Result<Value>)
    ensures r.Ok? <==> |args| > 0
    ensures r.Ok? ==> r.value == args[|args| - 1]
    ensures r.Err? ==> r.error == HostError
  {
    if |args| == 0 then Err(HostError) else Ok(args[|args| - 1])
  }

  /** Calling a builtin that takes its operands as one list. */
  function CallVariadic(v: Variadic, vals: seq<Value>): (r: Result<Value>)
    ensures r.Ok? ==> Refs(r.value) <= RefsAll(vals)
  {
    match v
    case Plus => SumFromTotal(0, vals); Sum(vals)
    case Minus => Sub(vals)
    case Times => MulFromKind(Int(1), vals); Mul(vals)
    case Divide =>
      var r := Div(vals);
      if r.Ok? then RefsAllMember(vals, 0); r else r
    case ListFn => Lists.MakeListElements(vals); Ok(Lists.MakeList(vals))
    case AppendFn => Lists.AppendList(vals)
    case BeginFn =>
      var r := Begin(vals);
      if r.Ok? then RefsAllMember(vals, |vals| - 1); r else r
  }

  /* ---------------- comparisons ---------------- */

  datatype Relation = Equal | AtMost | AtLeast | Above | Below

  /** The comparison names, which the evaluator recognises before looking
      anything up. */
  function RelationOf(name: string): Option<Relation> {
    if name == "equal?" then Some(Equal)
    else if name == "<=" then Some(AtMost)
    else if name == ">=" then Some(AtLeast)
    else if name == ">" then Some(Above)
    else if name == "<" then Some(Below)
    else None
  }

  /** Host string ordering: code point by code point, a proper prefix
      first. Negative, zero or positive. */
  function StrCompare(a: string, b: string): int {
    if a == [] && b == [] then 0
    else if a == [] then -1
    else if b == [] then 1
    else if a[0] < b[0] then -1
    else if a[0] > b[0] then 1
    else StrCompare(a[1..], b[1..])
  }

  lemma {:induction false} StrCompareZero(a: string, b: string)
    ensures StrCompare(a, b) == 0 <==> a == b
  {
    if a != [] && b != [] && a[0] == b[0] {
      StrCompareZero(a[1..], b[1..]);
      assert a == [a[0]] + a[1..];
      assert b == [b[0]] + b[1..];
    }
  }

  lemma {:induction false} StrCompareFlip(a: string, b: string)
    ensures StrCompare(a, b) == -StrCompare(b, a)
    ensures -1 <= StrCompare(a, b) <= 1
  {
    if a != [] && b != [] && a[0] == b[0] {
      StrCompareFlip(a[1..], b[1..]);
    }
  }

  lemma {:induction false} StrCompareTransitive(a: string, b: string, c: string)
    requires StrCompare(a, b) < 0 && StrCompare(b, c) < 0
    ensures StrCompare(a, c) < 0
  {
    if a != [] && b != [] && c != [] && a[0] == b[0] && b[0] == c[0] {
      StrCompareTransitive(a[1..], b[1..], c[1..]);
    }
  }

  /** The host `==` on two values. Pairs compare by object identity, which
      this model does not track. Closures compare by allocation, builtins by
      procedure, and values of different kinds are unequal. */
  function PyEq(x: Value, y: Value): Result<bool> {
    match (x, y)
    case (Pair(_, _), Pair(_, _)) => Err(Unsupported)
    case (Int(a), Int(b)) => Ok(a == b)
    case (Sym(a), Sym(b)) => Ok(a == b)
    case (Nil, Nil) => Ok(true)
    case (Closure(a, _, _, _), Closure(b, _, _, _)) => Ok(a == b)
    case (Builtin(a), Builtin(b)) => Ok(a == b)
    case _ => Ok(false)
  }

  /** The host ordering: numbers against numbers, strings against strings;
      anything else is a host type error. */
  function Order(x: Value, y: Value): Result<int> {
    match (x, y)
    case (Int(a), Int(b)) => Ok(if a < b then -1 else if a == b then 0 else 1)
    case (Sym(a), Sym(b)) => Ok(StrCompare(a, b))
    case _ => Err(HostError)
  }

  function Holds(rel: Relation, x: Value, y: Value): Result<bool> {
    if rel == Equal then PyEq(x, y)
    else
      match Order(x, y)
      case Err(e) => Err(e)
      case Ok(c) =>
        Ok(match rel
           case AtMost => c <= 0
           case AtLeast => c >= 0
           case Above => c > 0
           case Below => c < 0
           case Equal => c == 0)
  }

  /** `equal?` is symmetric, `>` and `>=` are `<` and `<=` with the operands
      swapped, and on numbers and strings `<=` together with `>=` is
      `equal?`. */
  lemma HoldsSymmetry(x: Value, y: Value)
    ensures Holds(Equal, x, y) == Holds(Equal, y, x)
    ensures Holds(Above, x, y) == Holds(Below, y, x)
    ensures Holds(AtLeast, x, y) == Holds(AtMost, y, x)
    ensures (x.Int? && y.Int?) || (x.Sym? && y.Sym?) ==>
      (Holds(AtMost, x, y) == Ok(true) && Holds(AtLeast, x, y) == Ok(true)
       <==> Holds(Equal, x, y) == Ok(true))
  {
    if x.Sym? && y.Sym? {
      StrCompareFlip(x.s, y.s);
      StrCompareZero(x.s, y.s);
    }
  }

  /** `<` is transitive on numbers and on strings. */
  lemma BelowTransitive(x: Value, y: Value, z: Value)
    requires Holds(Below, x, y) == Ok(true) && Holds(Below, y, z) == Ok(true)
    ensures Holds(Below, x, z) == Ok(true)
  {
    if x.Sym? {
      StrCompareTransitive(x.s, y.s, z.s);
    }
  }

  /* ---------------- the builtin table ---------------- */

  /** The builtin frame's bindings. `and`, `or` and `not` are bound to one
      procedure. */
  function BuiltinTable(): (t: map<Expr, Value>)
    ensures forall k :: k in t ==> k.Symbol? && RelationOf(k.name).None? && t[k].Builtin?
  {
    map[
      Symbol("+") := Builtin(VariadicOp(Plus)),
      Symbol("-") := Builtin(VariadicOp(Minus)),
      Symbol("*") := Builtin(VariadicOp(Times)),
      Symbol("/") := Builtin(VariadicOp(Divide)),
      Symbol("and") := Builtin(Combinator),
      Symbol("or") := Builtin(Combinator),
      Symbol("not") := Builtin(Combinator),
      Symbol("if") := Builtin(Conditional),
      Symbol("list") := Builtin(VariadicOp(ListFn)),
      Symbol("list?") := Builtin(UnaryOp(ListQ)),
      Symbol("length") := Builtin(UnaryOp(LengthFn)),
      Symbol("list-ref") := Builtin(BinaryOp(ListRefFn)),
      Symbol("append") := Builtin(VariadicOp(AppendFn)),
      Symbol("car") := Builtin(UnaryOp(CarFn)),
      Symbol("cdr") := Builtin(UnaryOp(CdrFn)),
      Symbol("cons") := Builtin(BinaryOp(ConsFn)),
      Symbol("begin") := Builtin(VariadicOp(BeginFn))
    ]
  }
}
