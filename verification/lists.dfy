/** The cons-list runtime: pairs, the empty list, and the list builtins
    (`cons car cdr list list? length list-ref append`). */
module Lists {
  import opened Errors
  import opened Values

  /* ---------------- pairs ---------------- */

  function Cons(a: Value, d: Value): Value {
    Pair(a, d)
  }

  /** `car` of anything but a pair is an evaluation error. */
  function Car(v: Value): (r: Result<Value>)
    ensures r.Ok? <==> v.Pair?
    ensures r.Err? ==> r.error == EvaluationError
    ensures r.Ok? ==> Refs(r.value) <= Refs(v)
  {
    if v.Pair? then Ok(v.car) else Err(EvaluationError)
  }

  /** `cdr` of anything but a pair is an evaluation error. */
  function Cdr(v: Value): (r: Result<Value>)
    ensures r.Ok? <==> v.Pair?
    ensures r.Err? ==> r.error == EvaluationError
    ensures r.Ok? ==> Refs(r.value) <= Refs(v)
  {
    if v.Pair? then Ok(v.cdr) else Err(EvaluationError)
  }

  /** `car` and `cdr` take apart what `cons` builds. */
  lemma CarCdrCons(a: Value, d: Value)
    ensures Car(Cons(a, d)) == Ok(a)
    ensures Cdr(Cons(a, d)) == Ok(d)
  {
  }

  /* ---------------- proper lists ---------------- */

  /** The interpreter's `list?`: `"#t"` for the empty list, `"#f"` for
      anything that is neither a pair nor the empty list, and the answer for
      the `cdr` otherwise. */
  function IsList(v: Value): (r: Value)
    decreases v
    ensures r == True || r == False
  {
    if !v.Pair? && v != Nil then False
    else if v == Nil then True
    else IsList(v.cdr)
  }

  predicate Proper(v: Value) {
    IsList(v) == True
  }

  /** Following `cdr` `n` times, if every step meets a pair. */
  function CdrN(v: Value, n: nat): Option<Value> {
    if n == 0 then Some(v)
    else if v.Pair? then CdrN(v.cdr, n - 1)
    else None
  }

  /** `list?` says `"#t"` exactly when some number of `cdr` steps reaches the
      empty list. */
  lemma {:induction false} IsListReachesNil(v: Value)
    ensures IsList(v) == True <==> exists n: nat :: CdrN(v, n) == Some(Nil)
  {
    if IsList(v) == True {
      var n := NilDistance(v);
      assert CdrN(v, n) == Some(Nil);
    }
    if exists n: nat :: CdrN(v, n) == Some(Nil) {
      var n: nat :| CdrN(v, n) == Some(Nil);
      ReachesNilIsList(v, n);
    }
  }

  lemma {:induction false} NilDistance(v: Value) returns (n: nat)
    requires IsList(v) == True
    ensures CdrN(v, n) == Some(Nil)
    decreases v
  {
    if v == Nil {
      n := 0;
    } else {
      var m := NilDistance(v.cdr);
      n := m + 1;
    }
  }

  lemma {:induction false} ReachesNilIsList(v: Value, n: nat)
    requires CdrN(v, n) == Some(Nil)
    ensures IsList(v) == True
    decreases n
  {
    if n > 0 && v.Pair? {
      ReachesNilIsList(v.cdr, n - 1);
    }
  }

  /** The elements of a proper list, in order. */
  function Elements(v: Value): seq<Value>
    requires Proper(v)
    decreases v
  {
    if v.Pair? then [v.car] + Elements(v.cdr) else []
  }

  lemma {:induction false} ElementsRefs(v: Value)
    requires Proper(v)
    ensures Refs(v) == RefsAll(Elements(v))
    decreases v
  {
    if v.Pair? {
      ElementsRefs(v.cdr);
      assert Elements(v)[1..] == Elements(v.cdr);
    }
  }

  /* ---------------- list ---------------- */

  /** The interpreter's `make(ind)`: a fresh pair for each argument from
      position `ind` on. */
  function MakeFrom(xs: seq<Value>, ind: nat): Value
    decreases |xs| - ind
  {
    if ind + 1 > |xs| then Nil else Pair(xs[ind], MakeFrom(xs, ind + 1))
  }

  function MakeList(xs: seq<Value>): Value {
    MakeFrom(xs, 0)
  }

  lemma {:induction false} MakeFromElements(xs: seq<Value>, ind: nat)
    requires ind <= |xs|
    ensures Proper(MakeFrom(xs, ind))
    ensures Elements(MakeFrom(xs, ind)) == xs[ind..]
    decreases |xs| - ind
  {
    if ind < |xs| {
      MakeFromElements(xs, ind + 1);
      assert xs[ind..] == [xs[ind]] + xs[ind + 1..];
    }
  }

  /** `list` builds a proper list whose elements are its arguments. */
  lemma MakeListElements(xs: seq<Value>)
    ensures Proper(MakeList(xs))
    ensures Elements(MakeList(xs)) == xs
    ensures Refs(MakeList(xs)) == RefsAll(xs)
  {
    MakeFromElements(xs, 0);
    ElementsRefs(MakeList(xs));
  }

  /* ---------------- length and list-ref ---------------- */

  /** `length` of a proper list is its number of elements; of anything else
      it is an evaluation error. */
  function Length(v: Value): (r: Result<int>)
    decreases v
    ensures r.Ok? <==> Proper(v)
    ensures r.Ok? ==> r.value == |Elements(v)|
    ensures r.Err? ==> r.error == EvaluationError
  {
    if IsList(v) == False then Err(EvaluationError)
    else if v == Nil then Ok(0)
    else
      match Length(v.cdr)
      case Ok(n) => Ok(1 + n)
      case Err(x) => Err(x)
  }

  /** `list-ref`. On a proper list an integer index in range gives that
      element, an index at or past the end is an evaluation error, and a
      negative index walks off the end of the list into a host error. A
      non-integer index is an evaluation error. On anything that is not a
      proper list only a pair with index 0 succeeds, giving its `car`. */
  function GetAt(ll: Value, ind: Value): (r: Result<Value>)
    decreases ll
    ensures Proper(ll) && ind.Int? && 0 <= ind.i < |Elements(ll)| ==>
      r == Ok(Elements(ll)[ind.i])
    ensures Proper(ll) && ind.Int? && ind.i >= |Elements(ll)| ==> r == Err(EvaluationError)
    ensures Proper(ll) && ind.Int? && ind.i < 0 ==> r == Err(HostError)
    ensures Proper(ll) && !ind.Int? ==> r == Err(EvaluationError)
    ensures !Proper(ll) ==>
      r == (if ll.Pair? && ind == Int(0) then Ok(ll.car) else Err(EvaluationError))
    ensures r.Ok? ==> Refs(r.value) <= Refs(ll)
  {
    if IsList(ll) == False then
      if ll.Pair? && ind == Int(0) then Ok(ll.car) else Err(EvaluationError)
    else if !ind.Int? || ind.i >= Length(ll).value then Err(EvaluationError)
    else if ind.i == 0 then Ok(ll.car)
    else if !ll.Pair? then Err(HostError)
    else GetAt(ll.cdr, Int(ind.i - 1))
  }

  /** `length` and `list-ref` read back what `list` was given. */
  lemma MakeListLengthGetAt(xs: seq<Value>, i: int)
    ensures Length(MakeList(xs)) == Ok(|xs|)
    ensures 0 <= i < |xs| ==> GetAt(MakeList(xs), Int(i)) == Ok(xs[i])
  {
    MakeListElements(xs);
  }

  /* ---------------- append ---------------- */

  /** The interpreter's `copy_list(l1, l2)`: fresh pairs holding the elements
      of `l1`, ending in `l2`. */
  function CopyList(l1: Value, l2: Value): (r: Value)
    requires Proper(l1)
    decreases l1
    ensures Proper(r) <==> Proper(l2)
    ensures Proper(l2) ==> Elements(r) == Elements(l1) + Elements(l2)
    ensures Refs(r) <= Refs(l1) + Refs(l2)
  {
    if l1 == Nil then l2 else Pair(l1.car, CopyList(l1.cdr, l2))
  }

  predicate AllProper(args: seq<Value>) {
    forall i :: 0 <= i < |args| ==> Proper(args[i])
  }

  /** The elements of a run of proper lists, one list after another. */
  function Flatten(args: seq<Value>): seq<Value>
    requires AllProper(args)
  {
    if args == [] then [] else Elements(args[0]) + Flatten(args[1..])
  }

  /** `append` of no lists is the empty list; it is an evaluation error if
      any argument is not a proper list, and otherwise a fresh proper list
      holding the arguments' elements in order. */
  function AppendList(args: seq<Value>): (r: Result<Value>)
    ensures r.Ok? <==> AllProper(args)
    ensures r.Err? ==> r.error == EvaluationError
    ensures r.Ok? ==> Proper(r.value) && Elements(r.value) == Flatten(args)
    ensures r.Ok? ==> Refs(r.value) <= RefsAll(args)
  {
    if args == [] then Ok(Nil)
    else
      AllProperCons(args);
      if IsList(args[0]) == False then Err(EvaluationError)
      else if |args| == 1 then
        assert Flatten(args[1..]) == [];
        Ok(CopyList(args[0], Nil))
      else
        match AppendList(args[1..])
        case Err(err) => Err(err)
        case Ok(rest) =>
          AppendStep(args, rest);
          Ok(CopyList(CopyList(args[0], Nil), rest))
  }

  /** One step of `append`: the first list copied in front of the appended
      rest. */
  lemma AppendStep(args: seq<Value>, rest: Value)
    requires |args| > 1 && Proper(args[0]) && AllProper(args[1..])
    requires Proper(rest) && Elements(rest) == Flatten(args[1..])
    requires Refs(rest) <= RefsAll(args[1..])
    ensures AllProper(args)
    ensures Proper(CopyList(CopyList(args[0], Nil), rest))
    ensures Elements(CopyList(CopyList(args[0], Nil), rest)) == Flatten(args)
    ensures Refs(CopyList(CopyList(args[0], Nil), rest)) <= RefsAll(args)
  {
    AllProperCons(args);
    var c := CopyList(args[0], Nil);
    assert Elements(c) == Elements(args[0]) + [];
    assert Elements(args[0]) + [] == Elements(args[0]);
  }

  lemma AllProperCons(args: seq<Value>)
    requires args != []
    ensures AllProper(args) <==> Proper(args[0]) && AllProper(args[1..])
    ensures RefsAll(args) == Refs(args[0]) + RefsAll(args[1..])
  {
    if Proper(args[0]) && AllProper(args[1..]) {
      forall i | 0 <= i < |args|
        ensures Proper(args[i])
      {
        if i > 0 {
          assert args[i] == args[1..][i - 1];
        }
      }
    }
  }

  /** Total number of elements in a run of proper lists, as `length`
      counts them. */
  function SumLengths(args: seq<Value>): int
    requires AllProper(args)
  {
    if args == [] then 0 else Length(args[0]).value + SumLengths(args[1..])
  }

  lemma {:induction false} FlattenLength(args: seq<Value>)
    requires AllProper(args)
    ensures |Flatten(args)| == SumLengths(args)
  {
    if args != [] {
      FlattenLength(args[1..]);
    }
  }

  /** The length of an appended list is the sum of the arguments' lengths. */
  lemma {:induction false} AppendLength(args: seq<Value>)
    requires AllProper(args)
    ensures Length(AppendList(args).value) == Ok(SumLengths(args))
  {
    FlattenLength(args);
  }
}
