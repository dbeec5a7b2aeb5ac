/** Environments: frames with a parent link and a table of bindings, kept in
    a store so that closures and child frames can share them and `set!` can
    update an ancestor in place. */
module Frames {
  import opened Errors
  import opened Syntax
  import opened Values
  import Builtins

  /** A frame's table is keyed by the name expression: symbols as written,
      and numbers, which `define` also accepts as names. */
  datatype FrameRec = FrameRec(parent: Option<FrameId>, vars: map<Expr, Value>)

  /** Frames by number; `next` is the next unused number, shared by frames
      and closures. */
  datatype Store = Store(frames: map<FrameId, FrameRec>, next: nat)

  /** The builtin frame (no parent, bound to the builtin table) and the
      top-level frame made by `make_initial_frame`. */
  const BuiltinFrame: FrameId := 0
  const GlobalFrame: FrameId := 1

  predicate FrameOk(st: Store, f: FrameId)
    requires f in st.frames
  {
    && f < st.next
    && (st.frames[f].parent.Some? ==>
          st.frames[f].parent.value in st.frames && st.frames[f].parent.value < f)
    && forall k :: k in st.frames[f].vars ==> Refs(st.frames[f].vars[k]) <= st.frames.Keys
  }

  /** Every frame number is below `next`, every parent is an older frame in
      the store, and every closure held in a frame points into the store. */
  predicate Valid(st: Store) {
    forall f :: f in st.frames ==> FrameOk(st, f)
  }

  /** How a store may change while evaluating: numbers are never reused, no
      frame disappears and no parent link changes. */
  predicate Evolves(a: Store, b: Store) {
    && a.next <= b.next
    && forall f :: f in a.frames ==> f in b.frames && b.frames[f].parent == a.frames[f].parent
  }

  lemma EvolvesTransitive(a: Store, b: Store, c: Store)
    requires Evolves(a, b) && Evolves(b, c)
    ensures Evolves(a, c)
  {
  }

  /* ---------------- lookup ---------------- */

  /** The interpreter's `get_var`: a number is an evaluation error; otherwise
      the binding in this frame, else in the parent, else a name error. A
      list used as a key is unhashable in the host. */
  function Lookup(st: Store, fid: FrameId, name: Expr): (r: Result<Value>)
    requires Valid(st) && fid in st.frames
    decreases fid
    ensures r.Ok? ==> Refs(r.value) <= st.frames.Keys
  {
    if name.Number? then Err(EvaluationError)
    else if name.Form? then Err(HostError)
    else if name in st.frames[fid].vars then Ok(st.frames[fid].vars[name])
    else
      match st.frames[fid].parent
      case Some(p) => Lookup(st, p, name)
      case None => Err(NameError)
  }

  /** The frames from `fid` up to the root, nearest first. */
  function Chain(st: Store, fid: FrameId): (c: seq<FrameId>)
    requires Valid(st) && fid in st.frames
    decreases fid
    ensures |c| > 0 && c[0] == fid
    ensures forall i :: 0 <= i < |c| ==> c[i] in st.frames
  {
    match st.frames[fid].parent
    case Some(p) => [fid] + Chain(st, p)
    case None => [fid]
  }

  /** The search loop of `set!`: walk up from `fid` while the frame lacks the
      name and has a parent. */
  function Nearest(st: Store, fid: FrameId, name: Expr): (r: Option<FrameId>)
    requires Valid(st) && fid in st.frames
    decreases fid
    ensures r.Some? ==> r.value in st.frames && r.value <= fid && name in st.frames[r.value].vars
  {
    if name !in st.frames[fid].vars && st.frames[fid].parent.Some? then
      Nearest(st, st.frames[fid].parent.value, name)
    else if name !in st.frames[fid].vars then None
    else Some(fid)
  }

  /** `Nearest` finds nothing only when no frame of the chain binds the name,
      and otherwise finds the frame at position `i` of the chain, the first
      one that binds it. */
  lemma {:induction false} NearestSpec(st: Store, fid: FrameId, name: Expr) returns (i: nat)
    requires Valid(st) && fid in st.frames
    decreases fid
    ensures Nearest(st, fid, name).None? ==>
      forall k :: 0 <= k < |Chain(st, fid)| ==> name !in st.frames[Chain(st, fid)[k]].vars
    ensures Nearest(st, fid, name).Some? ==>
      && i < |Chain(st, fid)| && Chain(st, fid)[i] == Nearest(st, fid, name).value
      && name in st.frames[Chain(st, fid)[i]].vars
      && forall j :: 0 <= j < i ==> name !in st.frames[Chain(st, fid)[j]].vars
  {
    var c := Chain(st, fid);
    if name in st.frames[fid].vars {
      i := 0;
    } else if st.frames[fid].parent.Some? {
      var p := st.frames[fid].parent.value;
      var ip := NearestSpec(st, p, name);
      var cp := Chain(st, p);
      assert c == [fid] + cp;
      i := ip + 1;
      if Nearest(st, p, name).Some? {
        assert c[i] == cp[ip];
        forall j | 0 <= j < i
          ensures name !in st.frames[c[j]].vars
        {
          if j > 0 {
            assert c[j] == cp[j - 1];
          }
        }
      } else {
        forall k | 0 <= k < |c|
          ensures name !in st.frames[c[k]].vars
        {
          if k > 0 {
            assert c[k] == cp[k - 1];
          }
        }
      }
    } else {
      i := 0;
      assert c == [fid];
    }
  }

  /** `get_var` of a symbol answers with the binding `set!` would overwrite,
      and is a name error exactly when `set!` finds no frame; a number is an
      evaluation error and a list an unhashable key. */
  lemma {:induction false} LookupNearest(st: Store, fid: FrameId, name: Expr)
    requires Valid(st) && fid in st.frames
    decreases fid
    ensures name.Number? ==> Lookup(st, fid, name) == Err(EvaluationError)
    ensures name.Form? ==> Lookup(st, fid, name) == Err(HostError)
    ensures name.Symbol? ==>
      (Lookup(st, fid, name) ==
         match Nearest(st, fid, name)
         case None => Err(NameError)
         case Some(f) => Ok(st.frames[f].vars[name]))
  {
    if name.Symbol? && name !in st.frames[fid].vars && st.frames[fid].parent.Some? {
      LookupNearest(st, st.frames[fid].parent.value, name);
    }
  }

  /** Frames `st2` shares with `st1` from `fid` down: same numbers present,
      same contents. */
  predicate SameBelow(st1: Store, st2: Store, fid: FrameId) {
    forall h :: 0 <= h <= fid ==>
      (h in st1.frames <==> h in st2.frames)
      && (h in st1.frames ==> st1.frames[h] == st2.frames[h])
  }

  /** Lookups only read the chain, whose frames are all older than its
      start. */
  lemma {:induction false} LookupSameBelow(st1: Store, st2: Store, fid: FrameId, name: Expr)
    requires Valid(st1) && Valid(st2) && fid in st1.frames
    requires SameBelow(st1, st2, fid)
    decreases fid
    ensures fid in st2.frames && Lookup(st1, fid, name) == Lookup(st2, fid, name)
  {
    assert st1.frames[fid] == st2.frames[fid];
    match st1.frames[fid].parent
    case Some(p) => LookupSameBelow(st1, st2, p, name);
    case None =>
  }

  /* ---------------- binding ---------------- */

  /** The interpreter's `add_var`: bind in this frame only. A list name is
      unhashable in the host. */
  function AddVar(st: Store, fid: FrameId, name: Expr, v: Value): (r: Result<Store>)
    requires Valid(st) && fid in st.frames && Refs(v) <= st.frames.Keys
    ensures r.Ok? <==> !name.Form?
    ensures r.Err? ==> r.error == HostError
    ensures r.Ok? ==> Valid(r.value) && Evolves(st, r.value)
    ensures r.Ok? ==> r.value.frames.Keys == st.frames.Keys && r.value.next == st.next
    ensures r.Ok? ==> r.value.frames[fid].vars == st.frames[fid].vars[name := v]
    ensures r.Ok? ==> forall g :: g in st.frames && g != fid ==> r.value.frames[g] == st.frames[g]
  {
    if name.Form? then Err(HostError)
    else
      var fr := st.frames[fid];
      Ok(Store(st.frames[fid := FrameRec(fr.parent, fr.vars[name := v])], st.next))
  }

  /** After `add_var`, the frame sees the new binding, and every other name
      looks up as before from every frame. */
  lemma {:induction false} AddVarLookup(st: Store, fid: FrameId, name: Expr, v: Value, g: FrameId, other: Expr)
    requires Valid(st) && fid in st.frames && Refs(v) <= st.frames.Keys
    requires name.Symbol? && g in st.frames && other != name
    decreases g
    ensures Lookup(AddVar(st, fid, name, v).value, fid, name) == Ok(v)
    ensures Lookup(AddVar(st, fid, name, v).value, g, other) == Lookup(st, g, other)
  {
    var st2 := AddVar(st, fid, name, v).value;
    match st.frames[g].parent
    case Some(p) => AddVarLookup(st, fid, name, v, p, other);
    case None =>
  }

  /** The write of `set!`: overwrite the binding in the nearest frame that
      has the name; a name error when no frame up to the root has it. */
  function Assign(st: Store, fid: FrameId, name: Expr, v: Value): (r: Result<Store>)
    requires Valid(st) && fid in st.frames && Refs(v) <= st.frames.Keys
    ensures r.Ok? <==> !name.Form? && Nearest(st, fid, name).Some?
    ensures name.Form? ==> r == Err(HostError)
    ensures !name.Form? && r.Err? ==> r.error == NameError
    ensures r.Ok? ==> Valid(r.value) && Evolves(st, r.value)
    ensures r.Ok? ==> r.value.frames.Keys == st.frames.Keys && r.value.next == st.next
    ensures r.Ok? ==>
      var f := Nearest(st, fid, name).value;
      && f in st.frames
      && r.value.frames[f].vars == st.frames[f].vars[name := v]
      && forall g :: g in st.frames && g != f ==> r.value.frames[g] == st.frames[g]
  {
    if name.Form? then Err(HostError)
    else
      match Nearest(st, fid, name)
      case None => Err(NameError)
      case Some(f) =>
        var fr := st.frames[f];
        Ok(Store(st.frames[f := FrameRec(fr.parent, fr.vars[name := v])], st.next))
  }

  /** After `set!` the name looks up to the new value from the frame that
      assigned it. */
  lemma AssignLookup(st: Store, fid: FrameId, name: Expr, v: Value)
    requires Valid(st) && fid in st.frames && Refs(v) <= st.frames.Keys
    requires name.Symbol? && Assign(st, fid, name, v).Ok?
    ensures Lookup(Assign(st, fid, name, v).value, fid, name) == Ok(v)
  {
    var st2 := Assign(st, fid, name, v).value;
    var f := Nearest(st, fid, name).value;
    forall g | g in st.frames
      ensures st2.frames[g].parent == st.frames[g].parent
      ensures name in st2.frames[g].vars <==> name in st.frames[g].vars
    {
      if g != f {
        assert st2.frames[g] == st.frames[g];
      }
    }
    NearestAfterAssign(st, st2, fid, name);
    LookupNearest(st2, fid, name);
  }

  lemma {:induction false} NearestAfterAssign(st: Store, st2: Store, fid: FrameId, name: Expr)
    requires Valid(st) && Valid(st2) && fid in st.frames
    requires st2.frames.Keys == st.frames.Keys
    requires forall g :: g in st.frames ==> st2.frames[g].parent == st.frames[g].parent
    requires forall g :: g in st.frames ==> (name in st2.frames[g].vars <==> name in st.frames[g].vars)
    decreases fid
    ensures Nearest(st2, fid, name) == Nearest(st, fid, name)
  {
    if name !in st.frames[fid].vars && st.frames[fid].parent.Some? {
      NearestAfterAssign(st, st2, st.frames[fid].parent.value, name);
    }
  }

  /** `del`: remove and return the binding of this frame only. A binding
      held only by an ancestor is a name error. */
  function Delete(st: Store, fid: FrameId, name: Expr): (r: Result<(Value, Store)>)
    requires Valid(st) && fid in st.frames
    ensures r.Ok? <==> !name.Form? && name in st.frames[fid].vars
    ensures name.Form? ==> r == Err(HostError)
    ensures !name.Form? && r.Err? ==> r.error == NameError
    ensures r.Ok? ==> r.value.0 == st.frames[fid].vars[name]
    ensures r.Ok? ==> Valid(r.value.1) && Evolves(st, r.value.1)
    ensures r.Ok? ==> Refs(r.value.0) <= r.value.1.frames.Keys
    ensures r.Ok? ==> forall g :: g in st.frames && g != fid ==> r.value.1.frames[g] == st.frames[g]
    ensures r.Ok? ==> r.value.1.frames.Keys == st.frames.Keys && r.value.1.next == st.next
    ensures r.Ok? ==>
      r.value.1.frames[fid] == FrameRec(st.frames[fid].parent, st.frames[fid].vars - {name})
  {
    if name.Form? then Err(HostError)
    else if name in st.frames[fid].vars then
      var fr := st.frames[fid];
      Ok((fr.vars[name], Store(st.frames[fid := FrameRec(fr.parent, fr.vars - {name})], st.next)))
    else Err(NameError)
  }

  /** After `del`, the name looks up as it does from the parent frame, and
      every other name looks up as before. */
  lemma DeleteLookup(st: Store, fid: FrameId, name: Expr, other: Expr)
    requires Valid(st) && fid in st.frames
    requires name.Symbol? && Delete(st, fid, name).Ok?
    ensures var st2 := Delete(st, fid, name).value.1;
      Lookup(st2, fid, name) ==
        match st.frames[fid].parent
        case Some(p) => Lookup(st, p, name)
        case None => Err(NameError)
    ensures other != name ==> Lookup(Delete(st, fid, name).value.1, fid, other) == Lookup(st, fid, other)
  {
    var st2 := Delete(st, fid, name).value.1;
    match st.frames[fid].parent
    case Some(p) =>
      LookupSameBelow(st, st2, p, name);
      LookupSameBelow(st, st2, p, other);
    case None =>
  }

  /* ---------------- allocation ---------------- */

  /** A fresh empty frame whose parent is `parent`. */
  function PushFrame(st: Store, parent: FrameId): (r: (Store, FrameId))
    requires Valid(st) && parent in st.frames
    ensures Valid(r.0) && Evolves(st, r.0)
    ensures r.1 !in st.frames && r.1 in r.0.frames
    ensures r.0.frames.Keys == st.frames.Keys + {r.1}
    ensures r.0.frames[r.1] == FrameRec(Some(parent), map[])
    ensures forall g :: g in st.frames ==> r.0.frames[g] == st.frames[g]
  {
    var id := st.next;
    (Store(st.frames[id := FrameRec(Some(parent), map[])], st.next + 1), id)
  }

  /** A new empty frame is transparent: names look up as from its parent. */
  lemma PushFrameLookup(st: Store, parent: FrameId, name: Expr)
    requires Valid(st) && parent in st.frames
    ensures var (st2, f) := PushFrame(st, parent);
      Lookup(st2, f, name) == Lookup(st, parent, name)
  {
    var (st2, f) := PushFrame(st, parent);
    assert SameBelow(st, st2, parent);
    LookupSameBelow(st, st2, parent, name);
  }

  /** A fresh allocation number for a closure. */
  function NewId(st: Store): (r: (nat, Store))
    requires Valid(st)
    ensures Valid(r.1) && Evolves(st, r.1) && r.1.frames == st.frames
    ensures r.0 == st.next && r.1.next == st.next + 1
  {
    (st.next, Store(st.frames, st.next + 1))
  }

  /* ---------------- the initial store ---------------- */

  /** A builtin frame bound to `table` and an empty top-level frame below
      it. */
  function StoreWith(table: map<Expr, Value>): Store {
    Store(map[BuiltinFrame := FrameRec(None, table),
              GlobalFrame := FrameRec(Some(BuiltinFrame), map[])], 2)
  }

  function InitialStore(): Store {
    StoreWith(Builtins.BuiltinTable())
  }

  /** A store built on a table of builtins is valid, and from its top-level
      frame a symbol names its table entry or nothing. */
  lemma StoreWithSpec(table: map<Expr, Value>, name: string)
    requires forall k :: k in table ==> table[k].Builtin?
    ensures Valid(StoreWith(table)) && GlobalFrame in StoreWith(table).frames
    ensures Symbol(name) in table ==>
      Lookup(StoreWith(table), GlobalFrame, Symbol(name)) == Ok(table[Symbol(name)])
    ensures Symbol(name) !in table ==>
      Lookup(StoreWith(table), GlobalFrame, Symbol(name)) == Err(NameError)
  {
    var st := StoreWith(table);
    assert FrameOk(st, BuiltinFrame);
    assert FrameOk(st, GlobalFrame);
  }

  /** The initial store is valid, and from the top-level frame a symbol
      names its builtin or nothing. */
  lemma InitialStoreSpec(name: string)
    ensures Valid(InitialStore()) && GlobalFrame in InitialStore().frames
    ensures Symbol(name) in Builtins.BuiltinTable() ==>
      Lookup(InitialStore(), GlobalFrame, Symbol(name)) == Ok(Builtins.BuiltinTable()[Symbol(name)])
    ensures Symbol(name) !in Builtins.BuiltinTable() ==>
      Lookup(InitialStore(), GlobalFrame, Symbol(name)) == Err(NameError)
  {
    StoreWithSpec(Builtins.BuiltinTable(), name);
  }
}
