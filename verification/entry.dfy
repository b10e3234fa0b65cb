/**
  Entering a procedure: arguments to frame, surplus arguments to a list,
  room for internal definitions, boxes for assigned variables.
*/
module Entry {
  import opened Scheme
  import opened Bytecode
  import opened Codegen
  import opened Relation
  import opened Steps

  ghost predicate BoxesIn(rep: Rep, heap: Heap) {
    forall i :: 0 <= i < |rep| && !rep[i].Direct? ==> rep[i].addr < |heap|
  }

  lemma GrowsAppend(rep: Rep, heap: Heap, more: Heap)
    ensures Grows(rep, heap, rep, heap + more)
  {
  }

  /** The field that holds the location is unchanged. */
  predicate FieldKept(r: Loc, heap: Heap, heap1: Heap) {
    !r.Direct? ==>
      && r.addr < |heap| && r.addr < |heap1| && heap[r.addr].PairObj? && heap1[r.addr].PairObj?
      && (if r.CarOf? then heap1[r.addr].car == heap[r.addr].car else heap1[r.addr].cdr == heap[r.addr].cdr)
  }

  lemma OldLocRel(rep: Rep, heap: Heap, rep1: Rep, heap1: Heap, sv: set<Var>, v: Val, r: Loc)
    requires LocRel(rep, heap, sv, v, r) && Grows(rep, heap, rep1, heap1) && FieldKept(r, heap, heap1)
    ensures LocRel(rep1, heap1, sv, v, r)
  {
    hide ValRel;
    hide Grows;
    GrowsVal(rep, heap, rep1, heap1, sv, v,
             if r.Direct? then r.w else if r.CarOf? then heap[r.addr].car else heap[r.addr].cdr);
  }

  /** A new pair of the machine holds the two locations of a new pair of the evaluator. */
  lemma {:induction false} PairRel(rep: Rep, heap: Heap, sv: set<Var>, st: Store, a: Val, wa: Word, d: Val, wd: Word)
    returns (rep1: Rep)
    requires StoreRel(rep, heap, sv, st) && ValRel(rep, heap, sv, a, wa) && ValRel(rep, heap, sv, d, wd)
    ensures rep1 == rep + [CarOf(|heap|), Boxed(|heap|)]
    ensures var heap1 := heap + [PairObj(wa, wd)];
            && Grows(rep, heap, rep1, heap1) && StoreRel(rep1, heap1, sv, st + [a, d])
            && ValRel(rep1, heap1, sv, PairAt(|st|), Pair(|heap|))
  {
    hide ValRel;
    rep1 := rep + [CarOf(|heap|), Boxed(|heap|)];
    var heap1, st1 := heap + [PairObj(wa, wd)], st + [a, d];
    assert Grows(rep, heap, rep1, heap1);
    forall i | 0 <= i < |rep1|
      ensures LocRel(rep1, heap1, sv, st1[i], rep1[i])
    {
      if i < |rep| {
        OldLocRel(rep, heap, rep1, heap1, sv, st[i], rep[i]);
      } else if i == |rep| {
        GrowsVal(rep, heap, rep1, heap1, sv, a, wa);
      } else {
        GrowsVal(rep, heap, rep1, heap1, sv, d, wd);
      }
    }
    NewFieldsApart(rep, heap, [CarOf(|heap|), Boxed(|heap|)]);
    PairWord(rep1, heap1, sv, |st|, |heap|);
  }

  lemma PairWord(rep: Rep, heap: Heap, sv: set<Var>, i: nat, a: nat)
    requires i + 1 < |rep| && rep[i] == CarOf(a) && rep[i + 1] == Boxed(a)
    ensures ValRel(rep, heap, sv, PairAt(i), Pair(a))
  {
  }

  lemma StoreBoxes(rep: Rep, heap: Heap, sv: set<Var>, st: Store)
    requires StoreRel(rep, heap, sv, st)
    ensures BoxesIn(rep, heap)
  {
    forall i | 0 <= i < |rep| && !rep[i].Direct?
      ensures rep[i].addr < |heap|
    {
      assert LocRel(rep, heap, sv, st[i], rep[i]);
    }
  }

  /** Writing the field that holds a location is the assignment to it. */
  lemma {:induction false} StoreSet(rep: Rep, heap: Heap, sv: set<Var>, st: Store, loc: nat, v: Val, w: Word)
    requires StoreRel(rep, heap, sv, st) && loc < |st| && !rep[loc].Direct? && ValRel(rep, heap, sv, v, w)
    ensures rep[loc].addr < |heap| && heap[rep[loc].addr].PairObj?
    ensures var a := rep[loc].addr;
            var heap1 := heap[a := WithField(heap[a], rep[loc].CarOf?, w)];
            Grows(rep, heap, rep, heap1) && StoreRel(rep, heap1, sv, st[loc := v])
  {
    hide ValRel;
    var a := rep[loc].addr;
    assert LocRel(rep, heap, sv, st[loc], rep[loc]);
    var heap1 := heap[a := WithField(heap[a], rep[loc].CarOf?, w)];
    assert InCell(rep[loc], a);
    assert Grows(rep, heap, rep, heap1);
    var st1 := st[loc := v];
    forall i | 0 <= i < |rep| ensures LocRel(rep, heap1, sv, st1[i], rep[i]) {
      if i == loc {
        GrowsVal(rep, heap, rep, heap1, sv, v, w);
      } else {
        assert LocRel(rep, heap, sv, st[i], rep[i]);
        assert !SameField(rep[if i < loc then i else loc], rep[if i < loc then loc else i]);
        OldLocRel(rep, heap, rep, heap1, sv, st[i], rep[i]);
      }
    }
  }

  /** New locations in new pairs stay apart from the old ones. */
  lemma NewFieldsApart(rep: Rep, heap: Heap, more: Rep)
    requires FieldsApart(rep) && BoxesIn(rep, heap) && FieldsApart(more)
    requires forall r <- more :: !r.Direct? ==> r.addr >= |heap|
    ensures FieldsApart(rep + more)
  {
    var rep1 := rep + more;
    forall i, j | 0 <= i < j < |rep1|
      ensures !SameField(rep1[i], rep1[j])
    {
      if j >= |rep| {
        assert rep1[j] == more[j - |rep|];
        if i >= |rep| {
          assert rep1[i] == more[i - |rep|];
        }
      }
    }
  }

  /** The machine's list represents the evaluator's, in order. */
  lemma {:induction false} ConsListRel(rep: Rep, heap: Heap, sv: set<Var>, st: Store, vs: seq<Val>, ws: seq<Word>)
    returns (rep1: Rep)
    requires StoreRel(rep, heap, sv, st) && ValsRel(rep, heap, sv, vs, ws)
    ensures var (h, w) := ConsList(heap, ws);
            var (st1, v) := ListIn(st, vs);
            && Grows(rep, heap, rep1, h) && StoreRel(rep1, h, sv, st1) && ValRel(rep1, h, sv, v, w)
            && |h| == |heap| + |ws| && h[..|heap|] == heap
    decreases vs
  {
    hide ValRel;
    hide StoreRel;
    hide Grows;
    if vs == [] {
      rep1 := rep;
      GrowsAppend(rep, heap, []);
      assert heap + [] == heap;
      NullWord(rep, heap, sv);
    } else {
      var rep0 := ConsListRel(rep, heap, sv, st, vs[1..], ws[1..]);
      var (h, tl) := ConsList(heap, ws[1..]);
      var (st0, tv) := ListIn(st, vs[1..]);
      GrowsVal(rep, heap, rep0, h, sv, vs[0], ws[0]);
      rep1 := PairRel(rep0, h, sv, st0, vs[0], ws[0], tv, tl);
      GrowsTrans(rep, heap, rep0, h, rep1, h + [PairObj(ws[0], tl)]);
      assert (h + [PairObj(ws[0], tl)])[..|heap|] == h[..|heap|];
    }
  }

  lemma NullWord(rep: Rep, heap: Heap, sv: set<Var>)
    ensures ValRel(rep, heap, sv, Imm(Null), Const(Null))
  {
  }

  /** The frame right after the call, before any code of the procedure runs. */
  ghost predicate Entered(base: seq<Word>, formals: seq<Word>, retIp: int, retSelf: Word, retFp: int, s: State) {
    && s.stack == base + Reverse(formals) + [Fix(|formals|), Fix(retIp), retSelf, Fix(retFp)]
    && s.fp == |base| + |formals| && s.ip == 0
  }

  /** Values of the formals of a lambda: the arguments and the rest list. */
  function FormalVals(l: Lambda, vs: seq<Val>, st: Store): seq<Val>
    requires Takes(l, |vs|)
  {
    vs[..|l.params|] + (if l.rest.Some? then [ListIn(st, vs[|l.params|..]).1] else [])
  }

  /** A call raises exactly when the evaluator rejects it, and otherwise enters with related formals. */
  lemma EnterRel(rep: Rep, heap: Heap, sv: set<Var>, st: Store, l: Lambda, env: Env, vs: seq<Val>, args: seq<Word>,
                 base: seq<Word>, proc: Word, retIp: int, retSelf: Word, retFp: int)
    returns (s: State, formals: seq<Word>, rep1: Rep)
    requires StoreRel(rep, heap, sv, st) && ValRel(rep, heap, sv, Clo(l, env), proc) && ValsRel(rep, heap, sv, vs, args)
    ensures !Takes(l, |vs|) ==> EnterCall(base, args, proc, retIp, retSelf, retFp, heap) == Raised
    ensures Takes(l, |vs|) ==>
              && EnterCall(base, args, proc, retIp, retSelf, retFp, heap) == Next(s)
              && Entered(base, formals, retIp, retSelf, retFp, s) && s.self == proc
              && ValsRel(rep1, s.heap, sv, FormalVals(l, vs, st), formals)
              && |formals| == |l.Formals()|
              && Grows(rep, heap, rep1, s.heap) && StoreRel(rep1, s.heap, sv, RestStore(l, vs, st))
  {
    hide StoreRel;
    hide Grows;
    var n := |l.params|;
    rep1 := rep;
    GrowsAppend(rep, heap, []);
    assert heap + [] == heap;
    if Takes(l, |vs|) {
      if l.rest.Some? {
        assert ValsRel(rep, heap, sv, vs[n..], args[n..]);
        rep1 := ConsListRel(rep, heap, sv, st, vs[n..], args[n..]);
        var (h, tl) := ConsList(heap, args[n..]);
        formals := args[..n] + [tl];
        GrowsVals(rep, heap, rep1, h, sv, vs, args);
      } else {
        formals := args;
        assert vs[..n] + [] == vs && args[..n] == args;
      }
      var o := EnterCall(base, args, proc, retIp, retSelf, retFp, heap);
      assert o.Next?;
      s := o.s;
    } else {
      s, formals := State([], 0, 0, proc, heap), [];
    }
  }

  // ---------------------------------------------------- internal definitions

  lemma {:induction false} DoReserve(s: State, n: nat)
    requires s.self.Proc? && CodeAt(s.self.code, s.ip, GenReserve(n))
    ensures Run(s, n) == Next(After(s, s.stack + seq(n, _ => Const(Undef)), |GenReserve(n)|, s.heap))
    decreases n
  {
    hide Step;
    if n == 0 {
      assert s.stack + seq(n, _ => Const(Undef)) == s.stack;
    } else {
      CodeSplit(s.self.code, s.ip, Push(Const(Undef)), GenReserve(n - 1));
      DoPush(s, Const(Undef));
      var t := After(s, s.stack + [Const(Undef)], 1 + WORD, s.heap);
      DoReserve(t, n - 1);
      Chain2(s, 1, t, n - 1);
      assert s.stack + seq(n, _ => Const(Undef)) == t.stack + seq(n - 1, _ => Const(Undef));
    }
  }

  // ------------------------------------------------------------------- boxes

  lemma SlotsApart(l: Lambda, fp: int, j: nat, k: nat)
    requires j < |l.Names()| && k < |l.Names()| && j != k
    ensures SlotPos(l, fp, j) != SlotPos(l, fp, k)
  {
  }

  /** The frame has room for everything the lambda binds. */
  predicate Roomy(l: Lambda, s: State) {
    |l.Formals()| <= s.fp && s.fp + 4 + |l.locals| <= |s.stack|
  }

  lemma SlotInStack(l: Lambda, s: State, k: nat)
    requires Roomy(l, s) && k < |l.Names()|
    ensures 0 <= s.fp - |l.Formals()| <= SlotPos(l, s.fp, k) < |s.stack|
    ensures !(s.fp <= SlotPos(l, s.fp, k) < s.fp + 4)
  {
  }

  /** One box: the slot at `p` is replaced by a new pair (n . old value). */
  lemma DoBoxAt(s: State, i: int, n: Name)
    requires s.self.Proc? && 0 <= s.fp - 1 - i < |s.stack|
    requires CodeAt(s.self.code, s.ip, WithWord(LOCAL_REF, I(i)))
    requires CodeAt(s.self.code, s.ip + 1 + WORD, Push(Const(Sym(n))))
    requires CodeAt(s.self.code, s.ip + 2 + 2 * WORD, Plain(CONS))
    requires CodeAt(s.self.code, s.ip + 3 + 2 * WORD, WithWord(LOCAL_SET, I(i)))
    ensures Run(s, 4) == Next(After(s, s.stack[s.fp - 1 - i := Pair(|s.heap|)], 4 + 3 * WORD,
                                    s.heap + [PairObj(Const(Sym(n)), s.stack[s.fp - 1 - i])]))
  {
    hide Step;
    var was := s.stack[s.fp - 1 - i];
    DoLocalRef(s, i);
    var s1 := After(s, s.stack + [was], 1 + WORD, s.heap);
    DoPush(s1, Const(Sym(n)));
    var s2 := After(s1, s1.stack + [Const(Sym(n))], 1 + WORD, s.heap);
    DoCons(s2, s.stack, was, Const(Sym(n)));
    var s3 := After(s2, s.stack + [Pair(|s.heap|)], 1, s.heap + [PairObj(Const(Sym(n)), was)]);
    DoLocalSet(s3, i, s.stack, Pair(|s.heap|));
    Chain2(s, 1, s1, 1);
    Chain2(s, 2, s2, 1);
    Chain2(s, 3, s3, 1);
  }

  lemma BoxCode(code: Code, ip: int, n: Name, l: Lambda, rest: Code)
    requires CodeAt(code, ip, GenBox(n, l) + rest)
    ensures CodeAt(code, ip, WithWord(LOCAL_REF, I(ParamIndex(l, n))))
    ensures CodeAt(code, ip + 1 + WORD, Push(Const(Sym(n))))
    ensures CodeAt(code, ip + 2 + 2 * WORD, Plain(CONS))
    ensures CodeAt(code, ip + 3 + 2 * WORD, WithWord(LOCAL_SET, I(ParamIndex(l, n))))
    ensures CodeAt(code, ip + 4 + 3 * WORD, rest)
  {
    CodeSplit(code, ip, GenBox(n, l), rest);
    CodeSplit4(code, ip, WithWord(LOCAL_REF, I(ParamIndex(l, n))), Push(Const(Sym(n))), Plain(CONS),
               WithWord(LOCAL_SET, I(ParamIndex(l, n))));
  }

  /** The slot at `p` holds the box of `n` when `n` is among the names, and is unchanged otherwise. */
  ghost predicate BoxedSlot(names: seq<Name>, n: Name, p: int, s: State, t: State)
    requires |t.stack| == |s.stack| && |t.heap| == |s.heap| + |names|
  {
    0 <= p < |s.stack|
    && (if n in names
        then
          var a := |s.heap| + IndexOf(names, n);
          t.stack[p] == Pair(a) && t.heap[a] == PairObj(Const(Sym(n)), s.stack[p])
        else t.stack[p] == s.stack[p])
  }

  /** After boxing `names`: each of their slots points to its own new pair, all else is as before. */
  ghost predicate BoxedFrom(l: Lambda, names: seq<Name>, s: State, t: State) {
    && |t.stack| == |s.stack| && t.fp == s.fp && t.self == s.self
    && |t.heap| == |s.heap| + |names| && t.heap[..|s.heap|] == s.heap
    && (forall k :: 0 <= k < |l.Names()| ==> BoxedSlot(names, l.Names()[k], SlotPos(l, s.fp, k), s, t))
    && (forall p :: 0 <= p < |s.stack| && (p < s.fp - |l.Formals()| || s.fp <= p < s.fp + 4) ==>
          t.stack[p] == s.stack[p])
  }

  lemma {:induction false} DoFirstBox(s: State, l: Lambda, names: seq<Name>) returns (k: nat, t: State)
    requires s.self.Proc? && Roomy(l, s) && names != [] && names[0] in l.Names()
    requires CodeAt(s.self.code, s.ip, GenBoxes(names, l))
    ensures k < |l.Names()| && l.Names()[k] == names[0] && 0 <= SlotPos(l, s.fp, k) < |s.stack|
    ensures t == After(s, s.stack[SlotPos(l, s.fp, k) := Pair(|s.heap|)], 4 + 3 * WORD,
                       s.heap + [PairObj(Const(Sym(names[0])), s.stack[SlotPos(l, s.fp, k)])])
    ensures Run(s, 4) == Next(t)
    ensures CodeAt(t.self.code, t.ip, GenBoxes(names[1..], l))
    ensures |GenBoxes(names, l)| == 4 + 3 * WORD + |GenBoxes(names[1..], l)|
  {
    hide Step;
    hide Run;
    hide CodeAt;
    var x := names[0];
    BoxCode(s.self.code, s.ip, x, l, GenBoxes(names[1..], l));
    k := ParamIndexPos(l, x, s.fp);
    SlotInStack(l, s, k);
    DoBoxAt(s, ParamIndex(l, x), x);
    t := After(s, s.stack[SlotPos(l, s.fp, k) := Pair(|s.heap|)], 4 + 3 * WORD,
               s.heap + [PairObj(Const(Sym(x)), s.stack[SlotPos(l, s.fp, k)])]);
  }

  lemma {:induction false} DoBoxes(s: State, l: Lambda, names: seq<Name>) returns (n: nat, t: State)
    requires s.self.Proc? && Roomy(l, s) && Distinct(l.Names()) && Distinct(names)
    requires forall x :: x in names ==> x in l.Names()
    requires CodeAt(s.self.code, s.ip, GenBoxes(names, l))
    ensures Run(s, n) == Next(t) && t.ip == s.ip + |GenBoxes(names, l)|
    ensures BoxedFrom(l, names, s, t)
    decreases names
  {
    hide Step;
    if names == [] {
      n, t := 0, s;
      forall k | 0 <= k < |l.Names()| ensures 0 <= SlotPos(l, s.fp, k) < |s.stack| {
        SlotInStack(l, s, k);
      }
    } else {
      var k0, s1 := DoFirstBox(s, l, names);
      var m;
      m, t := DoBoxes(s1, l, names[1..]);
      n := 4 + m;
      Chain2(s, 4, s1, m);
      BoxedStep(l, names, s, k0, s1, t);
    }
  }

  lemma {:induction false} BoxedStep(l: Lambda, names: seq<Name>, s: State, k0: nat, s1: State, t: State)
    requires names != [] && Distinct(l.Names()) && Distinct(names) && Roomy(l, s)
    requires k0 < |l.Names()| && l.Names()[k0] == names[0]
    requires 0 <= SlotPos(l, s.fp, k0) < |s.stack|
    requires s1.stack == s.stack[SlotPos(l, s.fp, k0) := Pair(|s.heap|)]
    requires s1.heap == s.heap + [PairObj(Const(Sym(names[0])), s.stack[SlotPos(l, s.fp, k0)])]
    requires s1.fp == s.fp && s1.self == s.self
    requires BoxedFrom(l, names[1..], s1, t)
    ensures BoxedFrom(l, names, s, t)
  {
    hide BoxedSlot;
    hide SlotPos;
    hide Roomy;
    assert t.heap[..|s.heap|] == t.heap[..|s1.heap|][..|s.heap|] == s.heap;
    assert t.heap[|s.heap|] == t.heap[..|s1.heap|][|s.heap|];
    forall k | 0 <= k < |l.Names()|
      ensures BoxedSlot(names, l.Names()[k], SlotPos(l, s.fp, k), s, t)
    {
      SlotInStack(l, s, k);
      if k != k0 {
        SlotsApart(l, s.fp, k0, k);
      }
      BoxedSlotStep(names, l.Names()[k], SlotPos(l, s.fp, k), SlotPos(l, s.fp, k0), s, s1, t);
    }
    SlotInStack(l, s, k0);
  }

  lemma {:induction false} BoxedSlotStep(names: seq<Name>, n: Name, p: int, p0: int, s: State, s1: State, t: State)
    requires names != [] && Distinct(names) && 0 <= p0 < |s.stack| == |t.stack| && |t.heap| == |s.heap| + |names|
    requires s1.stack == s.stack[p0 := Pair(|s.heap|)] && |s1.heap| == |s.heap| + 1
    requires t.heap[|s.heap|] == PairObj(Const(Sym(names[0])), s.stack[p0])
    requires n == names[0] <==> p == p0
    requires BoxedSlot(names[1..], n, p, s1, t)
    ensures BoxedSlot(names, n, p, s, t)
  {
    assert names[0] !in names[1..];
    assert n in names <==> n == names[0] || n in names[1..];
  }

  // ------------------------------------------------------------ environments

  lemma {:induction false} ExtendOther(env: Env, names: seq<Name>, id: nat, base: nat, x: Var)
    requires x.lam != id || x.name !in names
    ensures x in Extend(env, names, id, base) <==> x in env
    ensures x in env ==> Extend(env, names, id, base)[x] == env[x]
    decreases names
  {
    if names != [] {
      ExtendOther(env[Var(names[0], id) := base], names[1..], id, base + 1, x);
    }
  }

  lemma {:induction false} ExtendAt(env: Env, names: seq<Name>, id: nat, base: nat, k: nat)
    requires Distinct(names) && k < |names|
    ensures Var(names[k], id) in Extend(env, names, id, base)
    ensures Extend(env, names, id, base)[Var(names[k], id)] == base + k
    decreases names
  {
    var env1 := env[Var(names[0], id) := base];
    if k == 0 {
      ExtendOther(env1, names[1..], id, base + 1, Var(names[0], id));
    } else {
      ExtendAt(env1, names[1..], id, base + 1, k - 1);
    }
  }

  /** How the locations of a new activation are held: boxes in the order of sv, other slots as they are. */
  function NewLocs(l: Lambda, s: State): (r: Rep)
    requires Roomy(l, s)
    ensures |r| == |l.Names()|
  {
    seq(|l.Names()|, k requires 0 <= k < |l.Names()| =>
      if l.Names()[k] in l.sv then Boxed(|s.heap| + IndexOf(l.sv, l.Names()[k]))
      else
        SlotInStack(l, s, k);
        Direct(s.stack[SlotPos(l, s.fp, k)]))
  }

  /** Boxing turns related slots into a related frame and store of the new activation. */
  lemma ActivationRel(rep: Rep, sv: set<Var>, st: Store, l: Lambda, env: Env, vals: seq<Val>, s: State, t: State)
    returns (rep1: Rep)
    requires WfLambda(l, sv) && Roomy(l, s) && s.self.Proc? && s.stack[s.fp] == Fix(|l.Formals()|)
    requires BoxedFrom(l, l.sv, s, t)
    requires StoreRel(rep, s.heap, sv, st) && |vals| == |l.Names()|
    requires forall k :: 0 <= k < |vals| ==>
               0 <= SlotPos(l, s.fp, k) < |s.stack| && ValRel(rep, s.heap, sv, vals[k], s.stack[SlotPos(l, s.fp, k)])
    requires VectorRel(rep, s.heap, sv, env, l.fv, s.self.vars)
    ensures Grows(rep, s.heap, rep1, t.heap)
    ensures StoreRel(rep1, t.heap, sv, st + vals)
    ensures FrameRel(l, sv, Extend(env, l.Names(), l.id, |st|), rep1, t)
  {
    rep1 := rep + NewLocs(l, s);
    var env1 := Extend(env, l.Names(), l.id, |st|);
    assert forall a :: 0 <= a < |s.heap| ==> t.heap[a] == t.heap[..|s.heap|][a];
    assert Grows(rep, s.heap, rep1, t.heap);
    NewStoreRel(rep, sv, st, l, vals, s, t, rep1);
    NewFrameSlots(rep, sv, st, l, env, s, t, rep1);
    GrowsVector(rep, s.heap, rep1, t.heap, sv, env, l.fv, s.self.vars);
    if l.fv != [] {
      forall k | 0 <= k < |l.fv| ensures SlotRel(rep1, sv, env1, l.fv[k], t.heap[s.self.vars.addr].elems[k]) {
        assert l.fv[k] in l.fv;
        assert SlotRel(rep1, sv, env, l.fv[k], t.heap[s.self.vars.addr].elems[k]);
        ExtendOther(env, l.Names(), l.id, |st|, l.fv[k]);
      }
    }
    assert t.stack[s.fp] == s.stack[s.fp];
  }

  lemma {:induction false} NewStoreRel(rep: Rep, sv: set<Var>, st: Store, l: Lambda, vals: seq<Val>, s: State, t: State, rep1: Rep)
    requires WfLambda(l, sv) && Roomy(l, s) && BoxedFrom(l, l.sv, s, t)
    requires rep1 == rep + NewLocs(l, s) && Grows(rep, s.heap, rep1, t.heap)
    requires StoreRel(rep, s.heap, sv, st) && |vals| == |l.Names()|
    requires forall k :: 0 <= k < |vals| ==>
               0 <= SlotPos(l, s.fp, k) < |s.stack| && ValRel(rep, s.heap, sv, vals[k], s.stack[SlotPos(l, s.fp, k)])
    ensures StoreRel(rep1, t.heap, sv, st + vals)
  {
    var st1 := st + vals;
    forall i | 0 <= i < |rep1| ensures LocRel(rep1, t.heap, sv, st1[i], rep1[i]) {
      if i < |rep| {
        assert LocRel(rep, s.heap, sv, st[i], rep[i]);
        assert !rep[i].Direct? ==> t.heap[rep[i].addr] == t.heap[..|s.heap|][rep[i].addr];
        OldLocRel(rep, s.heap, rep1, t.heap, sv, st[i], rep[i]);
      } else {
        NewLocRel(rep, sv, l, vals, s, t, rep1, i - |rep|);
      }
    }
    NewBoxesApart(rep, l, s, rep1);
  }

  lemma NewLocRel(rep: Rep, sv: set<Var>, l: Lambda, vals: seq<Val>, s: State, t: State, rep1: Rep, k: nat)
    requires Roomy(l, s) && BoxedFrom(l, l.sv, s, t) && k < |l.Names()| == |vals|
    requires Grows(rep, s.heap, rep1, t.heap)
    requires ValRel(rep, s.heap, sv, vals[k], s.stack[SlotPos(l, s.fp, k)])
    ensures LocRel(rep1, t.heap, sv, vals[k], NewLocs(l, s)[k])
  {
    GrowsVal(rep, s.heap, rep1, t.heap, sv, vals[k], s.stack[SlotPos(l, s.fp, k)]);
  }

  lemma NewBoxesApart(rep: Rep, l: Lambda, s: State, rep1: Rep)
    requires Roomy(l, s) && Distinct(l.Names()) && rep1 == rep + NewLocs(l, s) && BoxesIn(rep, s.heap)
    requires FieldsApart(rep)
    ensures FieldsApart(rep1)
  {
    var more := NewLocs(l, s);
    forall i, j | 0 <= i < j < |more|
      ensures !SameField(more[i], more[j])
    {
      assert l.Names()[i] != l.Names()[j];
    }
    NewFieldsApart(rep, s.heap, more);
  }

  lemma NewFrameSlots(rep: Rep, sv: set<Var>, st: Store, l: Lambda, env: Env, s: State, t: State, rep1: Rep)
    requires WfLambda(l, sv) && Roomy(l, s) && BoxedFrom(l, l.sv, s, t) && |rep| == |st|
    requires rep1 == rep + NewLocs(l, s)
    ensures forall k :: 0 <= k < |l.Names()| ==>
              0 <= SlotPos(l, t.fp, k) < |t.stack|
              && SlotRel(rep1, sv, Extend(env, l.Names(), l.id, |st|), Var(l.Names()[k], l.id), t.stack[SlotPos(l, t.fp, k)])
  {
    var env1 := Extend(env, l.Names(), l.id, |st|);
    forall k | 0 <= k < |l.Names()|
      ensures 0 <= SlotPos(l, t.fp, k) < |t.stack|
      ensures SlotRel(rep1, sv, env1, Var(l.Names()[k], l.id), t.stack[SlotPos(l, t.fp, k)])
    {
      SlotInStack(l, s, k);
      ExtendAt(env, l.Names(), l.id, |st|, k);
      assert rep1[|st| + k] == NewLocs(l, s)[k];
      assert l.Names()[k] in l.Names();
    }
  }
}
