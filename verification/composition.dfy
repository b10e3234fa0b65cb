/**
  Two simplifications in a row are one: what a rewritten expression is known
  to be, the original is known to be, and rewritings compose.
*/
module Composition {
  import opened Options
  import opened Scheme
  import opened FreeVariables
  import opened KnownValues
  import opened Relation
  import opened Rewriting

  // ------------------------------------------------------------- known anyway

  lemma {:induction false} KnownMore(e: Expr, s: Substs, more: Substs)
    requires Known(e, s).Some?
    ensures Known(e, more + s) == Known(e, s)
    decreases e, 0
  {
    match e
    case Lit(_) =>
    case Ref(_) =>
    case Cnd(t, p, f) =>
      KnownMore(t, s, more);
      KnownMore(Branch(Known(t, s).value, p, f), s, more);
    case Seq(es) =>
      IdleInitMore(es, s, more);
      KnownMore(es[|es| - 1], s, more);
    case Prim(op, args) =>
      forall i | 0 <= i < |args| ensures Known(args[i], more + s) == Known(args[i], s) { KnownMore(args[i], s, more); }
      assert Constants(args, more + s) == Constants(args, s);
  }

  lemma {:induction false} IdleMore(e: Expr, s: Substs, more: Substs)
    requires Idle(e, s)
    ensures Idle(e, more + s)
    decreases e, 1
  {
    match e
    case Cnd(t, p, f) =>
      KnownMore(t, s, more);
      IdleMore(Branch(Known(t, s).value, p, f), s, more);
    case Seq(es) =>
      IdleInitMore(es, s, more);
      IdleMore(es[|es| - 1], s, more);
    case Prim(_, _) => KnownMore(e, s, more);
    case _ =>
  }

  lemma {:induction false} IdleInitMore(es: seq<Expr>, s: Substs, more: Substs)
    requires IdleInit(es, s)
    ensures IdleInit(es, more + s)
    decreases es, 0
  {
    forall i | 0 <= i < |es| - 1 ensures Idle(es[i], more + s) { IdleMore(es[i], s, more); }
  }

  lemma {:induction false} HeadMore(e: Expr, s: Substs, more: Substs)
    requires Head(e, s).Some?
    ensures Head(e, more + s) == Head(e, s)
    decreases e
  {
    match e
    case Lam(_) =>
    case Cnd(t, p, f) =>
      KnownMore(t, s, more);
      HeadMore(Branch(Known(t, s).value, p, f), s, more);
    case Seq(es) =>
      IdleInitMore(es, s, more);
      HeadMore(es[|es| - 1], s, more);
    case _ =>
  }

  lemma {:induction false} KnownIdle(e: Expr, s: Substs)
    requires Known(e, s).Some?
    ensures Idle(e, s)
    decreases e
  {
    match e
    case Cnd(t, p, f) => KnownIdle(Branch(Known(t, s).value, p, f), s);
    case Seq(es) => KnownIdle(es[|es| - 1], s);
    case _ =>
  }

  // -------------------------------------------------- known after a rewriting

  lemma {:induction false} KnownThrough(e: Expr, e1: Expr, s: Substs, s1: Substs)
    requires Rewrites(e, e1, s) && Known(e1, s1).Some?
    ensures Known(e, s1 + s) == Known(e1, s1)
    decreases e, 0
  {
    if Replaced(e, e1, s) {
      KnownMore(e, s, s1);
      return;
    }
    match e
    case Ref(_) =>
    case Cnd(t, p, f) =>
      if CndKept(t, p, f, e1, s) {
        KnownThrough(t, e1.test, s, s1);
        var c := Known(e1.test, s1).value;
        KnownThrough(Branch(c, p, f), Branch(c, e1.pass, e1.fail), s, s1);
      } else {
        KnownMore(t, s, s1);
        KnownThrough(Branch(Known(t, s).value, p, f), e1, s, s1);
      }
    case Seq(es) =>
      var last1 := SeqThrough(es, e1, s, s1);
      KnownThrough(es[|es| - 1], last1, s, s1);
    case Prim(op, args) =>
      forall i | 0 <= i < |args| ensures Known(args[i], s1 + s) == Known(e1.args[i], s1) {
        KnownThrough(args[i], e1.args[i], s, s1);
      }
      assert Constants(args, s1 + s) == Constants(e1.args, s1);
    case _ =>
  }

  lemma {:induction false} IdleThrough(e: Expr, e1: Expr, s: Substs, s1: Substs)
    requires Rewrites(e, e1, s) && Idle(e1, s1)
    ensures Idle(e, s1 + s)
    decreases e, 1
  {
    if Replaced(e, e1, s) {
      KnownMore(e, s, s1);
      KnownIdle(e, s1 + s);
      return;
    }
    match e
    case Cnd(t, p, f) =>
      if CndKept(t, p, f, e1, s) {
        KnownThrough(t, e1.test, s, s1);
        var c := Known(e1.test, s1).value;
        IdleThrough(Branch(c, p, f), Branch(c, e1.pass, e1.fail), s, s1);
      } else {
        KnownMore(t, s, s1);
        IdleThrough(Branch(Known(t, s).value, p, f), e1, s, s1);
      }
    case Seq(es) =>
      var last1 := SeqThrough(es, e1, s, s1);
      IdleThrough(es[|es| - 1], last1, s, s1);
    case Prim(_, _) =>
      KnownThrough(e, e1, s, s1);
    case _ =>
  }

  /** An idle sequence comes from an idle sequence, and its last element from the last element. */
  lemma {:induction false} SeqThrough(es: seq<Expr>, e1: Expr, s: Substs, s1: Substs) returns (last1: Expr)
    requires Rewrites(Seq(es), e1, s) && !Replaced(Seq(es), e1, s)
    requires e1.Seq? ==> e1.es != [] && IdleInit(e1.es, s1)
    ensures es != [] && IdleInit(es, s1 + s) && Rewrites(es[|es| - 1], last1, s)
    ensures last1 == e1 || (e1.Seq? && last1 == e1.es[|e1.es| - 1])
    decreases es, 2
  {
    if e1.Seq? && RewritesSeq(es, e1.es, s) {
      ListThrough(es, e1.es, s, s1);
      last1 := e1.es[|e1.es| - 1];
    } else {
      ListThrough(es, [e1], s, s1);
      last1 := e1;
    }
  }

  lemma {:induction false} ListThrough(es: seq<Expr>, es1: seq<Expr>, s: Substs, s1: Substs)
    requires RewritesSeq(es, es1, s) && es1 != [] && IdleInit(es1, s1)
    ensures es != [] && IdleInit(es, s1 + s) && Rewrites(es[|es| - 1], es1[|es1| - 1], s)
    decreases es, 1
  {
    hide Rewrites;
    hide Idle;
    if |es| > 1 {
      if Rewrites(es[0], es1[0], s) && RewritesSeq(es[1..], es1[1..], s) {
        SeqNonempty(es[1..], es1[1..], s);
        IdleThrough(es[0], es1[0], s, s1);
        ListThrough(es[1..], es1[1..], s, s1);
      } else {
        IdleMore(es[0], s, s1);
        ListThrough(es[1..], es1, s, s1);
      }
      forall i | 0 <= i < |es| - 1 ensures Idle(es[i], s1 + s) {
        if i > 0 {
          assert es[i] == es[1..][i - 1];
        }
      }
    }
  }

  lemma {:induction false} HeadThrough(e: Expr, e1: Expr, s: Substs, s1: Substs)
    requires Rewrites(e, e1, s) && Head(e1, s1).Some?
    ensures Head(e, s1 + s).Some? && RewritesLambda(Head(e, s1 + s).value, Head(e1, s1).value, s)
    decreases e
  {
    match e
    case Cnd(t, p, f) =>
      if CndKept(t, p, f, e1, s) {
        KnownThrough(t, e1.test, s, s1);
        var c := Known(e1.test, s1).value;
        HeadThrough(Branch(c, p, f), Branch(c, e1.pass, e1.fail), s, s1);
      } else {
        KnownMore(t, s, s1);
        HeadThrough(Branch(Known(t, s).value, p, f), e1, s, s1);
      }
    case Seq(es) =>
      var last1 := SeqThrough(es, e1, s, s1);
      HeadThrough(es[|es| - 1], last1, s, s1);
    case _ =>
  }

  // ----------------------------------------------------------- merging plans

  function Count(p: Plan): nat { if p == [] then 0 else (if p[0].None? then 1 else 0) + Count(p[1..]) }

  /** One plan for what `p` and then `q` move away. */
  function Merge(p: Plan, q: Plan): (r: Plan)
    requires |q| == Count(p)
    ensures |r| == |p|
    decreases |p|
  {
    if p == [] then []
    else if p[0].Some? then [p[0]] + Merge(p[1..], q)
    else [q[0]] + Merge(p[1..], q[1..])
  }

  lemma {:induction false} PickCount<T>(xs: seq<T>, p: Plan)
    requires |xs| == |p|
    ensures |Pick(xs, p)| == Count(p)
    decreases |p|
  {
    if p != [] {
      PickCount(xs[1..], p[1..]);
    }
  }

  lemma {:induction false} PickMerge<T>(xs: seq<T>, p: Plan, q: Plan)
    requires |xs| == |p| && |q| == Count(p)
    ensures |Pick(xs, p)| == |q| && Pick(Pick(xs, p), q) == Pick(xs, Merge(p, q))
    decreases |p|
  {
    PickCount(xs, p);
    if p != [] {
      if p[0].Some? {
        PickMerge(xs[1..], p[1..], q);
        assert Merge(p, q)[1..] == Merge(p[1..], q) && [] + Pick(xs[1..], p[1..]) == Pick(xs[1..], p[1..]);
      } else {
        PickMerge(xs[1..], p[1..], q[1..]);
        assert Merge(p, q)[1..] == Merge(p[1..], q[1..]) && Pick(xs, p)[1..] == Pick(xs[1..], p[1..]);
      }
    }
  }

  lemma {:induction false} PickedAmong<T>(xs: seq<T>, p: Plan)
    requires |xs| == |p|
    ensures forall x <- Pick(xs, p) :: x in xs
    decreases |p|
  {
    if p != [] {
      PickedAmong(xs[1..], p[1..]);
    }
  }

  lemma {:induction false} PickDistinct<T>(xs: seq<T>, p: Plan)
    requires |xs| == |p| && Distinct(xs)
    ensures Distinct(Pick(xs, p))
    decreases |p|
  {
    if p != [] {
      assert Distinct(xs[1..]);
      PickDistinct(xs[1..], p[1..]);
      PickedAmong(xs[1..], p[1..]);
      var rest := Pick(xs[1..], p[1..]);
      forall x <- rest ensures x != xs[0] {
        var i :| 0 <= i < |xs[1..]| && xs[1..][i] == x;
        assert xs[i + 1] == x;
      }
      assert forall i :: 0 <= i < |rest| ==> rest[i] in rest;
    }
  }

  lemma {:induction false} PickKeeps<T>(xs: seq<T>, p: Plan, i: nat)
    requires |xs| == |p| && i < |p| && p[i].None?
    ensures xs[i] in Pick(xs, p)
    decreases |p|
  {
    if i > 0 {
      PickKeeps(xs[1..], p[1..], i - 1);
    }
  }

  lemma {:induction false} MovedMerge(names: seq<Name>, p: Plan, q: Plan, id: nat)
    requires |names| == |p| && |q| == Count(p) && Distinct(names)
    ensures |Pick(names, p)| == |q|
    ensures Moved(names, Merge(p, q), id) == Moved(Pick(names, p), q, id) + Moved(names, p, id)
    decreases |p|
  {
    PickCount(names, p);
    if p != [] {
      var tail := names[1..];
      assert Distinct(tail);
      PickCount(tail, p[1..]);
      if p[0].Some? {
        MovedMerge(tail, p[1..], q, id);
        NotPicked(names, p, q, id);
        MovedBoth(names, p, q, id);
      } else {
        MovedMerge(tail, p[1..], q[1..], id);
        MovedSecond(names, p, q, id);
      }
    }
  }

  /** The first name is moved by the first plan. */
  lemma {:induction false} MovedBoth(names: seq<Name>, p: Plan, q: Plan, id: nat)
    requires |names| == |p| && |q| == Count(p) && p != [] && p[0].Some? && |Pick(names[1..], p[1..])| == |q|
    requires Moved(names[1..], Merge(p[1..], q), id) == Moved(Pick(names[1..], p[1..]), q, id) + Moved(names[1..], p[1..], id)
    requires Var(names[0], id) !in Moved(Pick(names[1..], p[1..]), q, id)
    ensures |Pick(names, p)| == |q|
    ensures Moved(names, Merge(p, q), id) == Moved(Pick(names, p), q, id) + Moved(names, p, id)
  {
    var tail := names[1..];
    assert Merge(p, q)[1..] == Merge(p[1..], q) && [] + Pick(tail, p[1..]) == Pick(tail, p[1..]);
    var one, m1, m2 := map[Var(names[0], id) := p[0].value], Moved(Pick(tail, p[1..]), q, id), Moved(tail, p[1..], id);
    assert one + (m1 + m2) == m1 + (one + m2);
  }

  /** The first name is moved by the second plan, or by none. */
  lemma {:induction false} MovedSecond(names: seq<Name>, p: Plan, q: Plan, id: nat)
    requires |names| == |p| && |q| == Count(p) && p != [] && p[0].None? && |Pick(names[1..], p[1..])| == |q[1..]|
    requires Moved(names[1..], Merge(p[1..], q[1..]), id) == Moved(Pick(names[1..], p[1..]), q[1..], id) + Moved(names[1..], p[1..], id)
    ensures |Pick(names, p)| == |q|
    ensures Moved(names, Merge(p, q), id) == Moved(Pick(names, p), q, id) + Moved(names, p, id)
  {
    var tail := names[1..];
    assert Merge(p, q)[1..] == Merge(p[1..], q[1..]) && Pick(names, p)[1..] == Pick(tail, p[1..]);
    var m1, m2 := Moved(Pick(tail, p[1..]), q[1..], id), Moved(tail, p[1..], id);
    if q[0].Some? {
      var one := map[Var(names[0], id) := q[0].value];
      assert one + (m1 + m2) == (one + m1) + m2;
    }
  }

  lemma NotPicked(names: seq<Name>, p: Plan, q: Plan, id: nat)
    requires |names| == |p| && names != [] && Distinct(names) && |q| == |Pick(names[1..], p[1..])|
    ensures Var(names[0], id) !in Moved(Pick(names[1..], p[1..]), q, id)
  {
    var x, picked := Var(names[0], id), Pick(names[1..], p[1..]);
    PickedAmong(names[1..], p[1..]);
    forall i | 0 <= i < |picked|
      ensures picked[i] != names[0]
    {
      assert picked[i] in picked;
      var j :| 0 <= j < |names[1..]| && names[1..][j] == picked[i];
      assert names[j + 1] == picked[i];
    }
    if x in Moved(picked, q, id) {
      var i := MovedAt(picked, q, id, x);
    }
  }

  /** What the merged plan moves, one of the two plans moves. */
  lemma {:induction false} MergeMoves<T>(xs: seq<T>, p: Plan, q: Plan, i: nat)
    requires |xs| == |p| && |q| == Count(p) == |Pick(xs, p)| && i < |p| && Merge(p, q)[i].Some?
    ensures p[i].Some? || exists j :: 0 <= j < |q| && q[j].Some? && Pick(xs, p)[j] == xs[i]
    decreases |p|
  {
    PickCount(xs[1..], p[1..]);
    if p[0].Some? {
      assert Merge(p, q)[1..] == Merge(p[1..], q) && [] + Pick(xs[1..], p[1..]) == Pick(xs[1..], p[1..]);
      if i > 0 {
        MergeMoves(xs[1..], p[1..], q, i - 1);
      }
    } else {
      assert Merge(p, q)[1..] == Merge(p[1..], q[1..]) && Pick(xs, p)[1..] == Pick(xs[1..], p[1..]);
      if i > 0 {
        MergeMoves(xs[1..], p[1..], q[1..], i - 1);
        if p[i].None? {
          var j :| 0 <= j < |q[1..]| && q[1..][j].Some? && Pick(xs[1..], p[1..])[j] == xs[1..][i - 1];
          assert q[j + 1].Some? && Pick(xs, p)[j + 1] == xs[i];
        }
      }
    }
  }

  // -------------------------------------------------------------- composition

  /** Rewritings compose; the constants of the first win. */
  lemma {:induction false} Compose(e: Expr, e1: Expr, e2: Expr, s: Substs, s1: Substs, scope: seq<Binder>, sv: set<Var>)
    requires Rewrites(e, e1, s) && Rewrites(e1, e2, s1) && Resolved(e, scope, sv) && Fit(s, scope, sv)
    ensures Rewrites(e, e2, s1 + s)
    decreases e, 4
  {
    hide Fit;
    if Replaced(e1, e2, s1) {
      KnownThrough(e, e1, s, s1);
      return;
    }
    match e
    case Ref(_) =>
    case Set(_, a) => Compose(a, e1.e, e2.e, s, s1, scope, sv);
    case Cnd(t, p, f) => ComposeCnd(t, p, f, e1, e2, s, s1, scope, sv);
    case Seq(es) => ComposeSeqExpr(es, e1, e2, s, s1, scope, sv);
    case Lam(l) =>
      LambdaFits(l, s, scope, sv);
      Compose(l.body, e1.l.body, e2.l.body, s, s1, scope + [Binder(l.id, l.Names())], sv);
    case App(f, args) => ComposeApp(f, args, e1, e2, s, s1, scope, sv);
    case Prim(_, args) => ComposeAll(args, e1.args, e2.args, s, s1, scope, sv);
    case _ =>
  }

  lemma LambdaFits(l: Lambda, s: Substs, scope: seq<Binder>, sv: set<Var>)
    requires Fit(s, scope, sv)
    ensures Fit(s, scope + [Binder(l.id, l.Names())], sv)
  {
    forall x <- s
      ensures x !in sv && exists b <- scope + [Binder(l.id, l.Names())] :: b.id == x.lam
    {
      var b :| b in scope && b.id == x.lam;
      assert b in scope + [Binder(l.id, l.Names())];
    }
  }

  lemma {:induction false} ComposeAll(es: seq<Expr>, es1: seq<Expr>, es2: seq<Expr>, s: Substs, s1: Substs,
                                      scope: seq<Binder>, sv: set<Var>)
    requires RewritesAll(es, es1, s) && RewritesAll(es1, es2, s1) && (forall e <- es :: Resolved(e, scope, sv)) && Fit(s, scope, sv)
    ensures RewritesAll(es, es2, s1 + s)
    decreases es, 0
  {
    hide Rewrites;
    hide Fit;
    forall i | 0 <= i < |es| ensures Rewrites(es[i], es2[i], s1 + s) { Compose(es[i], es1[i], es2[i], s, s1, scope, sv); }
  }

  lemma {:induction false} ComposeCnd(t: Expr, p: Expr, f: Expr, e1: Expr, e2: Expr, s: Substs, s1: Substs,
                                      scope: seq<Binder>, sv: set<Var>)
    requires Rewrites(Cnd(t, p, f), e1, s) && Rewrites(e1, e2, s1) && !Replaced(e1, e2, s1) && !Replaced(Cnd(t, p, f), e1, s)
    requires Resolved(Cnd(t, p, f), scope, sv) && Fit(s, scope, sv)
    ensures Rewrites(Cnd(t, p, f), e2, s1 + s)
    decreases Cnd(t, p, f), 3
  {
    hide Fit;
    if !CndKept(t, p, f, e1, s) {
      KnownMore(t, s, s1);
      Compose(Branch(Known(t, s).value, p, f), e1, e2, s, s1, scope, sv);
    } else if CndKept(e1.test, e1.pass, e1.fail, e2, s1) {
      Compose(t, e1.test, e2.test, s, s1, scope, sv);
      Compose(p, e1.pass, e2.pass, s, s1, scope, sv);
      Compose(f, e1.fail, e2.fail, s, s1, scope, sv);
    } else {
      KnownThrough(t, e1.test, s, s1);
      var c := Known(e1.test, s1).value;
      Compose(Branch(c, p, f), Branch(c, e1.pass, e1.fail), e2, s, s1, scope, sv);
    }
  }

  lemma {:induction false} ComposeSeqExpr(es: seq<Expr>, e1: Expr, e2: Expr, s: Substs, s1: Substs, scope: seq<Binder>, sv: set<Var>)
    requires Rewrites(Seq(es), e1, s) && Rewrites(e1, e2, s1) && !Replaced(e1, e2, s1) && !Replaced(Seq(es), e1, s)
    requires Resolved(Seq(es), scope, sv) && Fit(s, scope, sv)
    ensures Rewrites(Seq(es), e2, s1 + s)
    decreases Seq(es), 3
  {
    hide Fit;
    hide RewritesSeq;
    if e1.Seq? && RewritesSeq(es, e1.es, s) {
      if e2.Seq? && RewritesSeq(e1.es, e2.es, s1) {
        ComposeSeq(es, e1.es, e2.es, s, s1, scope, sv);
      } else {
        ComposeSeq(es, e1.es, [e2], s, s1, scope, sv);
      }
    } else {
      Single(e1, e2, s1);
      ComposeSeq(es, [e1], [e2], s, s1, scope, sv);
    }
  }

  lemma Single(e: Expr, e1: Expr, s: Substs)
    ensures RewritesSeq([e], [e1], s) <==> Rewrites(e, e1, s)
  {
    hide Rewrites;
  }

  lemma {:induction false} ComposeSeq(es: seq<Expr>, es1: seq<Expr>, es2: seq<Expr>, s: Substs, s1: Substs,
                                      scope: seq<Binder>, sv: set<Var>)
    requires RewritesSeq(es, es1, s) && RewritesSeq(es1, es2, s1)
    requires (forall e <- es :: Resolved(e, scope, sv)) && Fit(s, scope, sv)
    ensures RewritesSeq(es, es2, s1 + s)
    decreases es, 0
  {
    hide Rewrites;
    hide Fit;
    hide Idle;
    if |es| == 1 {
      Compose(es[0], es1[0], es2[0], s, s1, scope, sv);
    } else if |es| > 1 {
      if es1 != [] && Rewrites(es[0], es1[0], s) && RewritesSeq(es[1..], es1[1..], s) {
        SeqNonempty(es[1..], es1[1..], s);
        if es2 != [] && Rewrites(es1[0], es2[0], s1) && RewritesSeq(es1[1..], es2[1..], s1) {
          Compose(es[0], es1[0], es2[0], s, s1, scope, sv);
          ComposeSeq(es[1..], es1[1..], es2[1..], s, s1, scope, sv);
        } else {
          IdleThrough(es[0], es1[0], s, s1);
          ComposeSeq(es[1..], es1[1..], es2, s, s1, scope, sv);
        }
      } else {
        IdleMore(es[0], s, s1);
        ComposeSeq(es[1..], es1, es2, s, s1, scope, sv);
      }
    }
  }

  // ------------------------------------------------------------- applications

  lemma {:induction false} ComposeApp(f: Expr, args: seq<Expr>, e1: Expr, e2: Expr, s: Substs, s1: Substs,
                                      scope: seq<Binder>, sv: set<Var>)
    requires Rewrites(App(f, args), e1, s) && Rewrites(e1, e2, s1) && Resolved(App(f, args), scope, sv) && Fit(s, scope, sv)
    ensures Rewrites(App(f, args), e2, s1 + s)
    decreases App(f, args), 3
  {
    hide Fit;
    hide Rewrites;
    hide Shrinks;
    IsApp(f, args, e1, s);
    var f1, args1 := e1.f, e1.args;
    IsApp(f1, args1, e2, s1);
    if AppKept(f, args, e1, s) && AppKept(f1, args1, e2, s1) {
      Compose(f, f1, e2.f, s, s1, scope, sv);
      ComposeAll(args, args1, e2.args, s, s1, scope, sv);
      KeepApp(f, args, e2, s1 + s);
    } else {
      var p, q, l, l1 := BothShrink(f, args, e1, e2, s, s1);
      HeadInside(f, s1 + s, scope, sv);
      ComposeShrinks(l, l1, e2.f.l, p, q, s, s1, scope, sv);
      ComposeArgs(args, args1, e2.args, p, q, s, s1, scope, sv);
      ShrinkApp(f, args, e2, Merge(p, q), s1 + s);
    }
  }

  ghost predicate AppKept(f: Expr, args: seq<Expr>, e1: Expr, s: Substs)
    requires e1.App?
  {
    Rewrites(f, e1.f, s) && RewritesAll(args, e1.args, s)
  }

  lemma IsApp(f: Expr, args: seq<Expr>, e1: Expr, s: Substs)
    requires Rewrites(App(f, args), e1, s)
    ensures e1.App?
  {
  }

  lemma KeepApp(f: Expr, args: seq<Expr>, e1: Expr, s: Substs)
    requires e1.App? && AppKept(f, args, e1, s)
    ensures Rewrites(App(f, args), e1, s)
  {
  }

  ghost predicate AppShrinks(f: Expr, args: seq<Expr>, e1: Expr, plan: Plan, s: Substs)
    requires e1.App?
  {
    && Head(f, s).Some? && e1.f.Lam? && |plan| == |args|
    && Shrinks(Head(f, s).value, e1.f.l, plan, s) && RewritesArgs(args, plan, e1.args, s)
  }

  lemma ShrinkApp(f: Expr, args: seq<Expr>, e1: Expr, plan: Plan, s: Substs)
    requires e1.App? && AppShrinks(f, args, e1, plan, s)
    ensures Rewrites(App(f, args), e1, s)
  {
  }

  lemma ShrunkApp(f: Expr, args: seq<Expr>, e1: Expr, s: Substs) returns (plan: Plan)
    requires Rewrites(App(f, args), e1, s) && e1.App? && !AppKept(f, args, e1, s)
    ensures AppShrinks(f, args, e1, plan, s)
  {
    plan :| |plan| == |args| && Shrinks(Head(f, s).value, e1.f.l, plan, s) && RewritesArgs(args, plan, e1.args, s);
  }

  /** When constants are moved in either step, both steps rewrite the operator's lambda. */
  lemma BothShrink(f: Expr, args: seq<Expr>, e1: Expr, e2: Expr, s: Substs, s1: Substs)
    returns (p: Plan, q: Plan, l: Lambda, l1: Lambda)
    requires Rewrites(App(f, args), e1, s) && Rewrites(e1, e2, s1) && e1.App? && e2.App?
    requires !(AppKept(f, args, e1, s) && AppKept(e1.f, e1.args, e2, s1))
    ensures Head(f, s1 + s) == Some(l) && e2.f.Lam?
    ensures Shrinks(l, l1, p, s) && Shrinks(l1, e2.f.l, q, s1)
    ensures |p| == |args| && RewritesArgs(args, p, e1.args, s)
    ensures |q| == |e1.args| && RewritesArgs(e1.args, q, e2.args, s1)
  {
    hide Rewrites;
    hide Shrinks;
    hide RewritesArgs;
    hide RewritesAll;
    hide RewritesLambda;
    hide Head;
    if AppKept(f, args, e1, s) {
      q := ShrunkApp(e1.f, e1.args, e2, s1);
      l1 := Head(e1.f, s1).value;
      HeadThrough(f, e1.f, s, s1);
      l := Head(f, s1 + s).value;
      p := Nones(|args|);
      SameLength(args, e1.args, s);
      AllRewritesArgs(args, e1.args, s, p);
      SameParams(l, l1, s);
      ShrinksLength(l1, e2.f.l, q, s1);
      LambdaShrinks(l, l1, s);
    } else {
      p := ShrunkApp(f, args, e1, s);
      HeadMore(f, s, s1);
      l, l1 := Head(f, s).value, e1.f.l;
      if AppKept(e1.f, e1.args, e2, s1) {
        q := Nones(|e1.args|);
        AllRewritesArgs(e1.args, e2.args, s1, q);
        LambdaOnly(l1, e2.f, s1);
        ShrinksLength(l, l1, p, s);
        ArgsCount(args, p, e1.args, s);
        PickCount(l.params, p);
        ShrinksParams(l, l1, p, s);
        LambdaShrinks(l1, e2.f.l, s1);
      } else {
        q := ShrunkApp(e1.f, e1.args, e2, s1);
        HeadLambda(l1, s1);
      }
    }
  }

  lemma HeadLambda(l: Lambda, s: Substs)
    ensures Head(Lam(l), s) == Some(l)
  {
  }

  lemma SameLength(es: seq<Expr>, es1: seq<Expr>, s: Substs)
    requires RewritesAll(es, es1, s)
    ensures |es| == |es1|
  {
  }

  lemma SameParams(l: Lambda, l1: Lambda, s: Substs)
    requires RewritesLambda(l, l1, s)
    ensures l1.params == l.params
  {
    hide Rewrites;
  }

  lemma LambdaOnly(l: Lambda, e: Expr, s: Substs)
    requires Rewrites(Lam(l), e, s)
    ensures e.Lam? && RewritesLambda(l, e.l, s)
  {
  }

  lemma ShrinksLength(l: Lambda, l1: Lambda, p: Plan, s: Substs)
    requires Shrinks(l, l1, p, s)
    ensures |p| == |l.params|
  {
    hide Rewrites;
  }

  lemma ShrinksParams(l: Lambda, l1: Lambda, p: Plan, s: Substs)
    requires Shrinks(l, l1, p, s)
    ensures |p| == |l.params| && l1.params == Pick(l.params, p)
  {
    hide Rewrites;
  }

  lemma {:induction false} ArgsCount(args: seq<Expr>, p: Plan, args1: seq<Expr>, s: Substs)
    requires |p| == |args| && RewritesArgs(args, p, args1, s)
    ensures |args1| == Count(p)
    decreases |args|
  {
    hide Rewrites;
    hide Known;
    if args != [] {
      ArgsCount(args[1..], p[1..], if p[0].Some? then args1 else args1[1..], s);
    }
  }

  lemma {:induction false} ComposeArgs(args: seq<Expr>, args1: seq<Expr>, args2: seq<Expr>, p: Plan, q: Plan, s: Substs, s1: Substs,
                                       scope: seq<Binder>, sv: set<Var>)
    requires |p| == |args| && RewritesArgs(args, p, args1, s) && |q| == |args1| && RewritesArgs(args1, q, args2, s1)
    requires (forall e <- args :: Resolved(e, scope, sv)) && Fit(s, scope, sv)
    ensures |q| == Count(p) && RewritesArgs(args, Merge(p, q), args2, s1 + s)
    decreases args, 0
  {
    hide Rewrites;
    hide Known;
    hide Fit;
    ArgsCount(args, p, args1, s);
    if args != [] {
      if p[0].Some? {
        KnownMore(args[0], s, s1);
        ComposeArgs(args[1..], args1, args2, p[1..], q, s, s1, scope, sv);
        assert Merge(p, q)[1..] == Merge(p[1..], q);
      } else {
        if q[0].Some? {
          KnownThrough(args[0], args1[0], s, s1);
          ComposeArgs(args[1..], args1[1..], args2, p[1..], q[1..], s, s1, scope, sv);
        } else {
          Compose(args[0], args1[0], args2[0], s, s1, scope, sv);
          ComposeArgs(args[1..], args1[1..], args2[1..], p[1..], q[1..], s, s1, scope, sv);
        }
        assert Merge(p, q)[1..] == Merge(p[1..], q[1..]);
      }
    }
  }

  lemma {:induction false} ComposeShrinks(l: Lambda, l1: Lambda, l2: Lambda, p: Plan, q: Plan, s: Substs, s1: Substs,
                                          scope: seq<Binder>, sv: set<Var>)
    requires Shrinks(l, l1, p, s) && Shrinks(l1, l2, q, s1) && Resolved(Lam(l), scope, sv) && Fit(s, scope, sv)
    ensures |q| == Count(p) && Shrinks(l, l2, Merge(p, q), s1 + s)
    decreases Lam(l), 2
  {
    hide Rewrites;
    hide Fit;
    hide Moved;
    hide Pick;
    hide Merge;
    hide Count;
    PickCount(l.params, p);
    PickMerge(l.params, p, q);
    MovedApart(l, p, s, scope, sv);
    var c := Context(s, scope, sv, map[], map[]);
    BodyFits(l, p, c);
    var m, m1 := Moved(l.params, p, l.id), Moved(l1.params, q, l.id);
    Compose(l.body, l1.body, l2.body, s + m, s1 + m1, scope + [Binder(l.id, l.Names())], sv);
    ParamsDistinct(l, scope, sv);
    MovedMerge(l.params, p, q, l.id);
    MovedKeys(l1.params, q, l.id);
    PickedAmong(l.params, p);
    BoundMore(l1.params, l.params, l.id);
    PlusSwap(s1, m1, s, m);
    forall i | 0 <= i < |p| && Merge(p, q)[i].Some? ensures l.params[i] !in l.sv {
      MergeMoves(l.params, p, q, i);
    }
  }

  lemma BoundMore(names: seq<Name>, more: seq<Name>, id: nat)
    requires forall n <- names :: n in more
    ensures Bound(names, id) <= Bound(more, id)
  {
  }

  lemma ParamsDistinct(l: Lambda, scope: seq<Binder>, sv: set<Var>)
    requires Resolved(Lam(l), scope, sv)
    ensures Distinct(l.params)
  {
    hide Rewrites;
    assert forall i :: 0 <= i < |l.params| ==> l.Names()[i] == l.params[i];
  }

  lemma PlusSwap(s1: Substs, m1: Substs, s: Substs, m: Substs)
    requires m1.Keys !! s.Keys
    ensures (s1 + m1) + (s + m) == (s1 + s) + (m1 + m)
  {
  }

  lemma MovedApart(l: Lambda, p: Plan, s: Substs, scope: seq<Binder>, sv: set<Var>)
    requires Resolved(Lam(l), scope, sv) && Fit(s, scope, sv)
    ensures s.Keys !! Bound(l.params, l.id)
  {
  }
}
