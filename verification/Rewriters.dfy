/** Rewriting of expression graphs through a table, one node at a time. */
module Rewriters {
  import opened Expressions
  import opened Prefixes

  datatype Pass = RebuildOnly | ConditionalStore | StoreLoad

  /** The rewriter has no case for these two operators. */
  predicate Handled(e: Expr) {
    && (e.op.Other? ==> e.op.code != "SREM" && e.op.code != "SMOD")
    && forall i :: 0 <= i < |e.args| ==> Handled(e.args[i])
  }

  function Height(e: Expr): nat
    decreases e, 0
  {
    1 + Heights(e.args)
  }

  function Heights(es: seq<Expr>): (h: nat)
    ensures forall i :: 0 <= i < |es| ==> Height(es[i]) <= h
    decreases es, 1
  {
    if es == [] then 0
    else
      assert forall i :: 0 < i < |es| ==> es[i] == es[1..][i - 1];
      var first, rest := Height(es[0]), Heights(es[1..]);
      if first < rest then rest else first
  }

  predicate IsStore(e: Expr) {
    e.op == Store && |e.args| == 3
  }

  lemma {:induction false} WriteBack(m: Memory, a: int)
    ensures Write(m, a, m[a]) == m
  {
    assert forall x :: x in m;
  }

  /** ITE(c, ST(m, a, d), m) and ST(m, a, ITE(c, d, LD(m, a))) */
  lemma {:induction false} GuardedStore(e: Expr, r: Expr)
    requires WellSorted(e) && e.op == Ite && IsStore(e.args[1]) && e.args[1].args[0] == e.args[2]
    requires r.op == Store && |r.args| == 3 && r.args[0] == e.args[2] && r.args[1] == e.args[1].args[1]
    requires r.args[2].op == Ite && |r.args[2].args| == 3
    requires r.args[2].args[0] == e.args[0] && r.args[2].args[1] == e.args[1].args[2]
    requires r.args[2].args[2].op == Load && r.args[2].args[2].args == [e.args[2], e.args[1].args[1]]
    ensures Same(r, e)
  {
    assert WellSorted(e.args[1]);
    var load := r.args[2].args[2];
    assert WellSorted(load) && WellSorted(r.args[2]) && WellSorted(r);
    forall s: State, f: Ops ensures Eval(r, s, f) == Eval(e, s, f) {
      EvalIte(e, s, f);
      EvalStore(e.args[1], s, f);
      EvalStore(r, s, f);
      EvalIte(r.args[2], s, f);
      EvalLoad(load, s, f);
      EvalHasSort(e.args[2], s, f);
      WriteBack(Eval(e.args[2], s, f).AsMem(), Eval(r.args[1], s, f).AsWord());
    }
  }

  /** ITE(c, m, ST(m, a, d)) and ST(m, a, ITE(c, LD(m, a), d)) */
  lemma {:induction false} GuardedStoreElse(e: Expr, r: Expr)
    requires WellSorted(e) && e.op == Ite && IsStore(e.args[2]) && e.args[2].args[0] == e.args[1]
    requires r.op == Store && |r.args| == 3 && r.args[0] == e.args[1] && r.args[1] == e.args[2].args[1]
    requires r.args[2].op == Ite && |r.args[2].args| == 3
    requires r.args[2].args[0] == e.args[0] && r.args[2].args[2] == e.args[2].args[2]
    requires r.args[2].args[1].op == Load && r.args[2].args[1].args == [e.args[1], e.args[2].args[1]]
    ensures Same(r, e)
  {
    assert WellSorted(e.args[2]);
    var load := r.args[2].args[1];
    assert WellSorted(load) && WellSorted(r.args[2]) && WellSorted(r);
    forall s: State, f: Ops ensures Eval(r, s, f) == Eval(e, s, f) {
      EvalIte(e, s, f);
      EvalStore(e.args[2], s, f);
      EvalStore(r, s, f);
      EvalIte(r.args[2], s, f);
      EvalLoad(load, s, f);
      EvalHasSort(e.args[1], s, f);
      WriteBack(Eval(e.args[1], s, f).AsMem(), Eval(r.args[1], s, f).AsWord());
    }
  }

  /** ITE(c, ST(m, a, b), ST(m, a', b')) and ST(m, ITE(c, a, a'), ITE(c, b, b')) */
  lemma {:induction false} TwoStores(e: Expr, r: Expr)
    requires WellSorted(e) && e.op == Ite && IsStore(e.args[1]) && IsStore(e.args[2])
    requires e.args[1].args[0] == e.args[2].args[0]
    requires r.op == Store && |r.args| == 3 && r.args[0] == e.args[1].args[0]
    requires r.args[1].op == Ite && r.args[1].args == [e.args[0], e.args[1].args[1], e.args[2].args[1]]
    requires r.args[2].op == Ite && r.args[2].args == [e.args[0], e.args[1].args[2], e.args[2].args[2]]
    ensures Same(r, e)
  {
    assert WellSorted(e.args[1]) && WellSorted(e.args[2]);
    assert WellSorted(r.args[1]) && WellSorted(r.args[2]) && WellSorted(r);
    forall s: State, f: Ops ensures Eval(r, s, f) == Eval(e, s, f) {
      EvalIte(e, s, f);
      EvalStore(e.args[1], s, f);
      EvalStore(e.args[2], s, f);
      EvalStore(r, s, f);
      EvalIte(r.args[1], s, f);
      EvalIte(r.args[2], s, f);
    }
  }

  /** LD(ST(m, a, d), b) and ITE(b == a, d, LD(m, b)) */
  lemma {:induction false} LoadOfStore(e: Expr, r: Expr)
    requires WellSorted(e) && e.op == Load && IsStore(e.args[0])
    requires r.op == Ite && |r.args| == 3
    requires r.args[0].op == Eq && r.args[0].args == [e.args[1], e.args[0].args[1]]
    requires r.args[1] == e.args[0].args[2]
    requires r.args[2].op == Load && r.args[2].args == [e.args[0].args[0], e.args[1]]
    ensures Same(r, e)
  {
    assert WellSorted(e.args[0]);
    assert WellSorted(r.args[0]) && WellSorted(r.args[2]) && WellSorted(r);
    forall s: State, f: Ops ensures Eval(r, s, f) == Eval(e, s, f) {
      EvalLoad(e, s, f);
      EvalStore(e.args[0], s, f);
      EvalIte(r, s, f);
      EvalLoad(r.args[2], s, f);
      EvalHasSort(e.args[1], s, f);
      EvalHasSort(e.args[0].args[1], s, f);
      EvalHasSort(r.args[1], s, f);
    }
  }

  lemma {:induction false} SameTrans(a: Expr, b: Expr, c: Expr)
    requires Same(a, b) && Same(b, c)
    ensures Same(a, c)
  {
  }

  /** The conditional over the given branches. */
  function Conditional(cond: Expr, yes: Expr, no: Expr): Expr {
    Expr(0, Ite, [cond, yes, no])
  }

  /** One branch stores into the other, a variable or constant; or both store into one memory. */
  predicate Mergeable(mem1: Expr, mem2: Expr) {
    || (IsStore(mem1) && !mem2.op.IsOp() && mem1.args[0] == mem2)
    || (IsStore(mem2) && !mem1.op.IsOp() && mem2.args[0] == mem1)
    || (IsStore(mem1) && IsStore(mem2) && mem1.args[0] == mem2.args[0])
  }

  ghost predicate IsNode(e: Expr, op: Op, args: seq<Expr>) {
    e.op == op && e.args == args
  }

  /** ST(m, a, ITE(c, d, LD(m, a))) for a store ST(m, a, d) in the first branch. */
  ghost predicate StoreIf(r: Expr, cond: Expr, store: Expr, mem: Expr) {
    && IsStore(store) && IsStore(r) && r.args[0] == mem && r.args[1] == store.args[1]
    && r.args[2].op == Ite && |r.args[2].args| == 3 && r.args[2].args[0] == cond && r.args[2].args[1] == store.args[2]
    && IsNode(r.args[2].args[2], Load, [mem, store.args[1]])
  }

  /** ST(m, a, ITE(c, LD(m, a), d)) for a store ST(m, a, d) in the second branch. */
  ghost predicate StoreUnless(r: Expr, cond: Expr, mem: Expr, store: Expr) {
    && IsStore(store) && IsStore(r) && r.args[0] == mem && r.args[1] == store.args[1]
    && r.args[2].op == Ite && |r.args[2].args| == 3 && r.args[2].args[0] == cond && r.args[2].args[2] == store.args[2]
    && IsNode(r.args[2].args[1], Load, [mem, store.args[1]])
  }

  /** ST(m, ITE(c, a, b), ITE(c, d, e)) for stores ST(m, a, d) and ST(m, b, e). */
  ghost predicate StoreEither(r: Expr, cond: Expr, yes: Expr, no: Expr) {
    && IsStore(yes) && IsStore(no) && IsStore(r) && r.args[0] == yes.args[0]
    && IsNode(r.args[1], Ite, [cond, yes.args[1], no.args[1]])
    && IsNode(r.args[2], Ite, [cond, yes.args[2], no.args[2]])
  }

  /** What a conditional over two branches that can be merged becomes. */
  ghost predicate MergedInto(r: Expr, cond: Expr, mem1: Expr, mem2: Expr) {
    if mem1 == mem2 then r == mem1
    else if IsStore(mem1) && !mem2.op.IsOp() && mem1.args[0] == mem2 then StoreIf(r, cond, mem1, mem2)
    else if !mem1.op.IsOp() && IsStore(mem2) && mem2.args[0] == mem1 then StoreUnless(r, cond, mem1, mem2)
    else StoreEither(r, cond, mem1, mem2)
  }

  /** A store over a variable or constant. */
  predicate SingleStore(mem: Expr) {
    IsStore(mem) && !mem.args[0].op.IsOp()
  }

  /** ITE(b == a, d, LD(m, b)) for a load of b from ST(m, a, d). */
  ghost predicate Forwarded(r: Expr, store: Expr, addr: Expr) {
    && IsStore(store) && r.op == Ite && |r.args| == 3
    && IsNode(r.args[0], Eq, [addr, store.args[1]]) && r.args[1] == store.args[2] && IsNode(r.args[2], Load, [store.args[0], addr])
  }

  /** The node over the replacements of its arguments. */
  ghost predicate RebuiltOver(r: Expr, e: Expr, rule: map<Expr, Expr>) {
    && r.op == e.op && |r.args| == |e.args|
    && forall i :: 0 <= i < |e.args| ==> e.args[i] in rule && r.args[i] == rule[e.args[i]]
  }

  ghost predicate ArgsIn(e: Expr, rule: map<Expr, Expr>) {
    forall i :: 0 <= i < |e.args| ==> e.args[i] in rule
  }

  /** A conditional is merged if its branches can be, and rebuilt if not. */
  ghost predicate CondEntry(r: Expr, e: Expr, rule: map<Expr, Expr>)
    requires |e.args| == 3 && ArgsIn(e, rule)
  {
    var mem1, mem2 := rule[e.args[1]], rule[e.args[2]];
    if mem1 == mem2 || Mergeable(mem1, mem2) then MergedInto(r, rule[e.args[0]], mem1, mem2) else RebuiltOver(r, e, rule)
  }

  /** What each pass makes of a node, given what it made of the arguments. */
  ghost predicate Entry(pass: Pass, r: Expr, e: Expr, rule: map<Expr, Expr>) {
    && ArgsIn(e, rule)
    && if !e.op.IsOp() then r == e
       else if pass == ConditionalStore && e.op == Ite && |e.args| == 3 && SortOf(e).MemSort? then CondEntry(r, e, rule)
       else if pass == StoreLoad && e.op == Load && |e.args| == 2 then
         var mem := rule[e.args[0]];
         if !mem.op.IsOp() then r == e
         else if SingleStore(mem) then Forwarded(r, mem, rule[e.args[1]])
         else RebuiltOver(r, e, rule)
       else RebuiltOver(r, e, rule)
  }

  lemma {:induction false} EntryStays(pass: Pass, r: Expr, e: Expr, rule: map<Expr, Expr>, more: map<Expr, Expr>)
    requires Entry(pass, r, e, rule) && forall k :: k in rule ==> k in more && more[k] == rule[k]
    ensures Entry(pass, r, e, more)
  {
  }

  /** An expression that may stand in place of another, and be rewritten again. */
  ghost predicate Replaces(r: Expr, e: Expr) {
    Same(r, e) && Handled(r)
  }

  /** `r` is `e` with the entries of a table put in place. */
  ghost predicate Substituted(r: Expr, e: Expr, start: map<Expr, Expr>) {
    if e in start then r == start[e]
    else if !e.op.IsOp() then r == e
    else r.op == e.op && |r.args| == |e.args| && forall i :: 0 <= i < |e.args| ==> Substituted(r.args[i], e.args[i], start)
  }

  /** The rewriter: `rule` maps each visited node to its replacement, `next` numbers new nodes. */
  class Rewriter {
    const pass: Pass
    var rule: map<Expr, Expr>
    var next: nat
    ghost const start: map<Expr, Expr>  // the table before anything was visited

    constructor (pass: Pass, next: nat, rule: map<Expr, Expr>)
      requires forall e :: e in rule ==> WellSorted(e) && Replaces(rule[e], e)
      ensures this.pass == pass && this.rule == rule == start && this.next == next && Valid()
    {
      this.pass, this.rule, this.next, start := pass, rule, next, rule;
    }

    /** Every entry of the table preserves the value; without a rule of its own, the rewriter
        only substitutes the entries it started with. */
    ghost predicate Valid()
      reads this
    {
      && start.Keys <= rule.Keys
      && (forall e :: e in rule ==> WellSorted(e) && Replaces(rule[e], e))
      && (forall e :: e in rule && e !in start ==> Entry(pass, rule[e], e, rule))
      && (pass == RebuildOnly ==> forall e :: e in rule ==> Substituted(rule[e], e, start))
    }

    predicate ArgsDone(e: Expr)
      reads this
    {
      forall i :: 0 <= i < |e.args| ==> e.args[i] in rule
    }

    method New(op: Op, args: seq<Expr>) returns (e: Expr)
      modifies this`next
      ensures old(next) <= next
      ensures e.op == op && e.args == args
    {
      e := Expr(next, op, args);
      next := next + 1;
    }

    /** The same operator over the replacements of the arguments. */
    method Rebuild(e: Expr) returns (r: Expr)
      requires Valid() && WellSorted(e) && Handled(e) && ArgsDone(e)
      modifies this`next
      ensures old(next) <= next
      ensures RebuiltOver(r, e, rule) && Replaces(r, e)
    {
      var table := rule;
      var args := seq(|e.args|, i requires 0 <= i < |e.args| && e.args[i] in table => table[e.args[i]]);
      r := New(e.op, args);
      SameArgs(r, e);
    }

    /** ITE(c, ST(m, a, d), m) becomes ST(m, a, ITE(c, d, LD(m, a))). */
    method StoreOrNone(cond: Expr, mem1: Expr, mem2: Expr) returns (r: Expr)
      requires WellSorted(Conditional(cond, mem1, mem2)) && Handled(Conditional(cond, mem1, mem2))
      requires IsStore(mem1) && mem1.args[0] == mem2
      modifies this`next
      ensures old(next) <= next
      ensures Replaces(r, Conditional(cond, mem1, mem2)) && StoreIf(r, cond, mem1, mem2)
    {
      assert Handled(mem1) && Handled(mem2) && Handled(cond);
      var load := New(Load, [mem2, mem1.args[1]]);
      var data := New(Ite, [cond, mem1.args[2], load]);
      r := New(Store, [mem2, mem1.args[1], data]);
      GuardedStore(Conditional(cond, mem1, mem2), r);
    }

    /** ITE(c, m, ST(m, a, d)) becomes ST(m, a, ITE(c, LD(m, a), d)). */
    method NoneOrStore(cond: Expr, mem1: Expr, mem2: Expr) returns (r: Expr)
      requires WellSorted(Conditional(cond, mem1, mem2)) && Handled(Conditional(cond, mem1, mem2))
      requires IsStore(mem2) && mem2.args[0] == mem1
      modifies this`next
      ensures old(next) <= next
      ensures Replaces(r, Conditional(cond, mem1, mem2)) && StoreUnless(r, cond, mem1, mem2)
    {
      assert Handled(mem1) && Handled(mem2) && Handled(cond);
      var load := New(Load, [mem1, mem2.args[1]]);
      var data := New(Ite, [cond, load, mem2.args[2]]);
      r := New(Store, [mem1, mem2.args[1], data]);
      GuardedStoreElse(Conditional(cond, mem1, mem2), r);
    }

    /** ITE(c, ST(m, a, d), ST(m, b, e)) becomes ST(m, ITE(c, a, b), ITE(c, d, e)). */
    method StoreOrStore(cond: Expr, mem1: Expr, mem2: Expr) returns (r: Expr)
      requires WellSorted(Conditional(cond, mem1, mem2)) && Handled(Conditional(cond, mem1, mem2))
      requires IsStore(mem1) && IsStore(mem2) && mem1.args[0] == mem2.args[0]
      modifies this`next
      ensures old(next) <= next
      ensures Replaces(r, Conditional(cond, mem1, mem2)) && StoreEither(r, cond, mem1, mem2)
    {
      assert Handled(mem1) && Handled(mem2) && Handled(cond);
      var addr := New(Ite, [cond, mem1.args[1], mem2.args[1]]);
      var data := New(Ite, [cond, mem1.args[2], mem2.args[2]]);
      r := New(Store, [mem1.args[0], addr, data]);
      TwoStores(Conditional(cond, mem1, mem2), r);
    }

    method MergeStores(cond: Expr, mem1: Expr, mem2: Expr) returns (r: Expr)
      requires WellSorted(Conditional(cond, mem1, mem2)) && Handled(Conditional(cond, mem1, mem2)) && mem1 != mem2 && Mergeable(mem1, mem2)
      modifies this`next
      ensures old(next) <= next
      ensures Replaces(r, Conditional(cond, mem1, mem2)) && MergedInto(r, cond, mem1, mem2)
    {
      if IsStore(mem1) && !mem2.op.IsOp() && mem1.args[0] == mem2 {
        r := StoreOrNone(cond, mem1, mem2);
      } else if !mem1.op.IsOp() && IsStore(mem2) && mem2.args[0] == mem1 {
        r := NoneOrStore(cond, mem1, mem2);
      } else {
        r := StoreOrStore(cond, mem1, mem2);
      }
    }

    method MergeBranches(e: Expr, cond: Expr, mem1: Expr, mem2: Expr) returns (r: Expr)
      requires WellSorted(e) && e.op == Ite && Replaces(cond, e.args[0]) && Replaces(mem1, e.args[1]) && Replaces(mem2, e.args[2])
      requires mem1 == mem2 || Mergeable(mem1, mem2)
      modifies this`next
      ensures old(next) <= next
      ensures Replaces(r, e) && MergedInto(r, cond, mem1, mem2)
    {
      ConditionalReplaces(e, cond, mem1, mem2);
      if mem1 == mem2 {
        IdenticalBranches(Conditional(cond, mem1, mem2));
        r := mem1;
      } else {
        r := MergeStores(cond, mem1, mem2);
      }
      SameTrans(r, Conditional(cond, mem1, mem2), e);
    }

    method RewriteCondMem(e: Expr) returns (r: Expr)
      requires Valid() && WellSorted(e) && Handled(e) && ArgsDone(e) && e.op == Ite
      modifies this`next
      ensures old(next) <= next
      ensures Replaces(r, e) && CondEntry(r, e, rule)
    {
      var cond, mem1, mem2 := rule[e.args[0]], rule[e.args[1]], rule[e.args[2]];
      if mem1 == mem2 || Mergeable(mem1, mem2) {
        r := MergeBranches(e, cond, mem1, mem2);
      } else {
        r := Rebuild(e);
      }
    }

    /** LD(ST(m, a, d), b) becomes ITE(b == a, d, LD(m, b)). */
    method ForwardLoad(mem: Expr, addr: Expr) returns (r: Expr)
      requires WellSorted(Expr(0, Load, [mem, addr])) && Handled(mem) && Handled(addr) && SingleStore(mem)
      modifies this`next
      ensures old(next) <= next
      ensures Replaces(r, Expr(0, Load, [mem, addr])) && Forwarded(r, mem, addr)
    {
      var cond := New(Eq, [addr, mem.args[1]]);
      var load := New(Load, [mem.args[0], addr]);
      r := New(Ite, [cond, mem.args[2], load]);
      LoadOfStore(Expr(0, Load, [mem, addr]), r);
    }

    method RewriteLoad(e: Expr) returns (r: Expr)
      requires Valid() && WellSorted(e) && Handled(e) && ArgsDone(e) && e.op == Load
      modifies this`next
      ensures old(next) <= next
      ensures Replaces(r, e)
      ensures var mem := rule[e.args[0]];
        if !mem.op.IsOp() then r == e
        else if SingleStore(mem) then Forwarded(r, mem, rule[e.args[1]])
        else RebuiltOver(r, e, rule)
    {
      var mem := rule[e.args[0]];
      if !mem.op.IsOp() {
        return e;
      }
      if SingleStore(mem) {
        ghost var plain := Expr(0, Load, [mem, rule[e.args[1]]]);
        SameArgs(plain, e);
        r := ForwardLoad(mem, rule[e.args[1]]);
        SameTrans(r, plain, e);
        return;
      }
      r := Rebuild(e);
    }

    method Rewrite(e: Expr) returns (r: Expr)
      requires Valid() && WellSorted(e) && Handled(e) && ArgsDone(e)
      modifies this`next
      ensures old(next) <= next
      ensures Replaces(r, e) && Entry(pass, r, e, rule)
      ensures pass == RebuildOnly && e !in start ==> Substituted(r, e, start)
    {
      if !e.op.IsOp() {
        r := e;
      } else if pass == ConditionalStore && e.op == Ite && SortOf(e).MemSort? {
        r := RewriteCondMem(e);
      } else if pass == StoreLoad && e.op == Load {
        r := RewriteLoad(e);
      } else {
        r := Rebuild(e);
      }
    }

    /** Enter the replacement of a node that has none yet. */
    method Post(e: Expr)
      requires Valid() && WellSorted(e) && Handled(e) && ArgsDone(e) && e !in rule
      modifies this
      ensures old(next) <= next
      ensures Valid() && rule.Keys == old(rule).Keys + {e}
      ensures forall k :: k in old(rule) ==> rule[k] == old(rule[k])
    {
      var r := Rewrite(e);
      forall k | k in rule && k !in start ensures Entry(pass, rule[k], k, rule[e := r]) {
        EntryStays(pass, rule[k], k, rule, rule[e := r]);
      }
      EntryStays(pass, r, e, rule, rule[e := r]);
      rule := rule[e := r];
    }

    /** Visit a node after its arguments, each at most once. */
    method DepthFirstVisit(e: Expr)
      requires Valid() && WellSorted(e) && Handled(e)
      modifies this
      ensures old(next) <= next
      ensures Valid() && e in rule
      ensures forall k :: k in old(rule) ==> k in rule && rule[k] == old(rule[k])
      ensures forall k :: k in rule && k !in old(rule) ==> k == e || Height(k) < Height(e)
    {
      if e in rule {
        return;
      }
      for i := 0 to |e.args|
        invariant Valid() && e !in rule && old(next) <= next
        invariant FirstIn(e.args, i, rule.Keys)
        invariant forall k :: k in old(rule) ==> k in rule && rule[k] == old(rule[k])
        invariant forall k :: k in rule && k !in old(rule) ==> Height(k) < Height(e)
      {
        assert Height(e.args[i]) < Height(e);
        ghost var before := rule.Keys;
        DepthFirstVisit(e.args[i]);
        OneMoreIn(e.args, i, before, rule.Keys);
      }
      Post(e);
    }

    method Rewr(e: Expr) returns (r: Expr)
      requires Valid() && WellSorted(e) && Handled(e)
      modifies this
      ensures old(next) <= next
      ensures Valid() && Replaces(r, e)
      ensures e in rule && r == rule[e] && forall k :: k in old(rule) ==> k in rule && rule[k] == old(rule[k])
      ensures pass == RebuildOnly ==> Substituted(r, e, start)
    {
      DepthFirstVisit(e);
      r := rule[e];
    }
  }

  lemma {:induction false} ConditionalReplaces(e: Expr, cond: Expr, yes: Expr, no: Expr)
    requires WellSorted(e) && e.op == Ite
    requires Same(cond, e.args[0]) && Same(yes, e.args[1]) && Same(no, e.args[2])
    ensures Same(Conditional(cond, yes, no), e)
  {
    SameArgs(Conditional(cond, yes, no), e);
  }

  /** ITE(c, m, m) and m */
  lemma {:induction false} IdenticalBranches(e: Expr)
    requires WellSorted(e) && e.op == Ite && e.args[1] == e.args[2]
    ensures Same(e.args[1], e)
  {
    forall s: State, f: Ops ensures Eval(e.args[1], s, f) == Eval(e, s, f) {
      EvalIte(e, s, f);
    }
  }

  // ----- what the passes leave behind -----

  ghost predicate StoreOver(e: Expr, mem: Expr) {
    e.op == Store && |e.args| == 3 && e.args[0] == mem
  }

  /** A conditional memory whose branches are one, or a variable or constant and a store over it, or
      two stores over one memory. */
  ghost predicate MergeableConditional(e: Expr) {
    e.op == Ite && |e.args| == 3 && SortOf(e).MemSort? &&
    var yes, no := e.args[1], e.args[2];
    || yes == no
    || (StoreOver(yes, no) && !no.op.IsOp()) || (StoreOver(no, yes) && !yes.op.IsOp())
    || (yes.args != [] && StoreOver(yes, yes.args[0]) && StoreOver(no, yes.args[0]))
  }

  /** There is none in the expression. */
  ghost predicate NoneMergeable(e: Expr) {
    !MergeableConditional(e) && forall i :: 0 <= i < |e.args| ==> NoneMergeable(e.args[i])
  }

  lemma {:induction false} LoadOfClear(r: Expr, mem: Expr, addr: Expr)
    requires IsNode(r, Load, [mem, addr]) && NoneMergeable(mem) && NoneMergeable(addr)
    ensures NoneMergeable(r)
  {
  }

  lemma {:induction false} ConditionalOfClear(r: Expr, cond: Expr, yes: Expr, no: Expr)
    requires IsNode(r, Ite, [cond, yes, no]) && !SortOf(yes).MemSort?
    requires NoneMergeable(cond) && NoneMergeable(yes) && NoneMergeable(no)
    ensures NoneMergeable(r)
  {
    assert SortOf(r) == SortOf(yes);
  }

  lemma {:induction false} StoreOfClear(r: Expr)
    requires IsStore(r) && NoneMergeable(r.args[0]) && NoneMergeable(r.args[1]) && NoneMergeable(r.args[2])
    ensures NoneMergeable(r)
  {
  }

  lemma {:induction false} MergedIsClear(r: Expr, cond: Expr, mem1: Expr, mem2: Expr)
    requires MergedInto(r, cond, mem1, mem2) && (mem1 == mem2 || Mergeable(mem1, mem2))
    requires NoneMergeable(cond) && NoneMergeable(mem1) && NoneMergeable(mem2)
    requires WellSorted(mem1) && WellSorted(mem2) && SortOf(mem1).MemSort? && SortOf(mem2).MemSort?
    ensures NoneMergeable(r)
  {
    if mem1 != mem2 {
      if IsStore(mem1) && !mem2.op.IsOp() && mem1.args[0] == mem2 {
        var data := r.args[2];
        LoadOfClear(data.args[2], mem2, mem1.args[1]);
        ConditionalOfClear(data, cond, mem1.args[2], data.args[2]);
      } else if !mem1.op.IsOp() && IsStore(mem2) && mem2.args[0] == mem1 {
        var data := r.args[2];
        LoadOfClear(data.args[1], mem1, mem2.args[1]);
        assert SortOf(data.args[1]) == WordSort(SortOf(mem1).dataWidth);
        ConditionalOfClear(data, cond, data.args[1], mem2.args[2]);
      } else {
        ConditionalOfClear(r.args[1], cond, mem1.args[1], mem2.args[1]);
        ConditionalOfClear(r.args[2], cond, mem1.args[2], mem2.args[2]);
      }
      StoreOfClear(r);
    }
  }

  lemma {:induction false} RebuiltIsClear(r: Expr, e: Expr, rule: map<Expr, Expr>)
    requires RebuiltOver(r, e, rule) && !MergeableConditional(r)
    requires forall i :: 0 <= i < |e.args| ==> NoneMergeable(rule[e.args[i]])
    ensures NoneMergeable(r)
  {
  }

  ghost predicate TableOf(pass: Pass, rule: map<Expr, Expr>) {
    forall e :: e in rule ==> WellSorted(e) && Replaces(rule[e], e) && Entry(pass, rule[e], e, rule)
  }

  /** After the pass for conditional stores no mergeable conditional is left. */
  lemma {:induction false} NoneMergeableLeft(rule: map<Expr, Expr>, e: Expr)
    requires TableOf(ConditionalStore, rule) && e in rule
    ensures NoneMergeable(rule[e])
  {
    forall i | 0 <= i < |e.args| ensures NoneMergeable(rule[e.args[i]]) {
      NoneMergeableLeft(rule, e.args[i]);
    }
    var r := rule[e];
    assert Entry(ConditionalStore, r, e, rule) && WellSorted(e);
    if e.op.IsOp() {
      if e.op == Ite && SortOf(e).MemSort? {
        var mem1, mem2 := rule[e.args[1]], rule[e.args[2]];
        assert Replaces(mem1, e.args[1]) && Replaces(mem2, e.args[2]);
        if mem1 == mem2 || Mergeable(mem1, mem2) {
          MergedIsClear(r, rule[e.args[0]], mem1, mem2);
        } else {
          RebuiltIsClear(r, e, rule);
        }
      } else {
        assert SortOf(r) == SortOf(e);
        RebuiltIsClear(r, e, rule);
      }
    }
  }

  /** A load from a single store. */
  ghost predicate LoadOfStored(e: Expr) {
    e.op == Load && |e.args| == 2 && e.args[0].args != [] && StoreOver(e.args[0], e.args[0].args[0]) && !e.args[0].args[0].op.IsOp()
  }

  /** There is none in the expression but below a load from a variable or constant. */
  ghost predicate NoneForwardable(e: Expr) {
    || (e.op == Load && |e.args| == 2 && !e.args[0].op.IsOp())
    || (!LoadOfStored(e) && forall i :: 0 <= i < |e.args| ==> NoneForwardable(e.args[i]))
  }

  lemma {:induction false} ForwardedIsClear(r: Expr, store: Expr, addr: Expr)
    requires Forwarded(r, store, addr) && SingleStore(store) && NoneForwardable(store) && NoneForwardable(addr)
    ensures NoneForwardable(r)
  {
    assert NoneForwardable(store.args[1]) && NoneForwardable(store.args[2]);
    assert NoneForwardable(r.args[0]) && NoneForwardable(r.args[2]);
  }

  lemma {:induction false} OperatorsStay(rule: map<Expr, Expr>, e: Expr)
    requires TableOf(StoreLoad, rule) && e in rule && e.op.IsOp()
    ensures rule[e].op.IsOp() || e.op == Load
  {
    assert Entry(StoreLoad, rule[e], e, rule);
  }

  /** After the pass for loads from stores, with its own rule in force, no load from a single store is
      left but in the address of a load from a variable or constant, which is kept as it is. */
  lemma {:induction false} NoneForwardableLeft(rule: map<Expr, Expr>, e: Expr)
    requires TableOf(StoreLoad, rule) && e in rule
    ensures NoneForwardable(rule[e])
  {
    forall i | 0 <= i < |e.args| ensures NoneForwardable(rule[e.args[i]]) {
      NoneForwardableLeft(rule, e.args[i]);
    }
    var r := rule[e];
    assert Entry(StoreLoad, r, e, rule) && WellSorted(e);
    if e.op == Load {
      var mem := rule[e.args[0]];
      if !mem.op.IsOp() {
        if e.args[0].op.IsOp() {
          OperatorsStay(rule, e.args[0]);
        }
      } else if SingleStore(mem) {
        ForwardedIsClear(r, mem, rule[e.args[1]]);
      }
    }
  }
}
