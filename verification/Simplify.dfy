/** Replacing an update by an equivalent part of itself, under the condition it is used in. */
module Simplify {
  import opened Options
  import opened Expressions
  import opened Prefixes
  import opened Rewriters
  import opened Hierarchy
  import opened Passes

  ghost predicate SameUnder(assump: Expr, d: Expr, e: Expr) {
    forall s: State, f: Ops :: Eval(assump, s, f).IsTrue() ==> Eval(d, s, f) == Eval(e, s, f)
  }

  lemma {:induction false} WithinTrans(a: Expr, b: Expr, c: Expr)
    requires Within(a, b) && Within(b, c)
    ensures Within(a, c)
    decreases c
  {
    if b != c {
      var i :| 0 <= i < |c.args| && Within(b, c.args[i]);
      WithinTrans(a, b, c.args[i]);
    }
  }

  lemma {:induction false} WithinHeight(a: Expr, b: Expr)
    requires Within(a, b)
    ensures a == b || Height(a) < Height(b)
    decreases b
  {
    if a != b {
      var i :| 0 <= i < |b.args| && Within(a, b.args[i]);
      WithinHeight(a, b.args[i]);
    }
  }

  /** A search for a part of `target` that may take its place. */
  class EqSubtree {
    const target: Expr
    const equal: Expr -> bool
    var rule: map<Expr, Expr>
    var candidate: Option<Expr>

    constructor (target: Expr, equal: Expr -> bool)
      ensures this.target == target && this.equal == equal && rule == map[] && candidate == None
    {
      this.target, this.equal, rule, candidate := target, equal, map[], None;
    }

    predicate Fits(e: Expr) {
      e != target && SortOf(e) == SortOf(target) && equal(e)
    }

    /** Visited nodes have visited arguments; the candidate is one that fits, if any does. */
    ghost predicate Valid()
      reads this
    {
      && (forall e :: e in rule ==> Closed(e))
      && (candidate.Some? ==> candidate.value in rule && Fits(candidate.value))
      && (candidate.None? ==> forall e :: e in rule ==> !Fits(e))
    }

    ghost predicate Closed(e: Expr)
      reads this
    {
      forall i :: 0 <= i < |e.args| ==> e.args[i] in rule
    }

    /** Keep every node but the target, whose place the candidate takes. */
    method Rewrite(e: Expr) returns (r: Expr)
      modifies this
      ensures rule == old(rule)
      ensures candidate == if e != target && old(candidate).None? && Fits(e) then Some(e) else old(candidate)
      ensures r == if e == target && old(candidate).Some? then old(candidate).value else e
    {
      if e == target {
        return if candidate.Some? then candidate.value else e;
      }
      if candidate.None? && SortOf(e) == SortOf(target) {
        if equal(e) {
          candidate := Some(e);
        }
      }
      r := e;
    }

    method Post(e: Expr)
      requires Valid() && Closed(e) && e !in rule
      modifies this
      ensures Valid() && rule.Keys == old(rule).Keys + {e}
      ensures e == target ==> candidate == old(candidate) && rule[e] == if candidate.Some? then candidate.value else e
    {
      var r := Rewrite(e);
      rule := rule[e := r];
    }

    method DepthFirstVisit(e: Expr)
      requires Valid() && Within(e, target)
      requires e == target ==> e !in rule
      modifies this
      ensures Valid() && e in rule && old(rule).Keys <= rule.Keys
      ensures forall k :: k in rule && k !in old(rule) ==> Within(k, e)
      ensures e == target ==> rule[e] == if candidate.Some? then candidate.value else e
      decreases e
    {
      if e in rule {
        return;
      }
      for i := 0 to |e.args|
        invariant Valid() && e !in rule && old(rule).Keys <= rule.Keys
        invariant FirstIn(e.args, i, rule.Keys)
        invariant forall k :: k in rule && k !in old(rule) ==> Within(k, e) && k != e
      {
        ghost var before := rule.Keys;
        VisitArg(e, i);
        OneMoreIn(e.args, i, before, rule.Keys);
      }
      Post(e);
    }

    method VisitArg(e: Expr, i: nat)
      requires Valid() && Within(e, target) && i < |e.args| && e !in rule
      modifies this
      ensures Valid() && e.args[i] in rule && old(rule).Keys <= rule.Keys && e !in rule
      ensures forall k :: k in rule && k !in old(rule) ==> Within(k, e) && k != e
      decreases e, 0
    {
      var arg := e.args[i];
      assert Height(arg) < Height(e) && Within(arg, e);
      WithinTrans(arg, e, target);
      WithinHeight(e, target);
      DepthFirstVisit(arg);
      forall k | k in rule && k !in old(rule) ensures Within(k, e) && k != e {
        WithinHeight(k, arg);
      }
    }

    /** All parts of a visited node have been visited. */
    lemma {:induction false} PartsVisited(k: Expr, e: Expr)
      requires Valid() && e in rule && Within(k, e)
      ensures k in rule
      decreases e
    {
      if k != e {
        var i :| 0 <= i < |e.args| && Within(k, e.args[i]);
        assert Closed(e);
        PartsVisited(k, e.args[i]);
      }
    }
  }

  /** A proper part of the same sort that the check accepts, or the expression itself if it has
      no such part. */
  ghost predicate Reduced(r: Expr, e: Expr, equal: Expr -> bool) {
    && Within(r, e) && (r != e ==> equal(r) && SortOf(r) == SortOf(e))
    && (r == e <==> forall k :: Within(k, e) && k != e && SortOf(k) == SortOf(e) ==> !equal(k))
  }

  /** The update becomes a proper part of itself that the solver finds equal, if there is one. */
  method SimpEqSubtree(e: Expr, equal: Expr -> bool) returns (r: Expr)
    ensures Reduced(r, e, equal)
  {
    var func := new EqSubtree(e, equal);
    func.DepthFirstVisit(e);
    r := func.rule[e];
    forall k | Within(k, e) ensures k in func.rule {
      func.PartsVisited(k, e);
    }
  }

  /** Whether an expression equals a target under an assumption, as far as the solver can tell. */
  type Solver = (Expr, Expr, Expr) -> bool

  /** The solver may report equality only where it holds; it may also give up. */
  ghost predicate SoundSolver(solver: Solver) {
    forall assump, target, e :: solver(assump, target, e) ==> SameUnder(assump, e, target)
  }

  lemma {:induction false} WithinSorted(k: Expr, e: Expr)
    requires Within(k, e) && WellSorted(e)
    ensures WellSorted(k)
    decreases e
  {
    if k != e {
      var i :| 0 <= i < |e.args| && Within(k, e.args[i]);
      WithinSorted(k, e.args[i]);
    }
  }

  ghost predicate ReducedFor(r: Expr, e: Expr, assump: Expr, solver: Solver) {
    Reduced(r, e, x => solver(assump, e, x))
  }

  /** The condition under which an instruction fires, as the pass hands it to the solver. */
  function FiringOf(valid: Expr, decode: Expr): Expr {
    Expr(0, And, [valid, decode])
  }

  method SimplifyUpdate(e: Expr, valid: Expr, assump: Expr, solver: Solver, ghost was: Action) returns (r: Expr)
    requires WellSorted(e) && SoundSolver(solver)
    requires assump.op == And && assump.args == [valid, was.decode]
    ensures ReducedFor(r, e, assump, solver) && WellSorted(r) && SameFiring(Rule(Some(valid), was), r, e)
  {
    r := SimpEqSubtree(e, x => solver(assump, e, x));
    WithinSorted(r, e);
  }

  /** Simplify each update of an instruction; its decode stays. */
  method SimplifyInstr(instr: Instr, valid: Expr, solver: Solver)
    requires ReadyAction(false, instr.Now()) && SoundSolver(solver)
    modifies instr
    ensures ReadyAction(false, instr.Now()) && instr.decode == old(instr.decode)
    ensures KeptAction(Some(valid), instr.Now(), old(instr.Now()))
    ensures forall x :: x in old(instr.updates) ==> ReducedFor(instr.updates[x], old(instr.updates[x]), FiringOf(valid, old(instr.decode)), solver)
  {
    ghost var was := instr.Now();
    var assump := FiringOf(valid, instr.decode);
    var todo := instr.updates.Keys;
    while todo != {}
      invariant instr.decode == was.decode && Reducing(instr.updates, was, todo, valid, assump, solver)
    {
      var state :| state in todo;
      var e := instr.updates[state];
      assert Ready(false, was.updates[state]);
      var r := SimplifyUpdate(e, valid, assump, solver, was);
      ReducedMore(instr.updates, was, todo, valid, assump, solver, state, r);
      instr.updates := instr.updates[state := r];
      todo := todo - {state};
    }
  }

  /** The updates not in `todo` have been reduced. */
  ghost predicate Reducing(updates: map<string, Expr>, was: Action, todo: set<string>, valid: Expr, assump: Expr, solver: Solver) {
    && todo <= was.updates.Keys == updates.Keys && (forall x :: x in todo ==> updates[x] == was.updates[x])
    && forall x :: x in was.updates && x !in todo ==>
         SameFiring(Rule(Some(valid), was), updates[x], was.updates[x]) && ReducedFor(updates[x], was.updates[x], assump, solver)
  }

  lemma {:induction false} ReducedMore(updates: map<string, Expr>, was: Action, todo: set<string>, valid: Expr, assump: Expr, solver: Solver, state: string, r: Expr)
    requires Reducing(updates, was, todo, valid, assump, solver) && state in todo
    requires SameFiring(Rule(Some(valid), was), r, was.updates[state]) && ReducedFor(r, was.updates[state], assump, solver)
    ensures Reducing(updates[state := r], was, todo - {state}, valid, assump, solver)
  {
  }

  /** The decode stays and every update is reduced under it and the valid condition. */
  ghost predicate ReducedAction(now: Action, was: Action, valid: Expr, solver: Solver) {
    && now.decode == was.decode && now.updates.Keys == was.updates.Keys
    && forall x :: x in was.updates ==> ReducedFor(now.updates[x], was.updates[x], FiringOf(valid, was.decode), solver)
  }

  method SimplifyMember(instr: Instr, valid: Expr, solver: Solver, ghost members: set<Instr>, ghost levels: set<Ila>)
    requires ReadyAction(false, instr.Now()) && SoundSolver(solver) && instr in members
    modifies instr
    ensures ReadyAction(false, instr.Now())
    ensures KeptAction(Some(valid), instr.Now(), old(instr.Now())) && ReducedAction(instr.Now(), old(instr.Now()), valid, solver)
    ensures ActionsOf(members) == old(ActionsOf(members))[instr := instr.Now()] && HeadersOf(levels) == old(HeadersOf(levels))
  {
    SimplifyInstr(instr, valid, solver);
    forall a | a in members && a != instr ensures a.Now() == old(a.Now()) {
    }
  }

  /** An instruction has been simplified under the valid condition of its own level. */
  ghost function ReducedBy(hosts: map<Instr, Ila>, h: Headers, solver: Solver): (Instr, Action, Action) -> bool {
    (a: Instr, now: Action, was: Action) =>
      a in hosts && hosts[a] in h && h[hosts[a]].valid.Some? && ReducedAction(now, was, h[hosts[a]].valid.value, solver)
  }

  /** How far the pass has come: what is done is simplified, and the meaning is kept. */
  ghost predicate Stage(m: Ila, hosts: map<Instr, Ila>, h: Headers, acts: Actions, acts0: Actions, solver: Solver, done: set<Instr>) {
    && InProgress(false, m, hosts, h, acts, h, acts0) && (forall x :: x in h ==> h[x].valid.Some?)
    && Sofar(acts, acts0, done, ReducedBy(hosts, h, solver))
  }

  lemma {:induction false} StageOne(m: Ila, hosts: map<Instr, Ila>, h: Headers, acts: Actions, acts0: Actions, solver: Solver, done: set<Instr>, a: Instr, now: Action)
    requires Stage(m, hosts, h, acts, acts0, solver, done) && a in m.members && a !in done
    requires ReadyAction(false, now) && KeptAction(h[hosts[a]].valid, now, acts[a]) && ReducedAction(now, acts[a], h[hosts[a]].valid.value, solver)
    ensures Stage(m, hosts, h, acts[a := now], acts0, solver, done + {a})
  {
    KeptOne(false, m, hosts, a, now, h, acts, h, acts0);
    SofarOne(acts, acts0, done, ReducedBy(hosts, h, solver), a, now);
  }

  lemma {:induction false} StageChild(m: Ila, c: nat, hosts: map<Instr, Ila>, hc: Headers, actsc: Actions, actsc0: Actions, h: Headers, acts: Actions, acts0: Actions, solver: Solver)
    requires Stage(m, hosts, h, acts, acts0, solver, ChildMembers(m, c)) && c < |m.childs|
    requires var child := m.childs[c];
      && child.levels == hc.Keys && child.members == actsc.Keys == actsc0.Keys
      && Stage(child, hosts, hc, actsc, actsc0, solver, child.members)
    requires (forall x :: x in hc ==> hc[x] == h[x]) && forall a :: a in actsc0 ==> actsc0[a] == acts[a]
    ensures Stage(m, hosts, h, acts + actsc, acts0, solver, ChildMembers(m, c + 1))
  {
    ChildApart(m, c, hosts);
    SofarMore(actsc, actsc0, actsc.Keys, ReducedBy(hosts, hc, solver), ReducedBy(hosts, h, solver));
    SofarPart(acts, acts0, ChildMembers(m, c), ReducedBy(hosts, h, solver), actsc, actsc0);
    ChildKept(false, m.childs[c], hosts, hc, actsc, hc, actsc0, h, acts);
    KeptChild(false, m, c, hosts, hc, actsc, h, acts, h, acts0);
    assert h + hc == h;
  }

  /** The level's own instructions are apart from those of its children. */
  lemma {:induction false} OwnApart(m: Ila, hosts: map<Instr, Ila>)
    requires m.Tree() && Hosted(m, hosts)
    ensures OwnMembers(m, |m.instrs|) !! ChildMembers(m, |m.childs|)
  {
    forall c | 0 <= c < |m.childs| ensures OwnMembers(m, |m.instrs|) !! m.childs[c].members {
      ChildApart(m, c, hosts);
    }
  }

  /** After the instructions `below`, simplify those of the level. */
  method SimplifyLevel(m: Ila, solver: Solver, ghost hosts: map<Instr, Ila>, ghost h: Headers, ghost acts0: Actions, ghost below: set<Instr>)
    requires Stage(m, hosts, h, ActionsOf(m.members), acts0, solver, below) && OwnMembers(m, |m.instrs|) !! below
    requires h == HeadersOf(m.levels) && SoundSolver(solver)
    modifies m.instrs
    ensures Stage(m, hosts, h, ActionsOf(m.members), acts0, solver, below + OwnMembers(m, |m.instrs|)) && h == HeadersOf(m.levels)
  {
    ghost var done := (acts, i: nat) => Stage(m, hosts, h, acts, acts0, solver, below + OwnMembers(m, i));
    assert below + OwnMembers(m, 0) == below;
    for i := 0 to |m.instrs|
      invariant done(ActionsOf(m.members), i) && h == HeadersOf(m.levels)
    {
      SimplifyNth(m, i, solver, hosts, h, acts0, below);
    }
  }

  method SimplifyNth(m: Ila, i: nat, solver: Solver, ghost hosts: map<Instr, Ila>, ghost h: Headers, ghost acts0: Actions, ghost below: set<Instr>)
    requires i < |m.instrs| && Stage(m, hosts, h, ActionsOf(m.members), acts0, solver, below + OwnMembers(m, i))
    requires h == HeadersOf(m.levels) && SoundSolver(solver) && OwnMembers(m, |m.instrs|) !! below
    modifies m.instrs[i]
    ensures Stage(m, hosts, h, ActionsOf(m.members), acts0, solver, below + OwnMembers(m, i + 1)) && h == HeadersOf(m.levels)
  {
    var instr := m.instrs[i];
    ghost var acts := ActionsOf(m.members);
    assert ReadyAction(false, acts[instr]) && h[m].valid.Some?;
    SimplifyMember(instr, m.valid.value, solver, m.members, m.levels);
    OwnNext(m, i);
    StageOne(m, hosts, h, acts, acts0, solver, below + OwnMembers(m, i), instr, instr.Now());
    assert below + OwnMembers(m, i + 1) == below + OwnMembers(m, i) + {instr};
  }

  /** Simplify the children, then the level itself.  Every level must have a valid condition. */
  method SimplifyAll(m: Ila, solver: Solver, ghost hosts: map<Instr, Ila>)
    requires m.Tree() && m.Exact() && Hosted(m, hosts) && AllReady(false, HeadersOf(m.levels), ActionsOf(m.members))
    requires (forall x :: x in m.levels ==> x.valid.Some?) && SoundSolver(solver)
    modifies m.members
    ensures Stage(m, hosts, HeadersOf(m.levels), ActionsOf(m.members), old(ActionsOf(m.members)), solver, m.members)
    decreases m.depth, 1
  {
    ghost var h, acts0 := HeadersOf(m.levels), ActionsOf(m.members);
    KeptItself(false, m, hosts, h, acts0);
    assert ChildMembers(m, 0) == {};
    for c := 0 to |m.childs|
      invariant Stage(m, hosts, h, ActionsOf(m.members), acts0, solver, ChildMembers(m, c)) && h == HeadersOf(m.levels)
    {
      SimplifyChild(m, c, solver, hosts, h, acts0);
    }
    OwnApart(m, hosts);
    SimplifyLevel(m, solver, hosts, h, acts0, ChildMembers(m, |m.childs|));
    NothingElse(m);
  }

  method SimplifyChild(m: Ila, c: nat, solver: Solver, ghost hosts: map<Instr, Ila>, ghost h: Headers, ghost acts0: Actions)
    requires c < |m.childs| && m.Tree() && m.Exact() && h == HeadersOf(m.levels) && SoundSolver(solver)
    requires Stage(m, hosts, h, ActionsOf(m.members), acts0, solver, ChildMembers(m, c))
    modifies m.members
    ensures Stage(m, hosts, h, ActionsOf(m.members), acts0, solver, ChildMembers(m, c + 1)) && h == HeadersOf(m.levels)
    decreases m.depth, 0
  {
    var child := m.childs[c];
    ghost var acts, hc, actsc0 := ActionsOf(m.members), HeadersOf(child.levels), ActionsOf(child.members);
    assert forall x :: x in child.levels ==> h[x].valid.Some?;
    SimplifyWithin(child, solver, hosts, m.levels, m.members);
    StageChild(m, c, hosts, hc, ActionsOf(child.members), actsc0, h, acts, acts0, solver);
  }

  /** Simplifying a part leaves the rest alone. */
  method SimplifyWithin(m: Ila, solver: Solver, ghost hosts: map<Instr, Ila>, ghost levels: set<Ila>, ghost members: set<Instr>)
    requires m.Tree() && m.Exact() && Hosted(m, hosts) && AllReady(false, HeadersOf(m.levels), ActionsOf(m.members))
    requires (forall x :: x in m.levels ==> x.valid.Some?) && SoundSolver(solver)
    requires m.levels <= levels && m.members <= members
    modifies m.members
    ensures Stage(m, hosts, old(HeadersOf(m.levels)), ActionsOf(m.members), old(ActionsOf(m.members)), solver, m.members)
    ensures HeadersOf(levels) == old(HeadersOf(levels)) && ActionsOf(members) == old(ActionsOf(members)) + ActionsOf(m.members)
    decreases m.depth, 3
  {
    SimplifyApart(m, solver, hosts, levels, members);
    Merged(ActionsOf(members), old(ActionsOf(members)), ActionsOf(m.members));
  }

  method SimplifyApart(m: Ila, solver: Solver, ghost hosts: map<Instr, Ila>, ghost levels: set<Ila>, ghost members: set<Instr>)
    requires m.Tree() && m.Exact() && Hosted(m, hosts) && AllReady(false, HeadersOf(m.levels), ActionsOf(m.members))
    requires (forall x :: x in m.levels ==> x.valid.Some?) && SoundSolver(solver)
    requires m.levels <= levels && m.members <= members
    modifies m.members
    ensures Stage(m, hosts, old(HeadersOf(m.levels)), ActionsOf(m.members), old(ActionsOf(m.members)), solver, m.members)
    ensures HeadersOf(levels) == old(HeadersOf(levels))
    ensures forall a :: a in members && a !in m.members ==> a.Now() == old(a.Now())
    decreases m.depth, 2
  {
    SimplifyAll(m, solver, hosts);
    assert HeadersOf(m.levels) == old(HeadersOf(m.levels));
  }

  /** Each instruction now has its updates reduced under its decode and the valid condition of its
      level, wherever in the hierarchy it is. */
  twostate predicate AllReduced(m: Ila, hosts: map<Instr, Ila>, solver: Solver)
    requires m.Tree() && Hosted(m, hosts)
    reads m.levels, m.members
  {
    forall a :: a in m.members ==> hosts[a].valid.Some? && ReducedAction(a.Now(), old(a.Now()), hosts[a].valid.value, solver)
  }

  /** The pass changes no valid, fetch or decode, reduces every update and keeps every run. */
  method SimplifySemantic(m: Ila, solver: Solver, ghost hosts: map<Instr, Ila>)
    requires m.Tree() && m.Exact() && Hosted(m, hosts) && AllReady(false, HeadersOf(m.levels), ActionsOf(m.members))
    requires (forall x :: x in m.levels ==> x.valid.Some?) && SoundSolver(solver)
    modifies m.members
    ensures SameRuns(m) && AllReduced(m, hosts, solver)
  {
    ghost var h, acts0 := HeadersOf(m.levels), ActionsOf(m.members);
    SimplifyAll(m, solver, hosts);
    assert HeadersOf(m.levels) == h;
    KeptRuns(m, hosts, h, ActionsOf(m.members), h, acts0);
    forall a | a in m.members ensures hosts[a].valid.Some? && ReducedAction(a.Now(), old(a.Now()), hosts[a].valid.value, solver) {
      assert ReducedBy(hosts, h, solver)(a, ActionsOf(m.members)[a], acts0[a]);
    }
  }
}
