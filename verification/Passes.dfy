/** Passes that overwrite the expressions of a hierarchy in place and keep its runs. */
module Passes {
  import opened Options
  import opened Expressions
  import opened Rewriters
  import opened Hierarchy

  /** What a pass may be given: what the constructors build and, for a pass that rebuilds nodes,
      from operators the rewriter knows. */
  ghost predicate Ready(rebuilds: bool, e: Expr) {
    WellSorted(e) && (rebuilds ==> Handled(e))
  }

  ghost predicate ReadyOption(rebuilds: bool, o: Option<Expr>) {
    o.Some? ==> Ready(rebuilds, o.value)
  }

  ghost predicate ReadyHeader(rebuilds: bool, h: Header) {
    ReadyOption(rebuilds, h.valid) && ReadyOption(rebuilds, h.fetch)
  }

  ghost predicate ReadyAction(rebuilds: bool, a: Action) {
    Ready(rebuilds, a.decode) && forall x :: x in a.updates ==> Ready(rebuilds, a.updates[x])
  }

  ghost predicate AllReady(rebuilds: bool, h: Headers, acts: Actions) {
    && (forall x :: x in h ==> ReadyHeader(rebuilds, h[x]))
    && forall a :: a in acts ==> ReadyAction(rebuilds, acts[a])
  }

  /** Everything an instruction holds is replaced by an equal. */
  ghost predicate EqualAction(now: Action, was: Action) {
    && Same(now.decode, was.decode) && now.updates.Keys == was.updates.Keys
    && forall x :: x in was.updates ==> Same(now.updates[x], was.updates[x])
  }

  /** One more part of the hierarchy has been replaced. */
  lemma {:induction false} KeptStep(rebuilds: bool, m: Ila, hosts: map<Instr, Ila>, h2: Headers, acts2: Actions, h1: Headers, acts1: Actions, h0: Headers, acts0: Actions)
    requires m.Tree() && Hosted(m, hosts)
    requires m.levels == h2.Keys == h1.Keys == h0.Keys
    requires m.members == acts2.Keys == acts1.Keys == acts0.Keys
    requires AllReady(rebuilds, h1, acts1) && Kept(m, hosts, h1, acts1, h0, acts0)
    requires forall x :: x in m.levels ==> h2[x] == h1[x] || KeptHeader(h2[x], h1[x])
    requires forall a :: a in m.members ==> acts2[a] == acts1[a] || KeptAction(h1[hosts[a]].valid, acts2[a], acts1[a])
    ensures Kept(m, hosts, h2, acts2, h0, acts0)
  {
    assert Kept(m, hosts, h2, acts2, h1, acts1) by {
      forall x | x in m.levels ensures KeptHeader(h2[x], h1[x]) {
        assert ReadyHeader(rebuilds, h1[x]);
      }
      forall a | a in m.members ensures KeptAction(h1[hosts[a]].valid, acts2[a], acts1[a]) {
        assert ReadyAction(rebuilds, acts1[a]);
        assert EqualAction(acts1[a], acts1[a]);
      }
    }
    KeptTrans(m, hosts, h2, acts2, h1, acts1, h0, acts0);
  }

  lemma {:induction false} KeptItself(rebuilds: bool, m: Ila, hosts: map<Instr, Ila>, h: Headers, acts: Actions)
    requires m.Tree() && Hosted(m, hosts) && m.levels == h.Keys && m.members == acts.Keys && AllReady(rebuilds, h, acts)
    ensures Kept(m, hosts, h, acts, h, acts)
  {
    forall x | x in m.levels ensures KeptHeader(h[x], h[x]) {
      assert ReadyHeader(rebuilds, h[x]);
    }
    forall a | a in m.members ensures KeptAction(h[hosts[a]].valid, acts[a], acts[a]) {
      assert ReadyAction(rebuilds, acts[a]);
    }
  }

  /** The hierarchy as a whole has kept its meaning so far and can be rewritten further. */
  ghost predicate InProgress(rebuilds: bool, m: Ila, hosts: map<Instr, Ila>, h: Headers, acts: Actions, h0: Headers, acts0: Actions) {
    && m.Tree() && Hosted(m, hosts)
    && m.levels == h.Keys == h0.Keys && m.members == acts.Keys == acts0.Keys
    && AllReady(rebuilds, h, acts) && Kept(m, hosts, h, acts, h0, acts0)
  }

  lemma {:induction false} KeptOne(rebuilds: bool, m: Ila, hosts: map<Instr, Ila>, a: Instr, now: Action, h: Headers, acts: Actions, h0: Headers, acts0: Actions)
    requires InProgress(rebuilds, m, hosts, h, acts, h0, acts0) && a in m.members
    requires ReadyAction(rebuilds, now) && KeptAction(h[hosts[a]].valid, now, acts[a])
    ensures InProgress(rebuilds, m, hosts, h, acts[a := now], h0, acts0)
  {
    KeptStep(rebuilds, m, hosts, h, acts[a := now], h, acts, h0, acts0);
  }

  lemma {:induction false} KeptChild(rebuilds: bool, m: Ila, c: nat, hosts: map<Instr, Ila>, hc: Headers, actsc: Actions, h: Headers, acts: Actions, h0: Headers, acts0: Actions)
    requires InProgress(rebuilds, m, hosts, h, acts, h0, acts0) && c < |m.childs|
    requires var child := m.childs[c];
      child.levels == hc.Keys && child.members == actsc.Keys && AllReady(rebuilds, hc, actsc) && Kept(child, hosts, hc, actsc, h, acts)
    ensures InProgress(rebuilds, m, hosts, h + hc, acts + actsc, h0, acts0)
  {
    var h2, acts2 := h + hc, acts + actsc;
    ChildHeaders(m, c, hosts, hc, actsc, h, acts);
    ChildActions(m, c, hosts, hc, actsc, h, acts);
    ReadyMerge(rebuilds, h, acts, hc, actsc);
    KeptStep(rebuilds, m, hosts, h2, acts2, h, acts, h0, acts0);
  }

  lemma {:induction false} ReadyMerge(rebuilds: bool, h: Headers, acts: Actions, hc: Headers, actsc: Actions)
    requires AllReady(rebuilds, h, acts) && AllReady(rebuilds, hc, actsc)
    ensures AllReady(rebuilds, h + hc, acts + actsc)
  {
  }

  lemma {:induction false} ChildHeaders(m: Ila, c: nat, hosts: map<Instr, Ila>, hc: Headers, actsc: Actions, h: Headers, acts: Actions)
    requires m.Tree() && Hosted(m, hosts) && c < |m.childs| && m.levels <= h.Keys && m.members <= acts.Keys
    requires var child := m.childs[c];
      child.levels == hc.Keys && child.members == actsc.Keys && Kept(child, hosts, hc, actsc, h, acts)
    ensures forall x :: x in m.levels ==> (h + hc)[x] == h[x] || KeptHeader((h + hc)[x], h[x])
  {
  }

  lemma {:induction false} ChildActions(m: Ila, c: nat, hosts: map<Instr, Ila>, hc: Headers, actsc: Actions, h: Headers, acts: Actions)
    requires m.Tree() && Hosted(m, hosts) && c < |m.childs| && m.levels <= h.Keys && m.members <= acts.Keys
    requires var child := m.childs[c];
      child.levels == hc.Keys && child.members == actsc.Keys && Kept(child, hosts, hc, actsc, h, acts)
    ensures forall a :: a in m.members ==> (acts + actsc)[a] == acts[a] || KeptAction(h[hosts[a]].valid, (acts + actsc)[a], acts[a])
  {
  }

  /** The table's replacement of an expression. */
  ghost predicate Image(now: Expr, was: Expr, rule: map<Expr, Expr>) {
    was in rule && now == rule[was]
  }

  /** ... which has the same value and can be rewritten again. */
  ghost predicate Swapped(now: Expr, was: Expr, rule: map<Expr, Expr>) {
    Replaces(now, was) && Image(now, was, rule)
  }

  ghost predicate ImageOption(now: Option<Expr>, was: Option<Expr>, rule: map<Expr, Expr>) {
    if was.Some? then now.Some? && Image(now.value, was.value, rule) else now.None?
  }

  ghost predicate ImageAction(now: Action, was: Action, rule: map<Expr, Expr>) {
    && Image(now.decode, was.decode, rule) && now.updates.Keys == was.updates.Keys
    && forall x :: x in was.updates ==> Image(now.updates[x], was.updates[x], rule)
  }

  ghost predicate ImageHeader(now: Header, was: Header, rule: map<Expr, Expr>) {
    ImageOption(now.valid, was.valid, rule) && ImageOption(now.fetch, was.fetch, rule) && now.inits == was.inits
  }

  /** A table keeps its entries. */
  ghost predicate Grown(rule: map<Expr, Expr>, more: map<Expr, Expr>) {
    forall k :: k in rule ==> k in more && more[k] == rule[k]
  }

  // ----- how far a pass has come -----

  /** What is done is as `D` says, the rest as it was. */
  ghost predicate Sofar<O, X>(now: map<O, X>, was: map<O, X>, done: set<O>, D: (O, X, X) -> bool) {
    now.Keys == was.Keys && forall o :: o in now ==> if o in done then D(o, now[o], was[o]) else now[o] == was[o]
  }

  lemma {:induction false} SofarOne<O, X>(now: map<O, X>, was: map<O, X>, done: set<O>, D: (O, X, X) -> bool, o: O, x: X)
    requires Sofar(now, was, done, D) && o in now && o !in done && D(o, x, was[o])
    ensures Sofar(now[o := x], was, done + {o}, D)
  {
  }

  /** A part that was untouched has been done. */
  lemma {:induction false} SofarPart<O, X>(now: map<O, X>, was: map<O, X>, done: set<O>, D: (O, X, X) -> bool, part: map<O, X>, before: map<O, X>)
    requires Sofar(now, was, done, D) && part.Keys == before.Keys <= now.Keys && part.Keys !! done
    requires (forall o :: o in before ==> before[o] == now[o]) && Sofar(part, before, part.Keys, D)
    ensures Sofar(now + part, was, done + part.Keys, D)
  {
  }

  lemma {:induction false} SofarMore<O, X>(now: map<O, X>, was: map<O, X>, done: set<O>, D: (O, X, X) -> bool, D2: (O, X, X) -> bool)
    requires Sofar(now, was, done, D) && forall o, x, y :: D(o, x, y) ==> D2(o, x, y)
    ensures Sofar(now, was, done, D2)
  {
  }

  /** The levels and instructions below the first children. */
  ghost function ChildLevels(m: Ila, c: nat): set<Ila> {
    set i, x | 0 <= i < c && i < |m.childs| && x in m.childs[i].levels :: x
  }

  ghost function ChildMembers(m: Ila, c: nat): set<Instr> {
    set i, a | 0 <= i < c && i < |m.childs| && a in m.childs[i].members :: a
  }

  ghost function OwnMembers(m: Ila, n: nat): set<Instr> {
    set i | 0 <= i < n && i < |m.instrs| :: m.instrs[i]
  }

  lemma {:induction false} OwnNext(m: Ila, n: nat)
    requires m.Tree() && n < |m.instrs|
    ensures OwnMembers(m, n + 1) == OwnMembers(m, n) + {m.instrs[n]} && m.instrs[n] !in OwnMembers(m, n)
  {
  }

  /** A child shares no level and no instruction with what comes before it. */
  lemma {:induction false} ChildApart(m: Ila, c: nat, hosts: map<Instr, Ila>)
    requires m.Tree() && Hosted(m, hosts) && c < |m.childs|
    ensures m.childs[c].levels !! ({m} + ChildLevels(m, c))
    ensures m.childs[c].members !! ChildMembers(m, c) && m.childs[c].members !! OwnMembers(m, |m.instrs|)
    ensures ChildLevels(m, c + 1) == ChildLevels(m, c) + m.childs[c].levels
    ensures ChildMembers(m, c + 1) == ChildMembers(m, c) + m.childs[c].members
  {
    assert Hosted(m.childs[c], hosts);
    forall i, a | 0 <= i < c && a in m.childs[i].members ensures a !in m.childs[c].members {
      assert Hosted(m.childs[i], hosts) && hosts[a] in m.childs[i].levels;
    }
  }

  lemma {:induction false} NothingElse(m: Ila)
    requires m.Tree() && m.Exact()
    ensures {m} + ChildLevels(m, |m.childs|) == m.levels
    ensures OwnMembers(m, |m.instrs|) + ChildMembers(m, |m.childs|) == m.members
  {
    forall x | x in m.levels && x != m ensures x in ChildLevels(m, |m.childs|) {
      assert m.InChild(x);
    }
    forall a | a in m.members && a !in m.instrs ensures a in ChildMembers(m, |m.childs|) {
      assert m.MemberOfChild(a);
    }
  }

  // ----- rewriting -----

  ghost function HeadersBy(rule: map<Expr, Expr>): (Ila, Header, Header) -> bool {
    (x: Ila, now: Header, was: Header) => ImageHeader(now, was, rule)
  }

  ghost function ActionsBy(rule: map<Expr, Expr>): (Instr, Action, Action) -> bool {
    (a: Instr, now: Action, was: Action) => ImageAction(now, was, rule)
  }

  /** The levels and instructions that are done hold the table's replacements of what they held. */
  ghost predicate Images(h: Headers, acts: Actions, h0: Headers, acts0: Actions, rule: map<Expr, Expr>, levels: set<Ila>, members: set<Instr>) {
    Sofar(h, h0, levels, HeadersBy(rule)) && Sofar(acts, acts0, members, ActionsBy(rule))
  }

  lemma {:induction false} ImagesGrow(h: Headers, acts: Actions, h0: Headers, acts0: Actions, rule: map<Expr, Expr>, more: map<Expr, Expr>, levels: set<Ila>, members: set<Instr>)
    requires Images(h, acts, h0, acts0, rule, levels, members) && Grown(rule, more)
    ensures Images(h, acts, h0, acts0, more, levels, members)
  {
    forall x: Ila, now, was | HeadersBy(rule)(x, now, was) ensures HeadersBy(more)(x, now, was) {
    }
    SofarMore(h, h0, levels, HeadersBy(rule), HeadersBy(more));
    forall a: Instr, now, was | ActionsBy(rule)(a, now, was) ensures ActionsBy(more)(a, now, was) {
    }
    SofarMore(acts, acts0, members, ActionsBy(rule), ActionsBy(more));
  }

  /** How far a rewriting pass has come: what is done are images, and the meaning is kept. */
  ghost predicate Stage(m: Ila, hosts: map<Instr, Ila>, h: Headers, acts: Actions, h0: Headers, acts0: Actions, rule: map<Expr, Expr>, levels: set<Ila>, members: set<Instr>) {
    InProgress(true, m, hosts, h, acts, h0, acts0) && Images(h, acts, h0, acts0, rule, levels, members)
  }

  lemma {:induction false} StageOne(m: Ila, hosts: map<Instr, Ila>, h: Headers, acts: Actions, h0: Headers, acts0: Actions, rule: map<Expr, Expr>, more: map<Expr, Expr>, levels: set<Ila>, members: set<Instr>, a: Instr, now: Action)
    requires Stage(m, hosts, h, acts, h0, acts0, rule, levels, members) && Grown(rule, more) && a in m.members && a !in members
    requires ReadyAction(true, now) && KeptAction(h[hosts[a]].valid, now, acts[a]) && ImageAction(now, acts[a], more)
    ensures Stage(m, hosts, h, acts[a := now], h0, acts0, more, levels, members + {a})
  {
    KeptOne(true, m, hosts, a, now, h, acts, h0, acts0);
    ImagesGrow(h, acts, h0, acts0, rule, more, levels, members);
    SofarOne(acts, acts0, members, ActionsBy(more), a, now);
  }

  lemma {:induction false} StagePart(m: Ila, c: nat, hosts: map<Instr, Ila>, hc: Headers, actsc: Actions, hc0: Headers, actsc0: Actions, h: Headers, acts: Actions, h0: Headers, acts0: Actions, rule: map<Expr, Expr>, more: map<Expr, Expr>, levels: set<Ila>, members: set<Instr>)
    requires Stage(m, hosts, h, acts, h0, acts0, rule, levels, members) && Grown(rule, more) && c < |m.childs|
    requires var child := m.childs[c];
      && child.levels == hc.Keys == hc0.Keys && child.members == actsc.Keys == actsc0.Keys
      && child.levels !! levels && child.members !! members
      && Stage(child, hosts, hc, actsc, hc0, actsc0, more, child.levels, child.members)
    requires (forall x :: x in hc0 ==> hc0[x] == h[x]) && forall a :: a in actsc0 ==> actsc0[a] == acts[a]
    ensures Stage(m, hosts, h + hc, acts + actsc, h0, acts0, more, levels + m.childs[c].levels, members + m.childs[c].members)
  {
    ImagesGrow(h, acts, h0, acts0, rule, more, levels, members);
    SofarPart(h, h0, levels, HeadersBy(more), hc, hc0);
    SofarPart(acts, acts0, members, ActionsBy(more), actsc, actsc0);
    ChildKept(true, m.childs[c], hosts, hc, actsc, hc0, actsc0, h, acts);
    KeptChild(true, m, c, hosts, hc, actsc, h, acts, h0, acts0);
  }

  lemma {:induction false} ChildKept(rebuilds: bool, child: Ila, hosts: map<Instr, Ila>, hc: Headers, actsc: Actions, hc0: Headers, actsc0: Actions, h: Headers, acts: Actions)
    requires InProgress(rebuilds, child, hosts, hc, actsc, hc0, actsc0) && hc0.Keys <= h.Keys && actsc0.Keys <= acts.Keys
    requires (forall x :: x in hc0 ==> hc0[x] == h[x]) && forall a :: a in actsc0 ==> actsc0[a] == acts[a]
    ensures Kept(child, hosts, hc, actsc, h, acts)
  {
  }

  /** Replace the decode of an instruction, then each of its updates. */
  method RewriteInstr(instr: Instr, rewr: Rewriter)
    requires rewr.Valid() && ReadyAction(true, instr.Now())
    modifies instr, rewr
    ensures rewr.Valid() && ReadyAction(true, instr.Now()) && Grown(old(rewr.rule), rewr.rule)
    ensures EqualAction(instr.Now(), old(instr.Now()))
    ensures ImageAction(instr.Now(), old(instr.Now()), rewr.rule)
  {
    ghost var was := instr.Now();
    instr.decode := rewr.Rewr(instr.decode);
    var todo := instr.updates.Keys;
    while todo != {}
      invariant rewr.Valid() && Grown(old(rewr.rule), rewr.rule) && Rewriting(instr.Now(), was, todo, rewr.rule)
    {
      var state :| state in todo;
      RewriteUpdate(instr, state, rewr, was, todo);
      todo := todo - {state};
    }
    Rewritten(instr.Now(), was, rewr.rule);
  }

  method RewriteUpdate(instr: Instr, state: string, rewr: Rewriter, ghost was: Action, ghost todo: set<string>)
    requires rewr.Valid() && ReadyAction(true, was) && state in todo && Rewriting(instr.Now(), was, todo, rewr.rule)
    modifies instr, rewr
    ensures rewr.Valid() && Grown(old(rewr.rule), rewr.rule) && Rewriting(instr.Now(), was, todo - {state}, rewr.rule)
  {
    ghost var now, rule := instr.Now(), rewr.rule;
    assert Ready(true, was.updates[state]);
    var update := rewr.Rewr(instr.updates[state]);
    instr.updates := instr.updates[state := update];
    RewritingMore(now, was, todo, rule, rewr.rule, state, update);
  }

  /** The decode and the updates not in `todo` have been replaced. */
  ghost predicate Rewriting(now: Action, was: Action, todo: set<string>, rule: map<Expr, Expr>) {
    && todo <= was.updates.Keys == now.updates.Keys && Swapped(now.decode, was.decode, rule)
    && (forall x :: x in todo ==> now.updates[x] == was.updates[x])
    && forall x :: x in was.updates && x !in todo ==> Swapped(now.updates[x], was.updates[x], rule)
  }

  lemma {:induction false} Rewritten(now: Action, was: Action, rule: map<Expr, Expr>)
    requires Rewriting(now, was, {}, rule)
    ensures ReadyAction(true, now) && EqualAction(now, was) && ImageAction(now, was, rule)
  {
  }

  lemma {:induction false} RewritingMore(now: Action, was: Action, todo: set<string>, rule: map<Expr, Expr>, more: map<Expr, Expr>, state: string, update: Expr)
    requires Rewriting(now, was, todo, rule) && Grown(rule, more) && state in todo && Swapped(update, was.updates[state], more)
    ensures Rewriting(Action(now.decode, now.updates[state := update]), was, todo - {state}, more)
  {
  }

  method RewriteMember(instr: Instr, rewr: Rewriter, ghost members: set<Instr>, ghost levels: set<Ila>)
    requires rewr.Valid() && ReadyAction(true, instr.Now()) && instr in members
    modifies instr, rewr
    ensures rewr.Valid() && ReadyAction(true, instr.Now()) && Grown(old(rewr.rule), rewr.rule)
    ensures EqualAction(instr.Now(), old(instr.Now())) && ImageAction(instr.Now(), old(instr.Now()), rewr.rule)
    ensures ActionsOf(members) == old(ActionsOf(members))[instr := instr.Now()]
    ensures HeadersOf(levels) == old(HeadersOf(levels))
  {
    RewriteInstr(instr, rewr);
    forall a | a in members && a != instr ensures a.Now() == old(a.Now()) {
    }
  }

  method RewriteHeader(m: Ila, rewr: Rewriter)
    requires rewr.Valid() && ReadyHeader(true, m.Now())
    modifies rewr, m
    ensures rewr.Valid() && ReadyHeader(true, m.Now()) && Grown(old(rewr.rule), rewr.rule)
    ensures KeptHeader(m.Now(), old(m.Now())) && ImageHeader(m.Now(), old(m.Now()), rewr.rule)
  {
    if m.valid.Some? {
      var valid := rewr.Rewr(m.valid.value);
      m.valid := Some(valid);
    }
    if m.fetch.Some? {
      var fetch := rewr.Rewr(m.fetch.value);
      m.fetch := Some(fetch);
    }
  }

  method RewriteHeaderAmong(m: Ila, rewr: Rewriter, ghost levels: set<Ila>, ghost members: set<Instr>)
    requires rewr.Valid() && ReadyHeader(true, m.Now()) && m in levels
    modifies rewr, m
    ensures rewr.Valid() && ReadyHeader(true, m.Now()) && Grown(old(rewr.rule), rewr.rule)
    ensures KeptHeader(m.Now(), old(m.Now())) && ImageHeader(m.Now(), old(m.Now()), rewr.rule)
    ensures HeadersOf(levels) == old(HeadersOf(levels))[m := m.Now()] && ActionsOf(members) == old(ActionsOf(members))
  {
    RewriteHeader(m, rewr);
  }

  method RewriteOwnHeader(m: Ila, rewr: Rewriter, ghost hosts: map<Instr, Ila>)
    requires m.Tree() && Hosted(m, hosts) && rewr.Valid()
    requires AllReady(true, HeadersOf(m.levels), ActionsOf(m.members))
    modifies rewr, m
    ensures rewr.Valid() && Grown(old(rewr.rule), rewr.rule)
    ensures Stage(m, hosts, HeadersOf(m.levels), ActionsOf(m.members), old(HeadersOf(m.levels)), old(ActionsOf(m.members)), rewr.rule, {m}, {})
  {
    ghost var h0, acts0 := HeadersOf(m.levels), ActionsOf(m.members);
    KeptItself(true, m, hosts, h0, acts0);
    assert ReadyHeader(true, h0[m]);
    RewriteHeaderAmong(m, rewr, m.levels, m.members);
    HeaderStage(m, hosts, h0, acts0, rewr.rule, m.Now());
  }

  lemma {:induction false} HeaderStage(m: Ila, hosts: map<Instr, Ila>, h0: Headers, acts0: Actions, rule: map<Expr, Expr>, now: Header)
    requires InProgress(true, m, hosts, h0, acts0, h0, acts0)
    requires ReadyHeader(true, now) && KeptHeader(now, h0[m]) && ImageHeader(now, h0[m], rule)
    ensures Stage(m, hosts, h0[m := now], acts0, h0, acts0, rule, {m}, {})
  {
    KeptStep(true, m, hosts, h0[m := now], acts0, h0, acts0, h0, acts0);
    SofarOne(h0, h0, {}, HeadersBy(rule), m, now);
    assert {} + {m} == {m};
  }

  method RewriteInstrs(m: Ila, rewr: Rewriter, ghost hosts: map<Instr, Ila>, ghost h0: Headers, ghost acts0: Actions)
    requires rewr.Valid() && Stage(m, hosts, HeadersOf(m.levels), ActionsOf(m.members), h0, acts0, rewr.rule, {m}, {})
    modifies rewr, m.instrs
    ensures rewr.Valid() && Grown(old(rewr.rule), rewr.rule)
    ensures Stage(m, hosts, HeadersOf(m.levels), ActionsOf(m.members), h0, acts0, rewr.rule, {m}, OwnMembers(m, |m.instrs|))
  {
    ghost var h := HeadersOf(m.levels);
    ghost var done := (acts, rule, i: nat) => Stage(m, hosts, h, acts, h0, acts0, rule, {m}, OwnMembers(m, i));
    assert OwnMembers(m, 0) == {};
    for i := 0 to |m.instrs|
      invariant rewr.Valid() && HeadersOf(m.levels) == h && Grown(old(rewr.rule), rewr.rule)
      invariant done(ActionsOf(m.members), rewr.rule, i)
    {
      RewriteNth(m, i, rewr, hosts, h, h0, acts0);
    }
  }

  method RewriteNth(m: Ila, i: nat, rewr: Rewriter, ghost hosts: map<Instr, Ila>, ghost h: Headers, ghost h0: Headers, ghost acts0: Actions)
    requires rewr.Valid() && i < |m.instrs| && h == HeadersOf(m.levels)
    requires Stage(m, hosts, h, ActionsOf(m.members), h0, acts0, rewr.rule, {m}, OwnMembers(m, i))
    modifies rewr, m.instrs[i]
    ensures rewr.Valid() && h == HeadersOf(m.levels) && Grown(old(rewr.rule), rewr.rule)
    ensures Stage(m, hosts, h, ActionsOf(m.members), h0, acts0, rewr.rule, {m}, OwnMembers(m, i + 1))
  {
    var instr := m.instrs[i];
    ghost var acts, rule := ActionsOf(m.members), rewr.rule;
    assert ReadyAction(true, acts[instr]);
    RewriteMember(instr, rewr, m.members, m.levels);
    OwnNext(m, i);
    StageOne(m, hosts, h, acts, h0, acts0, rule, rewr.rule, {m}, OwnMembers(m, i), instr, instr.Now());
  }

  /** Apply a rewriter across the hierarchy: valid, fetch and instructions of each level.  Everything
      they held is replaced by the table's entry for it. */
  method RewriteGeneric(m: Ila, rewr: Rewriter, ghost hosts: map<Instr, Ila>)
    requires m.Tree() && m.Exact() && Hosted(m, hosts) && rewr.Valid()
    requires AllReady(true, HeadersOf(m.levels), ActionsOf(m.members))
    modifies rewr, m.levels, m.members
    ensures rewr.Valid() && Grown(old(rewr.rule), rewr.rule)
    ensures Stage(m, hosts, HeadersOf(m.levels), ActionsOf(m.members), old(HeadersOf(m.levels)), old(ActionsOf(m.members)), rewr.rule, m.levels, m.members)
    decreases m.depth, 1
  {
    ghost var h0, acts0 := HeadersOf(m.levels), ActionsOf(m.members);
    RewriteOwnHeader(m, rewr, hosts);
    RewriteInstrs(m, rewr, hosts, h0, acts0);
    NoneBelow(m);
    for c := 0 to |m.childs|
      invariant rewr.Valid() && Grown(old(rewr.rule), rewr.rule)
      invariant Stage(m, hosts, HeadersOf(m.levels), ActionsOf(m.members), h0, acts0, rewr.rule, DoneLevels(m, c), DoneMembers(m, c))
    {
      RewriteChild(m, c, rewr, hosts, h0, acts0);
    }
    NothingElse(m);
  }

  ghost function DoneLevels(m: Ila, c: nat): set<Ila> {
    {m} + ChildLevels(m, c)
  }

  ghost function DoneMembers(m: Ila, c: nat): set<Instr> {
    OwnMembers(m, |m.instrs|) + ChildMembers(m, c)
  }

  lemma {:induction false} NoneBelow(m: Ila)
    ensures DoneLevels(m, 0) == {m} && DoneMembers(m, 0) == OwnMembers(m, |m.instrs|) && ChildMembers(m, 0) == {}
  {
  }

  method RewriteChild(m: Ila, c: nat, rewr: Rewriter, ghost hosts: map<Instr, Ila>, ghost h0: Headers, ghost acts0: Actions)
    requires rewr.Valid() && c < |m.childs| && m.Tree() && m.Exact()
    requires Stage(m, hosts, HeadersOf(m.levels), ActionsOf(m.members), h0, acts0, rewr.rule, DoneLevels(m, c), DoneMembers(m, c))
    modifies rewr, m.levels, m.members
    ensures rewr.Valid() && Grown(old(rewr.rule), rewr.rule)
    ensures Stage(m, hosts, HeadersOf(m.levels), ActionsOf(m.members), h0, acts0, rewr.rule, DoneLevels(m, c + 1), DoneMembers(m, c + 1))
    decreases m.depth, 0
  {
    var child := m.childs[c];
    ghost var h, acts, rule := HeadersOf(m.levels), ActionsOf(m.members), rewr.rule;
    ghost var hc0, actsc0 := HeadersOf(child.levels), ActionsOf(child.members);
    RewriteWithin(child, rewr, hosts, m.levels, m.members);
    ghost var hc, actsc := HeadersOf(child.levels), ActionsOf(child.members);
    DoneNext(m, c, hosts);
    StagePart(m, c, hosts, hc, actsc, hc0, actsc0, h, acts, h0, acts0, rule, rewr.rule, DoneLevels(m, c), DoneMembers(m, c));
  }

  lemma {:induction false} DoneNext(m: Ila, c: nat, hosts: map<Instr, Ila>)
    requires m.Tree() && Hosted(m, hosts) && c < |m.childs|
    ensures m.childs[c].levels !! DoneLevels(m, c) && DoneLevels(m, c + 1) == DoneLevels(m, c) + m.childs[c].levels
    ensures m.childs[c].members !! DoneMembers(m, c) && DoneMembers(m, c + 1) == DoneMembers(m, c) + m.childs[c].members
  {
    ChildApart(m, c, hosts);
  }

  /** Rewriting a part leaves the rest alone. */
  method RewriteWithin(m: Ila, rewr: Rewriter, ghost hosts: map<Instr, Ila>, ghost levels: set<Ila>, ghost members: set<Instr>)
    requires m.Tree() && m.Exact() && Hosted(m, hosts) && rewr.Valid() && m.levels <= levels && m.members <= members
    requires AllReady(true, HeadersOf(m.levels), ActionsOf(m.members))
    modifies rewr, m.levels, m.members
    ensures rewr.Valid() && Grown(old(rewr.rule), rewr.rule)
    ensures Stage(m, hosts, HeadersOf(m.levels), ActionsOf(m.members), old(HeadersOf(m.levels)), old(ActionsOf(m.members)), rewr.rule, m.levels, m.members)
    ensures HeadersOf(levels) == old(HeadersOf(levels)) + HeadersOf(m.levels)
    ensures ActionsOf(members) == old(ActionsOf(members)) + ActionsOf(m.members)
    decreases m.depth, 3
  {
    RewriteApart(m, rewr, hosts, levels, members);
    Merged(HeadersOf(levels), old(HeadersOf(levels)), HeadersOf(m.levels));
    Merged(ActionsOf(members), old(ActionsOf(members)), ActionsOf(m.members));
  }

  method RewriteApart(m: Ila, rewr: Rewriter, ghost hosts: map<Instr, Ila>, ghost levels: set<Ila>, ghost members: set<Instr>)
    requires m.Tree() && m.Exact() && Hosted(m, hosts) && rewr.Valid() && m.levels <= levels && m.members <= members
    requires AllReady(true, HeadersOf(m.levels), ActionsOf(m.members))
    modifies rewr, m.levels, m.members
    ensures rewr.Valid() && Grown(old(rewr.rule), rewr.rule)
    ensures Stage(m, hosts, HeadersOf(m.levels), ActionsOf(m.members), old(HeadersOf(m.levels)), old(ActionsOf(m.members)), rewr.rule, m.levels, m.members)
    ensures forall x :: x in levels && x !in m.levels ==> x.Now() == old(x.Now())
    ensures forall a :: a in members && a !in m.members ==> a.Now() == old(a.Now())
    decreases m.depth, 2
  {
    RewriteGeneric(m, rewr, hosts);
  }

  lemma {:induction false} Merged<K, V>(after: map<K, V>, before: map<K, V>, part: map<K, V>)
    requires after.Keys == before.Keys && part.Keys <= before.Keys
    requires forall k :: k in part ==> after[k] == part[k]
    requires forall k :: k in before && k !in part ==> after[k] == before[k]
    ensures after == before + part
  {
  }

  /** The runs of the whole hierarchy before and after are the same. */
  twostate predicate SameRuns(m: Ila)
    requires m.Tree()
    reads m.levels, m.members
  {
    forall vars, states, choice, f: Ops ::
      Run(m, HeadersOf(m.levels), ActionsOf(m.members), vars, states, choice, f)
      <==> Run(m, old(HeadersOf(m.levels)), old(ActionsOf(m.members)), vars, states, choice, f)
  }

  /** Every expression of the hierarchy has been replaced by the table's entry for it. */
  twostate predicate AllImages(m: Ila, rule: map<Expr, Expr>)
    reads m.levels, m.members
  {
    && (forall x :: x in m.levels ==> ImageHeader(x.Now(), old(x.Now()), rule))
    && forall a :: a in m.members ==> ImageAction(a.Now(), old(a.Now()), rule)
  }

  /** All expressions that the levels and instructions hold. */
  ghost predicate AllHeld(m: Ila, P: Expr -> bool)
    reads m.levels, m.members
  {
    && (forall x :: x in m.levels ==> (x.valid.Some? ==> P(x.valid.value)) && (x.fetch.Some? ==> P(x.fetch.value)))
    && forall a :: a in m.members ==> P(a.decode) && forall x :: x in a.updates ==> P(a.updates[x])
  }

  /** No expression left holds a conditional memory whose branches are one or can be merged. */
  method RewriteConditionalStore(m: Ila, next: nat, ghost hosts: map<Instr, Ila>) returns (ghost rule: map<Expr, Expr>)
    requires m.Tree() && m.Exact() && Hosted(m, hosts) && AllReady(true, HeadersOf(m.levels), ActionsOf(m.members))
    modifies m.levels, m.members
    ensures SameRuns(m)
    ensures forall x :: x in m.levels ==> KeptHeader(x.Now(), old(x.Now()))
    ensures TableOf(ConditionalStore, rule) && AllImages(m, rule) && AllHeld(m, e => NoneMergeable(e))
  {
    var rewr := new Rewriter(ConditionalStore, next, map[]);
    RewriteAll(m, rewr, hosts);
    rule := rewr.rule;
    forall e | e in rule ensures NoneMergeable(rule[e]) {
      NoneMergeableLeft(rule, e);
    }
  }

  /** `overriding` says whether the pass's own rule for loads takes the place of the general one.
      As declared it does not: it takes its argument by value where the general one takes a
      reference, so it is a different function. */
  method RewriteStoreLoad(m: Ila, next: nat, overriding: bool, ghost hosts: map<Instr, Ila>) returns (ghost rule: map<Expr, Expr>)
    requires m.Tree() && m.Exact() && Hosted(m, hosts) && AllReady(true, HeadersOf(m.levels), ActionsOf(m.members))
    modifies m.levels, m.members
    ensures SameRuns(m)
    ensures forall x :: x in m.levels ==> KeptHeader(x.Now(), old(x.Now()))
    ensures TableOf(if overriding then StoreLoad else RebuildOnly, rule) && AllImages(m, rule)
    ensures overriding ==> AllHeld(m, e => NoneForwardable(e))
  {
    var rewr := new Rewriter(if overriding then StoreLoad else RebuildOnly, next, map[]);
    RewriteAll(m, rewr, hosts);
    rule := rewr.rule;
    if overriding {
      forall e | e in rule ensures NoneForwardable(rule[e]) {
        NoneForwardableLeft(rule, e);
      }
    }
  }

  method RewriteAll(m: Ila, rewr: Rewriter, ghost hosts: map<Instr, Ila>)
    requires m.Tree() && m.Exact() && Hosted(m, hosts) && AllReady(true, HeadersOf(m.levels), ActionsOf(m.members)) && rewr.Valid()
    modifies rewr, m.levels, m.members
    ensures rewr.Valid() && SameRuns(m) && AllImages(m, rewr.rule)
    ensures forall x :: x in m.levels ==> KeptHeader(x.Now(), old(x.Now()))
  {
    ghost var h0, acts0 := HeadersOf(m.levels), ActionsOf(m.members);
    RewriteGeneric(m, rewr, hosts);
    KeptRuns(m, hosts, HeadersOf(m.levels), ActionsOf(m.members), h0, acts0);
    forall x | x in m.levels ensures KeptHeader(x.Now(), old(x.Now())) && ImageHeader(x.Now(), old(x.Now()), rewr.rule) {
      assert KeptHeader(HeadersOf(m.levels)[x], h0[x]) && HeadersBy(rewr.rule)(x, HeadersOf(m.levels)[x], h0[x]);
    }
    forall a | a in m.members ensures ImageAction(a.Now(), old(a.Now()), rewr.rule) {
      assert ActionsBy(rewr.rule)(a, ActionsOf(m.members)[a], acts0[a]);
    }
  }
}
