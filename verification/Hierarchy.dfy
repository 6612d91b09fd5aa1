/** A model and its children: levels with a valid condition, instructions and their updates, and
    the runs they allow.  The passes overwrite the fields of these objects and build no variable, so
    levels and instructions are objects and a state gives a value to each name.  Copies and the portable
    form make new hierarchies from old ones; module Portable has the same model as values. */
module Hierarchy {
  import opened Options
  import opened Expressions

  /** What the levels and instructions hold at one moment. */
  datatype Header = Header(valid: Option<Expr>, fetch: Option<Expr>, inits: seq<Expr>)
  datatype Action = Action(decode: Expr, updates: map<string, Expr>)

  class Instr {
    var decode: Expr
    var updates: map<string, Expr>

    constructor (decode: Expr, updates: map<string, Expr>)
      ensures Now() == Action(decode, updates)
    {
      this.decode, this.updates := decode, updates;
    }

    function Now(): Action
      reads this
    {
      Action(decode, updates)
    }
  }

  class Ila {
    var valid: Option<Expr>
    var fetch: Option<Expr>
    var inits: seq<Expr>
    const instrs: seq<Instr>
    const childs: seq<Ila>
    ghost const depth: nat
    ghost const levels: set<Ila>     // this level and those below
    ghost const members: set<Instr>  // the instructions of all of them

    constructor (valid: Option<Expr>, fetch: Option<Expr>, inits: seq<Expr>, instrs: seq<Instr>, childs: seq<Ila>)
      requires forall i :: 0 <= i < |childs| ==> childs[i].Tree() && childs[i].Exact()
      requires forall i, j :: 0 <= i < j < |instrs| ==> instrs[i] != instrs[j]
      requires forall i, j :: 0 <= i < j < |childs| ==> childs[i].levels !! childs[j].levels
      ensures Tree() && Exact() && this.instrs == instrs && this.childs == childs
      ensures Now() == Header(valid, fetch, inits)
    {
      this.valid, this.fetch, this.inits, this.instrs, this.childs := valid, fetch, inits, instrs, childs;
      depth := 1 + Deepest(childs);
      levels := {this} + set c, x | c in childs && x in c.levels :: x;
      members := (set a | a in instrs) + set c, a | c in childs && a in c.members :: a;
      new;
      assert forall i :: 0 <= i < |childs| ==> childs[i] in childs && childs[i].depth < depth;
      IsExact();
    }

    function Now(): Header
      reads this
    {
      Header(valid, fetch, inits)
    }

    /** Every level has its own instructions, and no level is below two others. */
    ghost predicate Tree()
      decreases depth
    {
      && this in levels
      && (forall i :: 0 <= i < |instrs| ==> instrs[i] in members)
      && (forall i, j :: 0 <= i < j < |instrs| ==> instrs[i] != instrs[j])
      && (forall i, j :: 0 <= i < j < |childs| ==> childs[i].levels !! childs[j].levels)
      && forall i :: 0 <= i < |childs| ==>
           && childs[i].depth < depth && childs[i].levels <= levels && childs[i].members <= members
           && this !in childs[i].levels && childs[i].Tree()
    }

    lemma {:induction false} IsExact()
      requires Tree() && forall i :: 0 <= i < |childs| ==> childs[i].Exact()
      requires levels == {this} + set c, x | c in childs && x in c.levels :: x
      requires members == (set a | a in instrs) + set c, a | c in childs && a in c.members :: a
      ensures Exact()
    {
      forall x | x in levels && x != this ensures InChild(x) {
        var c :| c in childs && x in c.levels;
        var i :| 0 <= i < |childs| && childs[i] == c;
      }
      forall a | a in members && a !in instrs ensures MemberOfChild(a) {
        var c :| c in childs && a in c.members;
        var i :| 0 <= i < |childs| && childs[i] == c;
      }
    }

    /** Nothing else is counted among the levels and instructions of a tree. */
    ghost predicate Exact()
      requires Tree()
      decreases depth
    {
      && (forall x :: x in levels ==> x == this || InChild(x))
      && (forall a :: a in members ==> a in instrs || MemberOfChild(a))
      && forall i :: 0 <= i < |childs| ==> childs[i].Exact()
    }

    ghost predicate InChild(x: Ila) {
      exists i :: 0 <= i < |childs| && x in childs[i].levels
    }

    ghost predicate MemberOfChild(a: Instr) {
      exists i :: 0 <= i < |childs| && a in childs[i].members
    }
  }

  ghost function Deepest(ms: seq<Ila>): (d: nat)
    ensures forall i :: 0 <= i < |ms| ==> ms[i].depth <= d
  {
    if ms == [] then 0
    else
      assert forall i :: 0 < i < |ms| ==> ms[i] == ms[1..][i - 1];
      var rest := Deepest(ms[1..]);
      if ms[0].depth < rest then rest else ms[0].depth
  }

  type Headers = map<Ila, Header>
  type Actions = map<Instr, Action>

  ghost function HeadersOf(levels: set<Ila>): (h: Headers)
    reads levels
    ensures h.Keys == levels && forall x :: x in levels ==> h[x] == x.Now()
  {
    map x | x in levels :: x.Now()
  }

  ghost function ActionsOf(members: set<Instr>): (acts: Actions)
    reads members
    ensures acts.Keys == members && forall a :: a in members ==> acts[a] == a.Now()
  {
    map a | a in members :: a.Now()
  }

  /** An instruction together with the valid condition of its level. */
  datatype Rule = Rule(valid: Option<Expr>, action: Action)

  /** The instructions of a level in order, then those of each child. */
  ghost function Rules(m: Ila, h: Headers, acts: Actions): seq<Rule>
    requires m.Tree() && m.levels <= h.Keys && m.members <= acts.Keys
    decreases m.depth, |m.childs| + 1
  {
    seq(|m.instrs|, i requires 0 <= i < |m.instrs| => Rule(h[m].valid, acts[m.instrs[i]])) + ChildRules(m, |m.childs|, h, acts)
  }

  ghost function ChildRules(m: Ila, n: nat, h: Headers, acts: Actions): seq<Rule>
    requires m.Tree() && m.levels <= h.Keys && m.members <= acts.Keys && n <= |m.childs|
    decreases m.depth, n
  {
    if n == 0 then []
    else ChildRules(m, n - 1, h, acts) + Rules(m.childs[n - 1], h, acts)
  }

  ghost predicate Valid(valid: Option<Expr>, s: State, f: Ops) {
    valid.Some? ==> Eval(valid.value, s, f).IsTrue()
  }

  /** An instruction fires under valid and decode. */
  ghost predicate Fires(r: Rule, s: State, f: Ops) {
    Valid(r.valid, s, f) && Eval(r.action.decode, s, f).IsTrue()
  }

  /** It writes each state variable it has an update for and leaves the others; what is not a
      state variable is free. */
  ghost predicate Moves(r: Rule, vars: set<string>, s: State, t: State, f: Ops) {
    && Fires(r, s, f)
    && forall x :: x in vars ==>
         x in t && if x in r.action.updates then t[x] == Eval(r.action.updates[x], s, f) else x in s && t[x] == s[x]
  }

  /** The initial conditions of all levels hold. */
  ghost predicate Starts(m: Ila, h: Headers, s: State, f: Ops)
    requires m.levels <= h.Keys
  {
    forall x :: x in m.levels ==> forall i :: 0 <= i < |h[x].inits| ==> Eval(h[x].inits[i], s, f).IsTrue()
  }

  /** `choice` names the instruction fired at each step. */
  ghost predicate Steps(rules: seq<Rule>, vars: set<string>, states: seq<State>, choice: seq<nat>, f: Ops) {
    && |states| == |choice| + 1
    && forall k :: 0 <= k < |choice| ==>
         choice[k] < |rules| && Moves(rules[choice[k]], vars, states[k], states[k + 1], f)
  }

  ghost predicate Run(m: Ila, h: Headers, acts: Actions, vars: set<string>, states: seq<State>, choice: seq<nat>, f: Ops)
    requires m.Tree() && m.levels <= h.Keys && m.members <= acts.Keys
  {
    Steps(Rules(m, h, acts), vars, states, choice, f) && Starts(m, h, states[0], f)
  }

  ghost predicate SameOption(a: Option<Expr>, b: Option<Expr>) {
    if a.Some? then b.Some? && Same(a.value, b.value) else b.None?
  }

  ghost predicate KeptHeader(now: Header, was: Header) {
    SameOption(now.valid, was.valid) && SameOption(now.fetch, was.fetch) && now.inits == was.inits
  }

  /** The same decode, and the same updates wherever the instruction fires. */
  ghost predicate KeptAction(valid: Option<Expr>, now: Action, was: Action) {
    && Same(now.decode, was.decode) && now.updates.Keys == was.updates.Keys
    && forall x :: x in was.updates ==> SameFiring(Rule(valid, was), now.updates[x], was.updates[x])
  }

  ghost predicate SameFiring(r: Rule, d: Expr, e: Expr) {
    && SortOf(d) == SortOf(e) && WellSorted(d)
    && forall s: State, f: Ops :: Fires(r, s, f) ==> Eval(d, s, f) == Eval(e, s, f)
  }

  ghost predicate KeptRule(now: Rule, was: Rule) {
    SameOption(now.valid, was.valid) && KeptAction(was.valid, now.action, was.action)
  }

  /** Which level each instruction belongs to. */
  ghost predicate Hosted(m: Ila, hosts: map<Instr, Ila>)
    requires m.Tree()
    decreases m.depth
  {
    && m.members <= hosts.Keys && (forall a :: a in m.members ==> hosts[a] in m.levels)
    && (forall i :: 0 <= i < |m.instrs| ==> hosts[m.instrs[i]] == m)
    && forall i :: 0 <= i < |m.childs| ==> Hosted(m.childs[i], hosts)
  }

  /** Every level and instruction below a level means what it meant. */
  ghost predicate Kept(m: Ila, hosts: map<Instr, Ila>, h: Headers, acts: Actions, h0: Headers, acts0: Actions)
    requires m.Tree() && Hosted(m, hosts)
    requires m.levels <= h.Keys && m.members <= acts.Keys && m.levels <= h0.Keys && m.members <= acts0.Keys
  {
    && (forall x :: x in m.levels ==> KeptHeader(h[x], h0[x]))
    && forall a :: a in m.members ==> KeptAction(h0[hosts[a]].valid, acts[a], acts0[a])
  }

  lemma {:induction false} KeptRules(m: Ila, hosts: map<Instr, Ila>, h: Headers, acts: Actions, h0: Headers, acts0: Actions)
    requires m.Tree() && Hosted(m, hosts)
    requires m.levels <= h.Keys && m.members <= acts.Keys && m.levels <= h0.Keys && m.members <= acts0.Keys
    requires Kept(m, hosts, h, acts, h0, acts0)
    ensures KeptEach(Rules(m, h, acts), Rules(m, h0, acts0))
    decreases m.depth, |m.childs| + 1
  {
    var own := seq(|m.instrs|, i requires 0 <= i < |m.instrs| => Rule(h[m].valid, acts[m.instrs[i]]));
    var own0 := seq(|m.instrs|, i requires 0 <= i < |m.instrs| => Rule(h0[m].valid, acts0[m.instrs[i]]));
    forall i | 0 <= i < |m.instrs| ensures KeptRule(own[i], own0[i]) {
      assert hosts[m.instrs[i]] == m && KeptHeader(h[m], h0[m]);
    }
    KeptChildRules(m, |m.childs|, hosts, h, acts, h0, acts0);
  }

  lemma {:induction false} KeptChildRules(m: Ila, n: nat, hosts: map<Instr, Ila>, h: Headers, acts: Actions, h0: Headers, acts0: Actions)
    requires m.Tree() && Hosted(m, hosts) && n <= |m.childs|
    requires m.levels <= h.Keys && m.members <= acts.Keys && m.levels <= h0.Keys && m.members <= acts0.Keys
    requires Kept(m, hosts, h, acts, h0, acts0)
    ensures KeptEach(ChildRules(m, n, h, acts), ChildRules(m, n, h0, acts0))
    decreases m.depth, n
  {
    if n > 0 {
      KeptChildRules(m, n - 1, hosts, h, acts, h0, acts0);
      KeptRules(m.childs[n - 1], hosts, h, acts, h0, acts0);
    }
  }

  ghost predicate KeptEach(now: seq<Rule>, was: seq<Rule>) {
    |now| == |was| && forall i :: 0 <= i < |was| ==> KeptRule(now[i], was[i])
  }

  lemma {:induction false} KeptTrans(m: Ila, hosts: map<Instr, Ila>, h2: Headers, acts2: Actions, h1: Headers, acts1: Actions, h0: Headers, acts0: Actions)
    requires m.Tree() && Hosted(m, hosts)
    requires m.levels <= h2.Keys && m.levels <= h1.Keys && m.levels <= h0.Keys
    requires m.members <= acts2.Keys && m.members <= acts1.Keys && m.members <= acts0.Keys
    requires Kept(m, hosts, h2, acts2, h1, acts1) && Kept(m, hosts, h1, acts1, h0, acts0)
    ensures Kept(m, hosts, h2, acts2, h0, acts0)
  {
    forall a | a in m.members ensures KeptAction(h0[hosts[a]].valid, acts2[a], acts0[a]) {
      assert KeptHeader(h1[hosts[a]], h0[hosts[a]]);
    }
  }

  /** A hierarchy in which every level and instruction means what it meant has the same runs. */
  lemma {:induction false} KeptRuns(m: Ila, hosts: map<Instr, Ila>, h: Headers, acts: Actions, h0: Headers, acts0: Actions)
    requires m.Tree() && Hosted(m, hosts)
    requires m.levels <= h.Keys && m.members <= acts.Keys && m.levels <= h0.Keys && m.members <= acts0.Keys
    requires Kept(m, hosts, h, acts, h0, acts0)
    ensures forall vars, states, choice, f: Ops ::
      Run(m, h, acts, vars, states, choice, f) <==> Run(m, h0, acts0, vars, states, choice, f)
  {
    KeptRules(m, hosts, h, acts, h0, acts0);
    forall vars, states, choice, f: Ops
      ensures Run(m, h, acts, vars, states, choice, f) <==> Run(m, h0, acts0, vars, states, choice, f)
    {
      if |states| > 0 {
        assert forall x :: x in m.levels ==> KeptHeader(h[x], h0[x]);
        assert Starts(m, h, states[0], f) <==> Starts(m, h0, states[0], f);
      }
    }
  }
}
