/** Runs of a hierarchy whose states give a value to each variable, and those of its copy.  A
    variable of the copy is another variable, whatever its name: states by name, as in module Hierarchy,
    could not tell a hierarchy's variables from its copy's. */
module CopyRuns {
  import opened Expressions
  import opened Rewriters
  import opened Portable
  import opened PortableBack
  import opened PortableTree
  import opened CopyTree

  /** Variables of different levels may share a name, so a state goes by the variable itself. */
  type VarState = map<Expr, Value>

  ghost function ValueIn(v: Expr, s: VarState): Value {
    Cast(if v in s then s[v] else Bool(false), SortOf(v))
  }

  ghost function EvalIn(e: Expr, s: VarState, f: Ops): Value {
    if e.op.Var? then ValueIn(e, s)
    else
      var vs := seq(|e.args|, i requires 0 <= i < |e.args| => EvalIn(e.args[i], s, f));
      Apply(e.op, vs, SortOf(e), map[], f)
  }

  /** An instruction with the valid condition of its level and the states that level can write. */
  datatype Rule = Rule(valid: Expr, states: set<Expr>, instr: Instr)

  /** The instructions of a level in order, then those of each child. */
  ghost function Rules(m: Ila): seq<Rule>
    decreases m, |m.childs| + 1
  {
    seq(|m.instrs|, i requires 0 <= i < |m.instrs| => Rule(m.valid, Elems(m.states), m.instrs[i])) + ChildRules(m, |m.childs|)
  }

  ghost function ChildRules(m: Ila, n: nat): seq<Rule>
    requires n <= |m.childs|
    decreases m, n
  {
    if n == 0 then [] else ChildRules(m, n - 1) + Rules(m.childs[n - 1])
  }

  /** The state variables of a level and the levels below. */
  ghost function StatesOf(m: Ila): set<Expr>
    decreases m, |m.childs| + 1
  {
    Elems(m.states) + ChildStates(m, |m.childs|)
  }

  ghost function ChildStates(m: Ila, n: nat): set<Expr>
    requires n <= |m.childs|
    decreases m, n
  {
    if n == 0 then {} else ChildStates(m, n - 1) + StatesOf(m.childs[n - 1])
  }

  ghost predicate Fires(r: Rule, s: VarState, f: Ops) {
    EvalIn(r.valid, s, f).IsTrue() && EvalIn(r.instr.decode, s, f).IsTrue()
  }

  predicate Writes(r: Rule, v: Expr) {
    v in r.states && v.op.Var? && v.op.name in r.instr.updates
  }

  /** A state variable of the level takes the value of its update, every other keeps its own. */
  ghost predicate Takes(r: Rule, v: Expr, s: VarState, t: VarState, f: Ops) {
    && v in t
    && if Writes(r, v) then t[v] == EvalIn(r.instr.updates[v.op.name], s, f) else v in s && t[v] == s[v]
  }

  ghost predicate Moves(r: Rule, vars: set<Expr>, s: VarState, t: VarState, f: Ops) {
    Fires(r, s, f) && forall v :: v in vars ==> Takes(r, v, s, t, f)
  }

  ghost predicate AllTrue(es: seq<Expr>, s: VarState, f: Ops) {
    forall i :: 0 <= i < |es| ==> EvalIn(es[i], s, f).IsTrue()
  }

  /** The initial conditions of a level and the levels below hold. */
  ghost predicate Starts(m: Ila, s: VarState, f: Ops)
    decreases m
  {
    AllTrue(m.inits, s, f) && forall i :: 0 <= i < |m.childs| ==> Starts(m.childs[i], s, f)
  }

  ghost predicate Steps(rules: seq<Rule>, vars: set<Expr>, states: seq<VarState>, choice: seq<nat>, f: Ops) {
    && |states| == |choice| + 1
    && forall k :: 0 <= k < |choice| ==> choice[k] < |rules| && Moves(rules[choice[k]], vars, states[k], states[k + 1], f)
  }

  ghost predicate Run(m: Ila, states: seq<VarState>, choice: seq<nat>, f: Ops) {
    Steps(Rules(m), StatesOf(m), states, choice, f) && Starts(m, states[0], f)
  }

  // ----- states under a table of variables -----

  ghost predicate Renaming(table: map<Expr, Expr>) {
    Renames(table) && Injective(table)
  }

  /** The variable a copy was made of. */
  ghost function Source(w: Expr, table: map<Expr, Expr>): (v: Expr)
    requires w in table.Values
    ensures v in table && table[v] == w
  {
    var v :| v in table && table[v] == w;
    v
  }

  ghost function Inverse(table: map<Expr, Expr>): (back: map<Expr, Expr>)
    ensures back.Keys == table.Values
  {
    map w | w in table.Values :: Source(w, table)
  }

  /** The state that gives a copy the value of its variable. */
  ghost function Image(s: VarState, table: map<Expr, Expr>): (t: VarState)
    ensures t.Keys <= table.Values
  {
    map w | w in table.Values && Source(w, table) in s :: s[Source(w, table)]
  }

  ghost function ImagesOf(states: seq<VarState>, table: map<Expr, Expr>): (r: seq<VarState>)
    ensures |r| == |states| && forall k :: 0 <= k < |states| ==> r[k] == Image(states[k], table)
  {
    seq(|states|, k requires 0 <= k < |states| => Image(states[k], table))
  }

  lemma {:induction false} InverseIsInjective(table: map<Expr, Expr>)
    requires Injective(table)
    ensures Injective(Inverse(table)) && Inverse(table).Values == table.Keys
    ensures forall v :: v in table ==> table[v] in Inverse(table) && Inverse(table)[table[v]] == v
  {
    forall v | v in table ensures Inverse(table)[table[v]] == v && v in Inverse(table).Values {
      assert Source(table[v], table) == v;
      assert table[v] in Inverse(table);
    }
  }

  lemma {:induction false} InverseTwice(table: map<Expr, Expr>)
    requires Injective(table)
    ensures Inverse(Inverse(table)) == table
  {
    InverseIsInjective(table);
    forall v | v in table ensures Inverse(Inverse(table))[v] == table[v] {
      assert Inverse(table)[table[v]] == v;
      assert Inverse(table)[Source(v, Inverse(table))] == v;
    }
  }

  /** No state of the variables is lost and every state of their copies is met. */
  lemma {:induction false} ImageOneToOne(s: VarState, table: map<Expr, Expr>)
    requires Injective(table) && s.Keys <= table.Keys
    ensures Image(Image(s, table), Inverse(table)) == s
  {
    InverseIsInjective(table);
    forall v | v in table
      ensures v in Image(Image(s, table), Inverse(table)) <==> v in s
      ensures v in s ==> Image(Image(s, table), Inverse(table))[v] == s[v]
    {
    }
  }

  // ----- values -----

  lemma {:induction false} SortStays(r: Expr, e: Expr, table: map<Expr, Expr>)
    requires Substituted(r, e, table) && Renames(table)
    ensures SortOf(r) == SortOf(e)
  {
    if e !in table && e.op.IsOp() {
      match e.op
      case Ite => if |e.args| == 3 { SortStays(r.args[1], e.args[1], table); }
      case Load => if |e.args| == 2 { SortStays(r.args[0], e.args[0], table); }
      case Store => if |e.args| == 3 { SortStays(r.args[0], e.args[0], table); }
      case _ =>
    }
  }

  /** Substitution commutes with evaluation: with the variables' copies in place, an expression has
      in the image of a state the value it had in the state. */
  lemma {:induction false} SubstitutedValue(r: Expr, e: Expr, table: map<Expr, Expr>, s: VarState, f: Ops)
    requires Substituted(r, e, table) && VarsOf(e) <= table.Keys && Renaming(table)
    ensures EvalIn(r, Image(s, table), f) == EvalIn(e, s, f)
    decreases e
  {
    if e !in table && e.op.IsOp() {
      var t := Image(s, table);
      var vs := seq(|e.args|, i requires 0 <= i < |e.args| => EvalIn(e.args[i], s, f));
      var ws := seq(|r.args|, i requires 0 <= i < |r.args| => EvalIn(r.args[i], t, f));
      forall i | 0 <= i < |e.args| ensures ws[i] == vs[i] {
        assert VarsOf(e.args[i]) <= VarsOf(e);
        SubstitutedValue(r.args[i], e.args[i], table, s, f);
      }
      assert vs == ws;
      SortStays(r, e, table);
    }
  }

  /** An expression and the same with the table put in place of its variables. */
  ghost predicate PutIn(r: Expr, e: Expr, table: map<Expr, Expr>) {
    Substituted(r, e, table) && VarsOf(e) <= table.Keys
  }

  // ----- rules and initial conditions -----

  ghost predicate CopiedRule(r: Rule, a: Rule, table: map<Expr, Expr>) {
    && PutIn(r.valid, a.valid, table) && a.states <= table.Keys && r.states == Images(a.states, table)
    && PutIn(r.instr.decode, a.instr.decode, table) && r.instr.updates.Keys == a.instr.updates.Keys
    && forall x :: x in a.instr.updates ==> PutIn(r.instr.updates[x], a.instr.updates[x], table)
  }

  ghost predicate CopiedEach(rs: seq<Rule>, rules: seq<Rule>, table: map<Expr, Expr>) {
    |rs| == |rules| && forall i :: 0 <= i < |rules| ==> CopiedRule(rs[i], rules[i], table)
  }

  lemma {:induction false} CopiedRules(r: Ila, m: Ila, table: map<Expr, Expr>)
    requires CopiedTree(r, m, table)
    ensures CopiedEach(Rules(r), Rules(m), table)
    decreases m, |m.childs| + 1
  {
    CopiedChildRules(r, m, |m.childs|, table);
    forall i | 0 <= i < |m.instrs|
      ensures CopiedRule(Rule(r.valid, Elems(r.states), r.instrs[i]), Rule(m.valid, Elems(m.states), m.instrs[i]), table)
    {
    }
  }

  lemma {:induction false} CopiedChildRules(r: Ila, m: Ila, n: nat, table: map<Expr, Expr>)
    requires CopiedTree(r, m, table) && n <= |m.childs|
    ensures CopiedEach(ChildRules(r, n), ChildRules(m, n), table)
    decreases m, n
  {
    if n > 0 {
      CopiedChildRules(r, m, n - 1, table);
      CopiedRules(r.childs[n - 1], m.childs[n - 1], table);
    }
  }

  lemma {:induction false} CopiedStates(r: Ila, m: Ila, table: map<Expr, Expr>)
    requires CopiedTree(r, m, table)
    ensures StatesOf(m) <= table.Keys && StatesOf(r) == Images(StatesOf(m), table)
    decreases m, |m.childs| + 1
  {
    CopiedChildStates(r, m, |m.childs|, table);
    ImagesUnion(Elems(m.states), ChildStates(m, |m.childs|), table);
  }

  lemma {:induction false} CopiedChildStates(r: Ila, m: Ila, n: nat, table: map<Expr, Expr>)
    requires CopiedTree(r, m, table) && n <= |m.childs|
    ensures ChildStates(m, n) <= table.Keys && ChildStates(r, n) == Images(ChildStates(m, n), table)
    decreases m, n
  {
    if n > 0 {
      CopiedChildStates(r, m, n - 1, table);
      CopiedStates(r.childs[n - 1], m.childs[n - 1], table);
      ImagesUnion(ChildStates(m, n - 1), StatesOf(m.childs[n - 1]), table);
    }
  }

  lemma {:induction false} ImagesUnion(a: set<Expr>, b: set<Expr>, table: map<Expr, Expr>)
    ensures Images(a + b, table) == Images(a, table) + Images(b, table)
  {
  }

  lemma {:induction false} CopiedStarts(r: Ila, m: Ila, table: map<Expr, Expr>, s: VarState, f: Ops)
    requires CopiedTree(r, m, table) && Renaming(table)
    ensures Starts(r, Image(s, table), f) <==> Starts(m, s, f)
    decreases m
  {
    forall i | 0 <= i < |m.inits| ensures EvalIn(r.inits[i], Image(s, table), f) == EvalIn(m.inits[i], s, f) {
      assert Copied(r.inits[i], m.inits[i], table, Vars(r));
      SubstitutedValue(r.inits[i], m.inits[i], table, s, f);
    }
    forall i | 0 <= i < |m.childs| ensures Starts(r.childs[i], Image(s, table), f) <==> Starts(m.childs[i], s, f) {
      CopiedStarts(r.childs[i], m.childs[i], table, s, f);
    }
  }

  lemma {:induction false} CopiedTakes(r: Rule, a: Rule, v: Expr, table: map<Expr, Expr>, s: VarState, t: VarState, f: Ops)
    requires CopiedRule(r, a, table) && Renaming(table) && v in table
    ensures Takes(r, table[v], Image(s, table), Image(t, table), f) <==> Takes(a, v, s, t, f)
  {
    if Writes(a, v) {
      SubstitutedValue(r.instr.updates[v.op.name], a.instr.updates[v.op.name], table, s, f);
    }
  }

  lemma {:induction false} CopiedMoves(r: Rule, a: Rule, vars: set<Expr>, table: map<Expr, Expr>, s: VarState, t: VarState, f: Ops)
    requires CopiedRule(r, a, table) && Renaming(table) && vars <= table.Keys
    ensures Moves(r, Images(vars, table), Image(s, table), Image(t, table), f) <==> Moves(a, vars, s, t, f)
  {
    SubstitutedValue(r.valid, a.valid, table, s, f);
    SubstitutedValue(r.instr.decode, a.instr.decode, table, s, f);
    forall v | v in vars
      ensures table[v] in Images(vars, table) && (Takes(r, table[v], Image(s, table), Image(t, table), f) <==> Takes(a, v, s, t, f))
    {
      CopiedTakes(r, a, v, table, s, t, f);
    }
  }

  lemma {:induction false} CopiedSteps(rs: seq<Rule>, rules: seq<Rule>, vars: set<Expr>, table: map<Expr, Expr>, states: seq<VarState>, choice: seq<nat>, f: Ops)
    requires CopiedEach(rs, rules, table) && Renaming(table) && vars <= table.Keys
    ensures Steps(rs, Images(vars, table), ImagesOf(states, table), choice, f) <==> Steps(rules, vars, states, choice, f)
  {
    var ts := ImagesOf(states, table);
    if |states| == |choice| + 1 {
      forall k | 0 <= k < |choice| && choice[k] < |rules|
        ensures Moves(rs[choice[k]], Images(vars, table), ts[k], ts[k + 1], f) <==> Moves(rules[choice[k]], vars, states[k], states[k + 1], f)
      {
        CopiedMoves(rs[choice[k]], rules[choice[k]], vars, table, states[k], states[k + 1], f);
      }
    }
  }

  // ----- runs -----

  /** States are a run of a level and its children exactly if their images are a run of the copy. */
  ghost predicate RunsMatch(r: Ila, m: Ila, table: map<Expr, Expr>) {
    forall states, choice, f: Ops :: Run(m, states, choice, f) <==> Run(r, ImagesOf(states, table), choice, f)
  }

  lemma {:induction false} LevelRuns(r: Ila, m: Ila, table: map<Expr, Expr>)
    requires CopiedTree(r, m, table) && Renaming(table)
    ensures RunsMatch(r, m, table)
  {
    CopiedRules(r, m, table);
    CopiedStates(r, m, table);
    forall states, choice, f: Ops ensures Run(m, states, choice, f) <==> Run(r, ImagesOf(states, table), choice, f) {
      CopiedSteps(Rules(r), Rules(m), StatesOf(m), table, states, choice, f);
      if |states| > 0 {
        CopiedStarts(r, m, table, states[0], f);
      }
    }
  }

  ghost predicate RunsMatchBelow(r: Ila, m: Ila, table: map<Expr, Expr>)
    decreases m
  {
    && RunsMatch(r, m, table) && |r.childs| == |m.childs|
    && forall i :: 0 <= i < |m.childs| ==> RunsMatchBelow(r.childs[i], m.childs[i], table)
  }

  /** At every level of a hierarchy the runs of its copy are those of the level, under the map of
      variables the copy was made with. */
  lemma {:induction false} CopyHasRuns(r: Ila, m: Ila, table: map<Expr, Expr>)
    requires CopiedTree(r, m, table) && Renaming(table)
    ensures RunsMatchBelow(r, m, table)
    decreases m
  {
    LevelRuns(r, m, table);
    forall i | 0 <= i < |m.childs| ensures RunsMatchBelow(r.childs[i], m.childs[i], table) {
      CopyHasRuns(r.childs[i], m.childs[i], table);
    }
  }

  ghost predicate Over(states: seq<VarState>, vars: set<Expr>) {
    forall k :: 0 <= k < |states| ==> states[k].Keys <= vars
  }

  lemma {:induction false} ImagesBack(states: seq<VarState>, table: map<Expr, Expr>)
    requires Injective(table) && Over(states, table.Keys)
    ensures ImagesOf(ImagesOf(states, table), Inverse(table)) == states
  {
    forall k | 0 <= k < |states| ensures Image(Image(states[k], table), Inverse(table)) == states[k] {
      ImageOneToOne(states[k], table);
    }
  }

  /** A run of the copy over its variables is the image of a run, and of no other states. */
  lemma {:induction false} CopyRunComesFrom(r: Ila, m: Ila, table: map<Expr, Expr>, ts: seq<VarState>, choice: seq<nat>, f: Ops)
    requires CopiedTree(r, m, table) && Renaming(table) && Over(ts, table.Values)
    ensures var states := ImagesOf(ts, Inverse(table));
      && ImagesOf(states, table) == ts && (Run(r, ts, choice, f) <==> Run(m, states, choice, f))
      && forall other :: Over(other, table.Keys) && ImagesOf(other, table) == ts ==> other == states
  {
    InverseIsInjective(table);
    InverseTwice(table);
    ImagesBack(ts, Inverse(table));
    LevelRuns(r, m, table);
    forall other | Over(other, table.Keys) && ImagesOf(other, table) == ts ensures other == ImagesOf(ts, Inverse(table)) {
      ImagesBack(other, table);
    }
  }
}
