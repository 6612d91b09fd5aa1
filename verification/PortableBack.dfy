/** Reading the portable form back: variables level by level, then every node of the array, then
    the levels. */
module PortableBack {
  import opened Expressions
  import opened Prefixes
  import opened Portable

  /** The same expression up to the numbers of its nodes. */
  ghost predicate Like(x: Expr, y: Expr) {
    x.op == y.op && |x.args| == |y.args| && forall i :: 0 <= i < |x.args| ==> Like(x.args[i], y.args[i])
  }

  /** Such expressions have the same sort and the same value in every state. */
  lemma {:induction false} LikeMeans(x: Expr, y: Expr, s: State, f: Ops)
    requires Like(x, y)
    ensures SortOf(x) == SortOf(y) && Eval(x, s, f) == Eval(y, s, f)
  {
    forall i | 0 <= i < |x.args| ensures SortOf(x.args[i]) == SortOf(y.args[i]) && Eval(x.args[i], s, f) == Eval(y.args[i], s, f) {
      LikeMeans(x.args[i], y.args[i], s, f);
    }
    var vx := seq(|x.args|, i requires 0 <= i < |x.args| => Eval(x.args[i], s, f));
    var vy := seq(|y.args|, i requires 0 <= i < |y.args| => Eval(y.args[i], s, f));
    assert vx == vy;
  }

  ghost function OpsIn(es: set<Expr>): set<Op> {
    set e | e in es :: e.op
  }

  /** The variables a level has declared, as new nodes. */
  datatype Level = Level(inputs: seq<Expr>, states: seq<Expr>)

  ghost predicate LevelOk(lv: Level, inputs: set<Expr>, states: set<Expr>) {
    OpsIn(Elems(lv.inputs)) == OpsIn(inputs) && OpsIn(Elems(lv.states)) == OpsIn(states)
  }

  lemma {:induction false} ListedAt(arr: seq<JExpr>, nodes: seq<Expr>, k: nat)
    requires Listed(arr, nodes) && k < |nodes|
    ensures arr[k] == NodeOf(nodes[k]) && nodes[k] !in nodes[..k]
    ensures FirstIn(nodes[k].args, |nodes[k].args|, Elems(nodes[..k]))
  {
    var n := |nodes| - 1;
    if k < n {
      ListedAt(arr[..n], nodes[..n], k);
      assert nodes[..n][..k] == nodes[..k];
    }
  }

  ghost predicate IsVar(e: Expr) {
    e.op.Var? && e.args == []
  }

  /** Exactly the nodes of `s` have been rebuilt. */
  ghost predicate Mapped(idExpr: map<nat, Expr>, nodes: set<Expr>, s: set<Expr>) {
    && (forall e :: e in nodes ==> (e.id in idExpr <==> e in s))
    && forall e :: e in nodes && e in s ==> Like(e, idExpr[e.id])
  }

  class J2IDes {
    var idExpr: map<nat, Expr>
    var levels: map<string, Level>
    var next: nat

    constructor (next: nat)
      ensures idExpr == map[] && levels == map[]
    {
      idExpr, levels, this.next := map[], map[], next;
    }

    /** Declare one node as a state or an input, unless it is known already. */
    method DesVar(j: JIla, x: JExpr, before: Level, ghost e: Expr, ghost m: Ila, ghost nodes: set<Expr>, ghost t: set<Expr>) returns (lv: Level)
      requires x == NodeOf(e) && e in nodes && Unique(nodes) && Mapped(idExpr, nodes, t)
      requires j.inputs == Ids(m.inputs) && j.states == Ids(m.states) && VarsAmong(m, nodes)
      modifies this
      ensures Mapped(idExpr, nodes, t + if e in m.inputs || e in m.states then {e} else {})
      ensures levels == old(levels)
      ensures OpsIn(Elems(lv.states)) == OpsIn(Elems(before.states)) + StateOp(e, m, t)
      ensures OpsIn(Elems(lv.inputs)) == OpsIn(Elems(before.inputs)) + InputOp(e, m, t)
    {
      lv := before;
      if x.id in idExpr {
        assert t + {e} == t;
        return;
      }
      if x.op.Var? && (x.id in j.states || x.id in j.inputs) {
        var v := Expr(next, x.op, []);
        lv := AddVar(before, v, x.id in j.states);
        next, idExpr := next + 1, idExpr[x.id := v];
      }
    }

    /** Declare the level's own variables in the order of the array; those of the parent are
        inherited, and known already. */
    method DesVarUnit(j: JIla, parent: Level, arr: seq<JExpr>, ghost m: Ila, ghost nodes: seq<Expr>, ghost s: set<Expr>) returns (lv: Level)
      requires Listed(arr, nodes) && Unique(Elems(nodes)) && Mapped(idExpr, Elems(nodes), s)
      requires j.inputs == Ids(m.inputs) && j.states == Ids(m.states) && VarsAmong(m, Elems(nodes))
      modifies this
      ensures Mapped(idExpr, Elems(nodes), s + Vars(m))
      ensures levels == old(levels)[j.name := lv]
      ensures OpsIn(Elems(lv.states)) == OpsIn(Elems(parent.states)) + OpsIn(Elems(m.states) - s)
      ensures OpsIn(Elems(lv.inputs)) == OpsIn(Elems(parent.inputs)) + OpsIn(Elems(m.inputs) - Elems(m.states) - s)
    {
      lv := parent;
      for k := 0 to |arr|
        invariant Mapped(idExpr, Elems(nodes), Known(m, nodes, k, s)) && levels == old(levels)
        invariant Grown(lv, parent, m, nodes, k, s)
      {
        ListedAt(arr, nodes, k);
        lv := DesVarAt(j, arr[k], lv, parent, m, nodes, k, s);
      }
      levels := levels[j.name := lv];
    }

    method DesVarAt(j: JIla, x: JExpr, before: Level, ghost parent: Level, ghost m: Ila, ghost nodes: seq<Expr>, ghost k: nat, ghost s: set<Expr>) returns (lv: Level)
      requires k < |nodes| && x == NodeOf(nodes[k]) && nodes[k] !in nodes[..k] && Unique(Elems(nodes))
      requires Mapped(idExpr, Elems(nodes), Known(m, nodes, k, s)) && Grown(before, parent, m, nodes, k, s)
      requires j.inputs == Ids(m.inputs) && j.states == Ids(m.states) && VarsAmong(m, Elems(nodes))
      modifies this
      ensures Mapped(idExpr, Elems(nodes), Known(m, nodes, k + 1, s)) && levels == old(levels)
      ensures Grown(lv, parent, m, nodes, k + 1, s)
    {
      lv := DesVar(j, x, before, nodes[k], m, Elems(nodes), Known(m, nodes, k, s));
      GrownMore(lv, before, parent, m, nodes, k, s);
    }
  }

  ghost function Vars(m: Ila): set<Expr> {
    Elems(m.inputs) + Elems(m.states)
  }

  ghost predicate VarsAmong(m: Ila, nodes: set<Expr>) {
    Vars(m) <= nodes && forall e :: e in m.inputs || e in m.states ==> IsVar(e)
  }

  /** What is known, and what a level has newly declared, before the `k`-th node is read. */
  ghost function Known(m: Ila, nodes: seq<Expr>, k: nat, s: set<Expr>): set<Expr>
    requires k <= |nodes|
  {
    s + Vars(m) * Elems(nodes[..k])
  }

  ghost function NewStates(m: Ila, nodes: seq<Expr>, k: nat, s: set<Expr>): set<Expr>
    requires k <= |nodes|
  {
    Elems(m.states) * Elems(nodes[..k]) - s
  }

  ghost function NewInputs(m: Ila, nodes: seq<Expr>, k: nat, s: set<Expr>): set<Expr>
    requires k <= |nodes|
  {
    Elems(m.inputs) * Elems(nodes[..k]) - Elems(m.states) - s
  }

  /** What a node adds to the states and to the inputs of a level, `t` being known. */
  ghost function StateOp(e: Expr, m: Ila, t: set<Expr>): set<Op> {
    if e in m.states && e !in t then {e.op} else {}
  }

  ghost function InputOp(e: Expr, m: Ila, t: set<Expr>): set<Op> {
    if e in m.inputs && e !in m.states && e !in t then {e.op} else {}
  }

  lemma {:induction false} GrownMore(lv: Level, before: Level, parent: Level, m: Ila, nodes: seq<Expr>, k: nat, s: set<Expr>)
    requires k < |nodes| && nodes[k] !in nodes[..k] && Grown(before, parent, m, nodes, k, s)
    requires OpsIn(Elems(lv.states)) == OpsIn(Elems(before.states)) + StateOp(nodes[k], m, Known(m, nodes, k, s))
    requires OpsIn(Elems(lv.inputs)) == OpsIn(Elems(before.inputs)) + InputOp(nodes[k], m, Known(m, nodes, k, s))
    ensures Grown(lv, parent, m, nodes, k + 1, s)
    ensures Known(m, nodes, k + 1, s) == Known(m, nodes, k, s) + (if nodes[k] in m.inputs || nodes[k] in m.states then {nodes[k]} else {})
  {
  }

  /** The level holds its parent's variables and the new ones. */
  ghost predicate Grown(lv: Level, parent: Level, m: Ila, nodes: seq<Expr>, k: nat, s: set<Expr>)
    requires k <= |nodes|
  {
    && OpsIn(Elems(lv.states)) == OpsIn(Elems(parent.states)) + OpsIn(NewStates(m, nodes, k, s))
    && OpsIn(Elems(lv.inputs)) == OpsIn(Elems(parent.inputs)) + OpsIn(NewInputs(m, nodes, k, s))
  }

  function AddVar(lv: Level, v: Expr, state: bool): (after: Level)
    ensures OpsIn(Elems(after.states)) == OpsIn(Elems(lv.states)) + if state then {v.op} else {}
    ensures OpsIn(Elems(after.inputs)) == OpsIn(Elems(lv.inputs)) + if state then {} else {v.op}
  {
    if state then lv.(states := lv.states + [v]) else lv.(inputs := lv.inputs + [v])
  }
}
