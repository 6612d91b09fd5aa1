/** Reading nodes, instructions and levels, and the whole round trip. */
module PortableRoundTrip {
  import opened Options
  import opened Expressions
  import opened Prefixes
  import opened Portable
  import opened PortableBack
  import opened PortableTree

  /** Rebuild one node whose arguments have been rebuilt; variables have been declared. */
  method DesExpr(des: J2IDes, x: JExpr, ghost e: Expr, ghost nodes: set<Expr>, ghost t: set<Expr>)
    requires x == NodeOf(e) && e in nodes && Unique(nodes) && Mapped(des.idExpr, nodes, t)
    requires FirstIn(e.args, |e.args|, t * nodes) && (e.op.Var? ==> e in t)
    modifies des
    ensures Mapped(des.idExpr, nodes, t + {e}) && des.levels == old(des.levels)
  {
    if x.id in des.idExpr {
      assert t + {e} == t;
      return;
    }
    var table := des.idExpr;
    assert forall i :: 0 <= i < |x.args| ==> x.args[i] == e.args[i].id && e.args[i] in t * nodes;
    var args := seq(|x.args|, i requires 0 <= i < |x.args| && x.args[i] in table => table[x.args[i]]);
    var v := Expr(des.next, x.op, args);
    des.next, des.idExpr := des.next + 1, des.idExpr[x.id := v];
  }

  /** Rebuild every node of the array in order. */
  method DesExprs(des: J2IDes, arr: seq<JExpr>, ghost nodes: seq<Expr>, ghost s: set<Expr>)
    requires Listed(arr, nodes) && Unique(Elems(nodes)) && Mapped(des.idExpr, Elems(nodes), s)
    requires forall e :: e in nodes && e.op.Var? ==> e in s
    modifies des
    ensures Mapped(des.idExpr, Elems(nodes), s + Elems(nodes)) && des.levels == old(des.levels)
  {
    assert s + Elems(nodes[..0]) == s;
    for k := 0 to |arr|
      invariant Mapped(des.idExpr, Elems(nodes), s + Elems(nodes[..k])) && des.levels == old(des.levels)
    {
      ListedAt(arr, nodes, k);
      ghost var t := s + Elems(nodes[..k]);
      assert FirstIn(nodes[k].args, |nodes[k].args|, t * Elems(nodes));
      DesExpr(des, arr[k], nodes[k], Elems(nodes), t);
      assert nodes[..k + 1] == nodes[..k] + [nodes[k]];
      assert s + Elems(nodes[..k + 1]) == t + {nodes[k]};
    }
    assert nodes[..|nodes|] == nodes;
  }

  /** The same instruction: decode, and a next value for every state, a missing update as identity. */
  ghost predicate InstrLike(a: Instr, b: Instr, states: set<Expr>) {
    && a.name == b.name && Like(a.decode, b.decode)
    && (forall x :: x in b.updates ==> exists e :: e in states && e.op.Var? && e.op.name == x)
    && forall e :: e in states ==> NextLike(a, b, e)
  }

  /** A state's update comes back as that update, a missing one as the state itself. */
  ghost predicate NextLike(a: Instr, b: Instr, e: Expr) {
    && e.op.Var? && e.op.name in b.updates
    && if e.op.name in a.updates then Like(a.updates[e.op.name], b.updates[e.op.name]) else Like(e, b.updates[e.op.name])
  }

  /** The number written for a state is that of its update, or its own if it has none. */
  lemma {:induction false} JUpdatesAt(instr: Instr, states: seq<Expr>, n: nat, k: nat)
    requires k < n <= |states| && (forall i :: 0 <= i < n ==> states[i].op.Var?)
    requires forall i, j :: 0 <= i < j < n ==> states[i].op.name != states[j].op.name
    ensures var js, x := JUpdates(instr, states, n), states[k].op.name;
      x in js && js[x] == if x in instr.updates then instr.updates[x].id else states[k].id
    ensures forall x :: x in JUpdates(instr, states, n) ==> exists i :: 0 <= i < n && states[i].op.name == x
  {
    if k < n - 1 {
      JUpdatesAt(instr, states, n - 1, k);
    } else {
      JUpdatesNames(instr, states, n - 1);
    }
    JUpdatesNames(instr, states, n);
  }

  lemma {:induction false} JUpdatesNames(instr: Instr, states: seq<Expr>, n: nat)
    requires n <= |states| && forall i :: 0 <= i < n ==> states[i].op.Var?
    ensures forall x :: x in JUpdates(instr, states, n) ==> exists i :: 0 <= i < n && states[i].op.name == x
  {
    if n > 0 {
      JUpdatesNames(instr, states, n - 1);
    }
  }

  lemma {:induction false} NextsHold(instr: Instr, states: seq<Expr>, n: nat, k: nat)
    requires k < n <= |states|
    ensures NextOf(instr, states[k]) in NextsOf(instr, states, n)
  {
    if k < n - 1 {
      NextsHold(instr, states, n - 1, k);
    }
  }

  /** The node written for a number that some rebuilt node has. */
  ghost predicate Rebuilt(idExpr: map<nat, Expr>, nodes: set<Expr>) {
    forall e :: e in nodes ==> e.id in idExpr && Like(e, idExpr[e.id])
  }

  /** A state declared by the level stands for one of the original level. */
  lemma {:induction false} StateOf(lv: Level, inputs: set<Expr>, states: set<Expr>, v: Expr) returns (e: Expr)
    requires LevelOk(lv, inputs, states) && v in lv.states
    ensures e in states && e.op == v.op
  {
    assert v.op in OpsIn(Elems(lv.states));
    e :| e in states && e.op == v.op;
  }

  lemma {:induction false} StateIn(lv: Level, inputs: set<Expr>, states: set<Expr>, e: Expr) returns (v: Expr)
    requires LevelOk(lv, inputs, states) && e in states
    ensures v in lv.states && v.op == e.op
  {
    assert e.op in OpsIn(states);
    v :| v in Elems(lv.states) && v.op == e.op;
  }

  method DesInstr(idExpr: map<nat, Expr>, j: JInstr, lv: Level, ghost instr: Instr, ghost inputs: set<Expr>, ghost states: seq<Expr>, ghost nodes: set<Expr>) returns (r: Instr)
    requires Rebuilt(idExpr, nodes) && j == JInstrOf(instr, states) && NextsOf(instr, states, |states|) <= nodes
    requires LevelOk(lv, inputs, Elems(states)) && StatesOk(states)
    ensures InstrLike(instr, r, Elems(states))
  {
    NextsMore(instr, states, 0, |states|);
    var updates: map<string, Expr> := map[];
    for i := 0 to |lv.states|
      invariant forall x :: x in updates ==> exists e :: e in Elems(states) && e.op.Var? && e.op.name == x
      invariant forall k :: 0 <= k < i ==> lv.states[k].op.Var? && lv.states[k].op.name in updates
      invariant forall e :: e in states && e.op.Var? && e.op.name in updates ==> Like(NextOf(instr, e), updates[e.op.name])
    {
      var v := lv.states[i];
      ghost var e := StateOf(lv, inputs, Elems(states), v);
      NextIsWritten(instr, states, e, j, nodes);
      var next := idExpr[j.updates[v.op.name]];
      updates := updates[v.op.name := next];
    }
    r := Instr(j.name, idExpr[j.decode], updates);
    forall e | e in Elems(states) ensures NextLike(instr, r, e) {
      var v := StateIn(lv, inputs, Elems(states), e);
    }
  }

  /** States are variables with different names. */
  ghost predicate StatesOk(states: seq<Expr>) {
    && (forall i :: 0 <= i < |states| ==> states[i].op.Var?)
    && forall i, j :: 0 <= i < j < |states| ==> states[i].op.name != states[j].op.name
  }

  lemma {:induction false} NextIsWritten(instr: Instr, states: seq<Expr>, e: Expr, j: JInstr, nodes: set<Expr>)
    requires StatesOk(states) && e in states && j == JInstrOf(instr, states) && NextsOf(instr, states, |states|) <= nodes
    ensures e.op.name in j.updates && j.updates[e.op.name] == NextOf(instr, e).id && NextOf(instr, e) in nodes
  {
    var k :| 0 <= k < |states| && states[k] == e;
    JUpdatesAt(instr, states, |states|, k);
    NextsHold(instr, states, |states|, k);
  }

  ghost predicate AllLike(a: seq<Expr>, b: seq<Expr>) {
    |a| == |b| && forall i :: 0 <= i < |a| ==> Like(a[i], b[i])
  }

  /** A missing fetch is read back as a constant. */
  ghost predicate FetchLike(a: Option<Expr>, b: Option<Expr>) {
    b.Some? && if a.Some? then Like(a.value, b.value) else b.value.op == WordConst(1, 1)
  }

  /** The same level but for its children: variables by name and sort, expressions by structure. */
  ghost predicate LevelLike(a: Ila, b: Ila) {
    && a.name == b.name
    && OpsIn(Elems(a.inputs)) == OpsIn(Elems(b.inputs)) && OpsIn(Elems(a.states)) == OpsIn(Elems(b.states))
    && FetchLike(a.fetch, b.fetch) && Like(a.valid, b.valid) && AllLike(a.inits, b.inits)
    && InstrsLike(a.instrs, b.instrs, Elems(a.states))
  }

  ghost predicate IlaLike(a: Ila, b: Ila)
    decreases a
  {
    && LevelLike(a, b) && |a.childs| == |b.childs|
    && forall i :: 0 <= i < |a.childs| ==> IlaLike(a.childs[i], b.childs[i])
  }

  method DesAll(idExpr: map<nat, Expr>, ids: seq<nat>, ghost es: seq<Expr>, ghost nodes: set<Expr>) returns (r: seq<Expr>)
    requires Rebuilt(idExpr, nodes) && ids == Ids(es) && Elems(es) <= nodes
    ensures AllLike(es, r)
  {
    r := [];
    for i := 0 to |ids|
      invariant |r| == i && forall k :: 0 <= k < i ==> Like(es[k], r[k])
    {
      assert es[i] in Elems(es);
      r := r + [idExpr[ids[i]]];
    }
  }

  lemma {:induction false} JInstrsAt(instrs: seq<Instr>, states: seq<Expr>, n: nat, i: nat)
    requires i < n <= |instrs|
    ensures JInstrs(instrs, states, n)[i] == JInstrOf(instrs[i], states)
    ensures NextsOf(instrs[i], states, |states|) <= InstrsUse(instrs, states, n)
  {
    if i < n - 1 {
      JInstrsAt(instrs, states, n - 1, i);
    }
  }

  method DesInstrs(idExpr: map<nat, Expr>, js: seq<JInstr>, lv: Level, ghost m: Ila, ghost nodes: set<Expr>) returns (r: seq<Instr>)
    requires Rebuilt(idExpr, nodes) && js == JLevelOf(m).instrs && LevelUses(m) <= nodes
    requires LevelOk(lv, Elems(m.inputs), Elems(m.states)) && StatesOk(m.states)
    ensures InstrsLike(m.instrs, r, Elems(m.states))
  {
    r := [];
    assert |js| == |m.instrs|;
    for i := 0 to |js|
      invariant i <= |m.instrs| && InstrsLike(m.instrs[..i], r, Elems(m.states))
    {
      var instr := DesInstrAt(idExpr, js, i, lv, m, nodes);
      InstrsLikeMore(m.instrs, i, r, instr, Elems(m.states));
      r := r + [instr];
    }
    assert m.instrs[..|m.instrs|] == m.instrs;
  }

  ghost predicate InstrsLike(a: seq<Instr>, b: seq<Instr>, states: set<Expr>) {
    |a| == |b| && forall i :: 0 <= i < |a| ==> InstrLike(a[i], b[i], states)
  }

  lemma {:induction false} InstrsLikeMore(a: seq<Instr>, n: nat, b: seq<Instr>, x: Instr, states: set<Expr>)
    requires n < |a| && InstrsLike(a[..n], b, states) && InstrLike(a[n], x, states)
    ensures InstrsLike(a[..n + 1], b + [x], states)
  {
  }

  method DesInstrAt(idExpr: map<nat, Expr>, js: seq<JInstr>, i: nat, lv: Level, ghost m: Ila, ghost nodes: set<Expr>) returns (r: Instr)
    requires Rebuilt(idExpr, nodes) && js == JLevelOf(m).instrs && LevelUses(m) <= nodes && i < |js|
    requires LevelOk(lv, Elems(m.inputs), Elems(m.states)) && StatesOk(m.states)
    ensures i < |m.instrs| && InstrLike(m.instrs[i], r, Elems(m.states))
  {
    InstrIsHeld(m, i, js, nodes);
    r := DesInstr(idExpr, js[i], lv, m.instrs[i], Elems(m.inputs), m.states, nodes);
  }

  lemma {:induction false} InstrIsHeld(m: Ila, i: nat, js: seq<JInstr>, nodes: set<Expr>)
    requires js == JLevelOf(m).instrs && LevelUses(m) <= nodes && i < |m.instrs|
    ensures js[i] == JInstrOf(m.instrs[i], m.states) && NextsOf(m.instrs[i], m.states, |m.states|) <= nodes
  {
    JInstrsAt(m.instrs, m.states, |m.instrs|, i);
  }

  method DesIlaUnit(idExpr: map<nat, Expr>, j: JIla, lv: Level, next: nat, ghost m: Ila, ghost nodes: set<Expr>) returns (r: Ila)
    requires Rebuilt(idExpr, nodes) && j.(childs := []) == JLevelOf(m) && LevelUses(m) <= nodes
    requires LevelOk(lv, Elems(m.inputs), Elems(m.states)) && StatesOk(m.states)
    ensures LevelLike(m, r)
  {
    var fetch := if j.fetch.Some? && j.fetch.value in idExpr then idExpr[j.fetch.value] else Expr(next, WordConst(1, 1), []);
    var valid := if j.valid in idExpr then idExpr[j.valid] else Expr(next, BoolConst(true), []);
    var instrs := DesInstrs(idExpr, j.instrs, lv, m, nodes);
    var inits := DesAll(idExpr, j.inits, m.inits, nodes);
    r := Ila(j.name, lv.inputs, lv.states, Some(fetch), valid, instrs, inits, []);
  }

  ghost predicate StatesOkAll(m: Ila)
    decreases m
  {
    StatesOk(m.states) && forall i :: 0 <= i < |m.childs| ==> StatesOkAll(m.childs[i])
  }

  ghost predicate Readable(m: Ila, levels: map<string, Level>, nodes: set<Expr>) {
    UsesIn(m, nodes) && LevelsOk(m, levels) && StatesOkAll(m)
  }

  lemma {:induction false} ChildReadable(m: Ila, i: nat, levels: map<string, Level>, nodes: set<Expr>)
    requires Readable(m, levels, nodes) && i < |m.childs|
    ensures Readable(m.childs[i], levels, nodes) && JIlaOf(m).childs[i] == JIlaOf(m.childs[i])
  {
    assert ChildsUseIn(m, |m.childs|, nodes);
    assert JChilds(m, |m.childs|)[i] == JIlaOf(m.childs[i]);
    var child := m.childs[i];
    assert UsesIn(child, nodes) && LevelsOk(child, levels) && StatesOkAll(child);
  }

  /** Fill in a level and its children. */
  method DesIlaHier(idExpr: map<nat, Expr>, levels: map<string, Level>, j: JIla, next: nat, ghost m: Ila, ghost nodes: set<Expr>) returns (r: Ila)
    requires Rebuilt(idExpr, nodes) && j == JIlaOf(m) && Readable(m, levels, nodes)
    ensures IlaLike(m, r)
    decreases j, 1
  {
    var own := DesIlaUnit(idExpr, j, levels[j.name], next, m, nodes);
    var childs := DesChilds(idExpr, levels, j, next, m, nodes);
    r := own.(childs := childs);
  }

  method DesChilds(idExpr: map<nat, Expr>, levels: map<string, Level>, j: JIla, next: nat, ghost m: Ila, ghost nodes: set<Expr>) returns (childs: seq<Ila>)
    requires Rebuilt(idExpr, nodes) && j == JIlaOf(m) && Readable(m, levels, nodes)
    ensures ChildsLike(m, childs, |m.childs|)
    decreases j, 0, 1
  {
    childs := [];
    for i := 0 to |j.childs|
      invariant ChildsLike(m, childs, i)
    {
      var child := DesChild(idExpr, levels, j, i, next, m, nodes);
      childs := childs + [child];
    }
  }

  method DesChild(idExpr: map<nat, Expr>, levels: map<string, Level>, j: JIla, i: nat, next: nat, ghost m: Ila, ghost nodes: set<Expr>) returns (child: Ila)
    requires Rebuilt(idExpr, nodes) && j == JIlaOf(m) && Readable(m, levels, nodes) && i < |j.childs|
    ensures i < |m.childs| && IlaLike(m.childs[i], child)
    decreases j, 0, 0
  {
    ChildReadable(m, i, levels, nodes);
    child := DesIlaHier(idExpr, levels, j.childs[i], next, m.childs[i], nodes);
  }

  /** The first `n` children have been read. */
  ghost predicate ChildsLike(m: Ila, childs: seq<Ila>, n: nat) {
    n == |childs| <= |m.childs| && forall k :: 0 <= k < n ==> IlaLike(m.childs[k], childs[k])
  }

  /** Read a model from an array and a tree. */
  method DesInstrLvlAbs(j: JIla, arr: seq<JExpr>, next: nat, ghost m: Ila, ghost nodes: seq<Expr>) returns (r: Ila)
    requires Listed(arr, nodes) && Unique(Elems(nodes)) && j == JIlaOf(m) && UsesIn(m, Elems(nodes))
    requires WfTree(m, {}, {}) && UniqueNames(m) && StatesOkAll(m) && AllVars(m) <= Elems(nodes)
    requires forall e :: e in nodes && e.op.Var? ==> e in AllVars(m)
    ensures IlaLike(m, r)
  {
    var des := new J2IDes(next);
    DesVarHier(des, j, Level([], []), arr, m, {}, {}, nodes, {});
    DesExprs(des, arr, nodes, AllVars(m));
    r := DesIlaHier(des.idExpr, des.levels, j, des.next, m, Elems(nodes));
  }

  /** The variables of a well-formed model are among the expressions it holds. */
  lemma {:induction false} VarsAreHeld(m: Ila, d: set<Expr>)
    requires UsesIn(m, d)
    ensures AllVars(m) <= d
    decreases m
  {
    forall i | 0 <= i < |m.childs| ensures AllVars(m.childs[i]) <= d {
      VarsAreHeld(m.childs[i], d);
    }
  }

  /** Writing a model and reading it back gives the model again, up to node numbers. */
  method RoundTrip(m: Ila, next: nat, ghost world: set<Expr>) returns (r: Ila)
    requires Unique(world) && ClosedWorld(world) && UsesIn(m, world)
    requires WfTree(m, {}, {}) && UniqueNames(m) && StatesOkAll(m)
    requires forall e :: e in world && e.op.Var? ==> e in AllVars(m)
    ensures IlaLike(m, r)
  {
    var ser := new I2JSer(world);
    var j := ser.SerIla(m);
    VarsAreHeld(m, ser.done);
    r := DesInstrLvlAbs(j, ser.exprArr, next, m, ser.nodes);
  }

  /** The next value of a state variable: its update's, or the old one if there is none. */
  ghost function NextValue(a: Instr, e: Expr, s: State, f: Ops): Value
    requires e.op.Var?
  {
    if e.op.name in a.updates then Eval(a.updates[e.op.name], s, f) else Lookup(s, e.op.name, e.op.varSort)
  }

  /** What is read back starts, decodes and moves as the original does, in every state. */
  lemma {:induction false} SameTransitions(a: Ila, b: Ila, s: State, f: Ops)
    requires LevelLike(a, b)
    ensures Eval(a.valid, s, f) == Eval(b.valid, s, f)
    ensures forall i :: 0 <= i < |a.inits| ==> Eval(a.inits[i], s, f) == Eval(b.inits[i], s, f)
    ensures forall i :: 0 <= i < |a.instrs| ==> Eval(a.instrs[i].decode, s, f) == Eval(b.instrs[i].decode, s, f)
    ensures forall i, e :: 0 <= i < |a.instrs| && e in a.states ==>
      && NextLike(a.instrs[i], b.instrs[i], e)
      && Eval(b.instrs[i].updates[e.op.name], s, f) == NextValue(a.instrs[i], e, s, f)
  {
    LikeMeans(a.valid, b.valid, s, f);
    forall i | 0 <= i < |a.inits| ensures Eval(a.inits[i], s, f) == Eval(b.inits[i], s, f) {
      LikeMeans(a.inits[i], b.inits[i], s, f);
    }
    forall i | 0 <= i < |a.instrs| ensures Eval(a.instrs[i].decode, s, f) == Eval(b.instrs[i].decode, s, f) {
      LikeMeans(a.instrs[i].decode, b.instrs[i].decode, s, f);
    }
    forall i, e | 0 <= i < |a.instrs| && e in a.states
      ensures NextLike(a.instrs[i], b.instrs[i], e) && Eval(b.instrs[i].updates[e.op.name], s, f) == NextValue(a.instrs[i], e, s, f)
    {
      assert e in Elems(a.states) && InstrLike(a.instrs[i], b.instrs[i], Elems(a.states));
      var x := e.op.name;
      LikeMeans(if x in a.instrs[i].updates then a.instrs[i].updates[x] else e, b.instrs[i].updates[x], s, f);
    }
  }
}
