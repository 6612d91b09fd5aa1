/** The portable form of a model: one array of expression nodes, and a tree of levels that refer to
    nodes by number.  The serializer.  Writing, reading and copying overwrite nothing in a model that is
    there, so a model is a value here; module Hierarchy has the objects that the passes change. */
module Portable {
  import opened Options
  import opened Expressions
  import opened Prefixes
  import opened Rewriters

  datatype Instr = Instr(name: string, decode: Expr, updates: map<string, Expr>)

  datatype Ila = Ila(name: string, inputs: seq<Expr>, states: seq<Expr>, fetch: Option<Expr>, valid: Expr,
                     instrs: seq<Instr>, inits: seq<Expr>, childs: seq<Ila>)

  datatype JExpr = JExpr(id: nat, op: Op, args: seq<nat>)

  datatype JInstr = JInstr(name: string, decode: nat, updates: map<string, nat>)

  datatype JIla = JIla(name: string, inputs: seq<nat>, states: seq<nat>, fetch: Option<nat>, valid: nat,
                       instrs: seq<JInstr>, inits: seq<nat>, childs: seq<JIla>)

  function Ids(es: seq<Expr>): (ids: seq<nat>)
    ensures |ids| == |es| && forall i :: 0 <= i < |es| ==> ids[i] == es[i].id
  {
    seq(|es|, i requires 0 <= i < |es| => es[i].id)
  }

  function NodeOf(e: Expr): JExpr {
    JExpr(e.id, e.op, Ids(e.args))
  }

  /** The next value of a state; a missing update leaves it. */
  function NextOf(instr: Instr, state: Expr): Expr {
    if state.op.Var? && state.op.name in instr.updates then instr.updates[state.op.name] else state
  }

  /** Nodes with one number are one node. */
  ghost predicate Unique(world: set<Expr>) {
    forall x, y :: x in world && y in world && x.id == y.id ==> x == y
  }

  ghost predicate ClosedWorld(world: set<Expr>) {
    forall x :: x in world ==> FirstIn(x.args, |x.args|, world)
  }

  /** The array holds these nodes, each once and after its arguments. */
  ghost predicate Listed(arr: seq<JExpr>, nodes: seq<Expr>) {
    && |arr| == |nodes|
    && (nodes != [] ==>
         var n := |nodes| - 1;
         && Listed(arr[..n], nodes[..n])
         && arr[n] == NodeOf(nodes[n]) && nodes[n] !in nodes[..n]
         && FirstIn(nodes[n].args, |nodes[n].args|, Elems(nodes[..n])))
  }

  /** The updates an instruction is written with: every state has one. */
  function JUpdates(instr: Instr, states: seq<Expr>, n: nat): map<string, nat>
    requires n <= |states|
  {
    if n == 0 then map[]
    else
      var before := JUpdates(instr, states, n - 1);
      var s := states[n - 1];
      if s.op.Var? && s.op.name !in before then before[s.op.name := NextOf(instr, s).id] else before
  }

  function JInstrOf(instr: Instr, states: seq<Expr>): JInstr {
    JInstr(instr.name, instr.decode.id, JUpdates(instr, states, |states|))
  }

  function JInstrs(instrs: seq<Instr>, states: seq<Expr>, n: nat): (js: seq<JInstr>)
    requires n <= |instrs|
    ensures |js| == n
  {
    if n == 0 then [] else JInstrs(instrs, states, n - 1) + [JInstrOf(instrs[n - 1], states)]
  }

  /** The tree of a model: everything by number. */
  function JIlaOf(m: Ila): JIla
    decreases m, |m.childs| + 1
  {
    JLevelOf(m).(childs := JChilds(m, |m.childs|))
  }

  function JLevelOf(m: Ila): JIla {
    JIla(m.name, Ids(m.inputs), Ids(m.states), if m.fetch.Some? then Some(m.fetch.value.id) else None, m.valid.id,
         JInstrs(m.instrs, m.states, |m.instrs|), Ids(m.inits), [])
  }

  function JChilds(m: Ila, n: nat): (js: seq<JIla>)
    requires n <= |m.childs|
    ensures |js| == n
    decreases m, n
  {
    seq(n, i requires 0 <= i < n => JIlaOf(m.childs[i]))
  }

  lemma {:induction false} JChildsMore(m: Ila, n: nat)
    requires n < |m.childs|
    ensures JChilds(m, n + 1) == JChilds(m, n) + [JIlaOf(m.childs[n])]
  {
  }

  function Elems(es: seq<Expr>): set<Expr> {
    set e | e in es
  }

  function NextsOf(instr: Instr, states: seq<Expr>, n: nat): set<Expr>
    requires n <= |states|
  {
    if n == 0 then {instr.decode} else NextsOf(instr, states, n - 1) + {NextOf(instr, states[n - 1])}
  }

  function InstrsUse(instrs: seq<Instr>, states: seq<Expr>, n: nat): set<Expr>
    requires n <= |instrs|
  {
    if n == 0 then {} else InstrsUse(instrs, states, n - 1) + NextsOf(instrs[n - 1], states, |states|)
  }

  /** The expressions a level holds. */
  function LevelUses(m: Ila): set<Expr> {
    Elems(m.inputs) + Elems(m.states) + (if m.fetch.Some? then {m.fetch.value} else {}) + {m.valid}
    + InstrsUse(m.instrs, m.states, |m.instrs|) + Elems(m.inits)
  }

  /** All expressions a model holds, at every level, are among these. */
  ghost predicate UsesIn(m: Ila, d: set<Expr>)
    decreases m, |m.childs| + 1
  {
    LevelUses(m) <= d && ChildsUseIn(m, |m.childs|, d)
  }

  ghost predicate ChildsUseIn(m: Ila, n: nat, d: set<Expr>)
    requires n <= |m.childs|
    decreases m, n
  {
    forall i :: 0 <= i < n ==> UsesIn(m.childs[i], d)
  }

  lemma {:induction false} UsesInMore(m: Ila, d: set<Expr>, d2: set<Expr>)
    requires UsesIn(m, d) && d <= d2
    ensures UsesIn(m, d2)
    decreases m
  {
    forall i | 0 <= i < |m.childs| ensures UsesIn(m.childs[i], d2) {
      UsesInMore(m.childs[i], d, d2);
    }
  }

  lemma {:induction false} OneMoreChild(m: Ila, n: nat, d: set<Expr>, d2: set<Expr>)
    requires n < |m.childs| && ChildsUseIn(m, n, d) && d <= d2 && UsesIn(m.childs[n], d2)
    ensures ChildsUseIn(m, n + 1, d2)
  {
    forall i | 0 <= i < n ensures UsesIn(m.childs[i], d2) {
      UsesInMore(m.childs[i], d, d2);
    }
  }

  lemma {:induction false} InstrsUseMore(instrs: seq<Instr>, states: seq<Expr>, k: nat, n: nat)
    requires k <= n <= |instrs|
    ensures InstrsUse(instrs, states, k) <= InstrsUse(instrs, states, n)
  {
    if k < n {
      InstrsUseMore(instrs, states, k, n - 1);
    }
  }

  lemma {:induction false} NextsMore(instr: Instr, states: seq<Expr>, k: nat, n: nat)
    requires k <= n <= |states|
    ensures NextsOf(instr, states, k) <= NextsOf(instr, states, n)
  {
    if k < n {
      NextsMore(instr, states, k, n - 1);
    }
  }

  class I2JSer {
    var exprArr: seq<JExpr>
    var idIdx: map<nat, nat>
    ghost var nodes: seq<Expr>
    ghost var done: set<Expr>
    ghost const world: set<Expr>

    constructor (ghost world: set<Expr>)
      requires Unique(world) && ClosedWorld(world)
      ensures this.world == world && nodes == [] && done == {} && Valid()
    {
      exprArr, idIdx, nodes, done, this.world := [], map[], [], {}, world;
    }

    ghost predicate Valid()
      reads this
    {
      && Unique(world) && ClosedWorld(world) && done <= world
      && Listed(exprArr, nodes) && done == Elems(nodes)
      && forall e :: e in world ==> Filed(e)
    }

    /** The index of a number is that of the node in the array. */
    ghost predicate Filed(e: Expr)
      reads this
    {
      (e.id in idIdx <==> e in done) && (e.id in idIdx ==> idIdx[e.id] < |exprArr| && exprArr[idIdx[e.id]].id == e.id)
    }

    /** The node of one expression whose arguments are in the array. */
    method SerExprUnit(e: Expr)
      requires Valid() && e in world && FirstIn(e.args, |e.args|, done)
      modifies this
      ensures Valid() && done == old(done) + {e}
      ensures nodes == if e in old(nodes) then old(nodes) else old(nodes) + [e]
    {
      if e.id in idIdx {
        return;
      }
      idIdx := idIdx[e.id := |exprArr|];
      exprArr := exprArr + [NodeOf(e)];
      ghost var before := nodes;
      nodes, done := nodes + [e], done + {e};
      forall x | x in world ensures Filed(x) {
        assert old(Filed(x)) && (x.id == e.id ==> x == e);
      }
    }

    /** All parts of an expression, arguments first. */
    method SerExpr(e: Expr) returns (id: nat)
      requires Valid() && e in world
      modifies this
      ensures Valid() && old(done) <= done && e in done && id == e.id
      decreases e
    {
      for i := 0 to |e.args|
        invariant Valid() && old(done) <= done
        invariant FirstIn(e.args, i, done)
      {
        ghost var before := done;
        var _ := SerExpr(e.args[i]);
        OneMoreIn(e.args, i, before, done);
      }
      SerExprUnit(e);
      id := exprArr[idIdx[e.id]].id;
    }

    method SerAll(es: seq<Expr>) returns (ids: seq<nat>)
      requires Valid() && Elems(es) <= world
      modifies this
      ensures Valid() && old(done) <= done
      ensures ids == Ids(es) && Elems(es) <= done
    {
      ids := [];
      for i := 0 to |es|
        invariant Valid() && old(done) <= done && ids == Ids(es)[..i]
        invariant FirstIn(es, i, done)
      {
        ghost var before := done;
        var id := SerExpr(es[i]);
        OneMoreIn(es, i, before, done);
        ids := ids + [id];
      }
    }

    /** An instruction: decode, and the next value of every state, itself if it has no update. */
    method SerInstr(instr: Instr, states: seq<Expr>) returns (j: JInstr)
      requires Valid() && NextsOf(instr, states, |states|) <= world
      modifies this
      ensures Valid() && old(done) <= done
      ensures j == JInstrOf(instr, states) && NextsOf(instr, states, |states|) <= done
    {
      NextsMore(instr, states, 0, |states|);
      var decode := SerExpr(instr.decode);
      var updates := SerUpdates(instr, states);
      j := JInstr(instr.name, decode, updates);
    }

    method SerUpdates(instr: Instr, states: seq<Expr>) returns (updates: map<string, nat>)
      requires Valid() && NextsOf(instr, states, |states|) <= world && instr.decode in done
      modifies this
      ensures Valid() && old(done) <= done
      ensures updates == JUpdates(instr, states, |states|) && NextsOf(instr, states, |states|) <= done
    {
      updates := map[];
      for i := 0 to |states|
        invariant Valid() && old(done) <= done
        invariant updates == JUpdates(instr, states, i) && NextsOf(instr, states, i) <= done
      {
        NextsMore(instr, states, i + 1, |states|);
        var next := NextOf(instr, states[i]);
        var id := SerExpr(next);
        if states[i].op.Var? && states[i].op.name !in updates {
          updates := updates[states[i].op.name := id];
        }
      }
    }

    method SerInstrs(instrs: seq<Instr>, states: seq<Expr>) returns (js: seq<JInstr>)
      requires Valid() && InstrsUse(instrs, states, |instrs|) <= world
      modifies this
      ensures Valid() && old(done) <= done
      ensures js == JInstrs(instrs, states, |instrs|) && InstrsUse(instrs, states, |instrs|) <= done
    {
      js := [];
      for i := 0 to |instrs|
        invariant Valid() && old(done) <= done
        invariant js == JInstrs(instrs, states, i) && InstrsUse(instrs, states, i) <= done
      {
        var j := SerNth(instrs, states, i);
        js := js + [j];
      }
    }

    method SerNth(instrs: seq<Instr>, states: seq<Expr>, i: nat) returns (j: JInstr)
      requires Valid() && i < |instrs| && InstrsUse(instrs, states, |instrs|) <= world && InstrsUse(instrs, states, i) <= done
      modifies this
      ensures Valid() && old(done) <= done
      ensures j == JInstrOf(instrs[i], states) && InstrsUse(instrs, states, i + 1) <= done
    {
      InstrsUseMore(instrs, states, i + 1, |instrs|);
      ghost var before := done;
      j := SerInstr(instrs[i], states);
    }

    method SerFetch(fetch: Option<Expr>) returns (j: Option<nat>)
      requires Valid() && (fetch.Some? ==> fetch.value in world)
      modifies this
      ensures Valid() && old(done) <= done
      ensures fetch.Some? ==> fetch.value in done
      ensures j == if fetch.Some? then Some(fetch.value.id) else None
    {
      j := None;
      if fetch.Some? {
        var id := SerExpr(fetch.value);
        j := Some(id);
      }
    }

    method SerLevel(m: Ila) returns (j: JIla)
      requires Valid() && LevelUses(m) <= world
      modifies this
      ensures Valid() && old(done) <= done
      ensures j == JLevelOf(m) && LevelUses(m) <= done
    {
      var inputs := SerAll(m.inputs);
      var states := SerAll(m.states);
      var fetch := SerFetch(m.fetch);
      var valid := SerExpr(m.valid);
      var instrs := SerInstrs(m.instrs, m.states);
      var inits := SerAll(m.inits);
      j := JIla(m.name, inputs, states, fetch, valid, instrs, inits, []);
    }

    /** A level and its children; every expression held is in the array. */
    method SerIla(m: Ila) returns (j: JIla)
      requires Valid() && UsesIn(m, world)
      modifies this
      ensures Valid() && old(done) <= done
      ensures j == JIlaOf(m) && UsesIn(m, done)
      decreases m, 1
    {
      var own := SerLevel(m);
      var childs := SerChilds(m);
      j := own.(childs := childs);
    }

    method SerChilds(m: Ila) returns (js: seq<JIla>)
      requires Valid() && ChildsUseIn(m, |m.childs|, world)
      modifies this
      ensures Valid() && old(done) <= done
      ensures js == JChilds(m, |m.childs|) && ChildsUseIn(m, |m.childs|, done)
      decreases m, 0
    {
      js := [];
      for i := 0 to |m.childs|
        invariant Valid() && old(done) <= done
        invariant js == JChilds(m, i) && ChildsUseIn(m, i, done)
      {
        ghost var before := done;
        var child := SerIla(m.childs[i]);
        OneMoreChild(m, i, before, done);
        JChildsMore(m, i);
        js := js + [child];
      }
    }
  }
}
