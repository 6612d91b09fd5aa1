/** The exported module as a whole: what its always block does in one clock. */
module VerilogExport {
  import opened WordWrites
  import opened Expressions
  import opened VerilogMemory

  datatype Instruction = Instruction(decode: Expr, updates: map<string, Expr>)
  datatype StateVar = StateVar(name: string, sort: Sort)

  function VarOf(v: StateVar): Expr {
    Expr(0, Var(v.name, v.sort), [])
  }

  /** The updates of a memory under their decodes, the last instruction outermost. */
  function Chain(instrs: seq<Instruction>, v: StateVar): Expr {
    if instrs == [] then VarOf(v)
    else
      var front, last := instrs[..|instrs| - 1], instrs[|instrs| - 1];
      if v.name in last.updates then Select(last.decode, last.updates[v.name], Chain(front, v)) else Chain(front, v)
  }

  /** The arms of a register, the first instruction tested first. */
  function Arms(instrs: seq<Instruction>, v: StateVar): seq<Arm> {
    if instrs == [] then []
    else
      var front, last := instrs[..|instrs| - 1], instrs[|instrs| - 1];
      Arms(front, v) + if v.name in last.updates then [Arm(|front|, last.updates[v.name])] else []
  }

  predicate Exportable(instrs: seq<Instruction>, v: StateVar) {
    v.sort.MemSort? ==> forall i :: 0 <= i < |instrs| ==>
      v.name in instrs[i].updates ==> CheckMemUpdateNode(instrs[i].updates[v.name], v.name)
  }

  lemma {:induction false} ChainIsExportable(instrs: seq<Instruction>, v: StateVar)
    requires Exportable(instrs, v) && v.sort.MemSort?
    ensures CheckMemUpdateNode(Chain(instrs, v), v.name)
  {
    if instrs != [] {
      var front := instrs[..|instrs| - 1];
      assert forall i :: 0 <= i < |front| ==> front[i] == instrs[i];
      ChainIsExportable(front, v);
    }
  }

  const True := Expr(0, BoolConst(true), [])

  function RegStmtsOf(instrs: seq<Instruction>, v: StateVar): seq<RegStmt> {
    if !v.sort.MemSort? && Arms(instrs, v) != [] then [RegStmt(v.name, Arms(instrs, v))] else []
  }

  function PortStmts(v: StateVar, cs: seq<MemWrite>): seq<MemStmt> {
    seq(MaxPorts(cs), p requires 0 <= p < MaxPorts(cs) => MemStmt(v.name, PortOf(cs, p)))
  }

  function MemBlock(instrs: seq<Instruction>, v: StateVar): seq<MemStmt>
    requires Exportable(instrs, v)
  {
    if v.sort.MemSort? then
      ChainIsExportable(instrs, v);
      PortStmts(v, Collected(Chain(instrs, v), v.name, True, []))
    else []
  }

  predicate AllExportable(instrs: seq<Instruction>, vars: seq<StateVar>) {
    forall k :: 0 <= k < |vars| ==> Exportable(instrs, vars[k])
  }

  /** The first `n` blocks one after the other. */
  function Flat<T>(blocks: seq<seq<T>>, n: nat): seq<T>
    requires n <= |blocks|
  {
    if n == 0 then [] else Flat(blocks, n - 1) + blocks[n - 1]
  }

  lemma {:induction false} FlatNext<T>(start: seq<T>, blocks: seq<seq<T>>, n: nat)
    requires n < |blocks|
    ensures start + Flat(blocks, n + 1) == start + Flat(blocks, n) + blocks[n]
  {
  }

  function MemStmtBlocks(instrs: seq<Instruction>, vars: seq<StateVar>): (blocks: seq<seq<MemStmt>>)
    requires AllExportable(instrs, vars)
    ensures |blocks| == |vars| && forall k :: 0 <= k < |vars| ==> blocks[k] == MemBlock(instrs, vars[k])
  {
    seq(|vars|, k requires 0 <= k < |vars| => MemBlock(instrs, vars[k]))
  }

  function RegStmtBlocks(instrs: seq<Instruction>, vars: seq<StateVar>): (blocks: seq<seq<RegStmt>>)
    ensures |blocks| == |vars| && forall k :: 0 <= k < |vars| ==> blocks[k] == RegStmtsOf(instrs, vars[k])
  {
    seq(|vars|, k requires 0 <= k < |vars| => RegStmtsOf(instrs, vars[k]))
  }

  function RegStmts(instrs: seq<Instruction>, vars: seq<StateVar>): seq<RegStmt> {
    Flat(RegStmtBlocks(instrs, vars), |vars|)
  }

  function MemStmts(instrs: seq<Instruction>, vars: seq<StateVar>): seq<MemStmt>
    requires AllExportable(instrs, vars)
  {
    Flat(MemStmtBlocks(instrs, vars), |vars|)
  }

  method ExportMemory(gen: VerilogGenerator, instrs: seq<Instruction>, v: StateVar)
    requires Exportable(instrs, v) && v.sort.MemSort?
    modifies gen
    ensures gen.iteStmts == old(gen.iteStmts) + MemBlock(instrs, v)
    ensures gen.alwaysStmts == old(gen.alwaysStmts)
  {
    var update := VarOf(v);
    for i := 0 to |instrs|
      invariant update == Chain(instrs[..i], v)
      invariant gen.iteStmts == old(gen.iteStmts) && gen.alwaysStmts == old(gen.alwaysStmts)
    {
      assert instrs[..i + 1][..i] == instrs[..i];
      if v.name in instrs[i].updates {
        update := Select(instrs[i].decode, instrs[i].updates[v.name], update);
      }
    }
    assert instrs[..|instrs|] == instrs;
    ChainIsExportable(instrs, v);
    gen.ParseMemUpdateNode(True, update, v.name);
    var ports := ExportCondWrites(gen.currentWrites);
    gen.iteStmts := gen.iteStmts + seq(|ports|, p requires 0 <= p < |ports| => MemStmt(v.name, ports[p]));
  }

  method ExportRegister(gen: VerilogGenerator, instrs: seq<Instruction>, v: StateVar)
    requires !v.sort.MemSort?
    modifies gen
    ensures gen.iteStmts == old(gen.iteStmts)
    ensures gen.alwaysStmts == old(gen.alwaysStmts) + RegStmtsOf(instrs, v)
  {
    var arms := [];
    for i := 0 to |instrs|
      invariant arms == Arms(instrs[..i], v)
      invariant gen.iteStmts == old(gen.iteStmts) && gen.alwaysStmts == old(gen.alwaysStmts)
    {
      assert instrs[..i + 1][..i] == instrs[..i];
      if v.name in instrs[i].updates {
        arms := arms + [Arm(i, instrs[i].updates[v.name])];
      }
    }
    assert instrs[..|instrs|] == instrs;
    if arms != [] {
      gen.alwaysStmts := gen.alwaysStmts + [RegStmt(v.name, arms)];
    }
  }

  method ExportState(gen: VerilogGenerator, instrs: seq<Instruction>, v: StateVar)
    requires Exportable(instrs, v)
    modifies gen
    ensures gen.alwaysStmts == old(gen.alwaysStmts) + RegStmtsOf(instrs, v)
    ensures gen.iteStmts == old(gen.iteStmts) + MemBlock(instrs, v)
  {
    if v.sort.MemSort? {
      ExportMemory(gen, instrs, v);
    } else {
      ExportRegister(gen, instrs, v);
    }
  }

  /** The statements for every state variable, in order. */
  method ExportIla(gen: VerilogGenerator, instrs: seq<Instruction>, vars: seq<StateVar>)
    requires AllExportable(instrs, vars)
    modifies gen
    ensures gen.alwaysStmts == old(gen.alwaysStmts) + RegStmts(instrs, vars)
    ensures gen.iteStmts == old(gen.iteStmts) + MemStmts(instrs, vars)
  {
    ghost var regs, mems := RegStmtBlocks(instrs, vars), MemStmtBlocks(instrs, vars);
    for k := 0 to |vars|
      invariant gen.alwaysStmts == old(gen.alwaysStmts) + Flat(regs, k)
      invariant gen.iteStmts == old(gen.iteStmts) + Flat(mems, k)
    {
      ExportState(gen, instrs, vars[k]);
      FlatNext(old(gen.alwaysStmts), regs, k);
      FlatNext(old(gen.iteStmts), mems, k);
    }
  }

  /** A non-blocking assignment with its right-hand side evaluated. */
  datatype Assign = ToReg(name: string, value: Value) | ToCell(name: string, addr: int, data: int)

  ghost function Perform(a: Assign, t: State): State {
    match a
    case ToReg(name, value) => t[name := value]
    case ToCell(name, addr, data) => t[name := Mem(Write(MemOf(t, name), addr, data))]
  }

  /** The assignments take effect in order, a later one over an earlier one. */
  ghost function Commit(assigns: seq<Assign>, s: State): State {
    if assigns == [] then s
    else Perform(assigns[|assigns| - 1], Commit(assigns[..|assigns| - 1], s))
  }

  ghost predicate Taken(arm: Arm, instrs: seq<Instruction>, grants: seq<bool>, s: State, f: Ops) {
    arm.instr < |instrs| && arm.instr < |grants| && Holds(instrs[arm.instr].decode, s, f) && grants[arm.instr]
  }

  /** An if / else-if chain performs the first arm that is taken. */
  ghost function ArmsAssign(name: string, arms: seq<Arm>, instrs: seq<Instruction>, grants: seq<bool>, s: State, f: Ops): seq<Assign> {
    if arms == [] then []
    else if Taken(arms[0], instrs, grants, s, f) then [ToReg(name, Eval(arms[0].value, s, f))]
    else ArmsAssign(name, arms[1..], instrs, grants, s, f)
  }

  ghost function RegAssigns(stmts: seq<RegStmt>, instrs: seq<Instruction>, grants: seq<bool>, s: State, f: Ops): seq<Assign> {
    if stmts == [] then []
    else
      var last := stmts[|stmts| - 1];
      RegAssigns(stmts[..|stmts| - 1], instrs, grants, s, f) + ArmsAssign(last.name, last.arms, instrs, grants, s, f)
  }

  ghost function MemAssigns(stmts: seq<MemStmt>, s: State, f: Ops): seq<Assign> {
    if stmts == [] then []
    else
      var last := stmts[|stmts| - 1];
      MemAssigns(stmts[..|stmts| - 1], s, f)
      + if Holds(last.port.enable, s, f)
        then [ToCell(last.mem, Eval(last.port.addr, s, f).AsWord(), Eval(last.port.data, s, f).AsWord())] else []
  }

  /** The always block outside reset: nothing happens unless the module is valid. */
  ghost function Clock(regs: seq<RegStmt>, mems: seq<MemStmt>, instrs: seq<Instruction>, valid: Expr, grants: seq<bool>, s: State, f: Ops): State {
    if Holds(valid, s, f) then Commit(RegAssigns(regs, instrs, grants, s, f) + MemAssigns(mems, s, f), s) else s
  }

  lemma {:induction false} CommitAppend(a: seq<Assign>, b: seq<Assign>, s: State)
    ensures Commit(a + b, s) == Commit(b, Commit(a, s))
  {
    if b != [] {
      assert (a + b)[..|a + b| - 1] == a + b[..|b| - 1];
      CommitAppend(a, b[..|b| - 1], s);
    } else {
      assert a + b == a;
    }
  }

  ghost predicate Spares(assigns: seq<Assign>, x: string) {
    forall i :: 0 <= i < |assigns| ==> assigns[i].name != x
  }

  lemma {:induction false} CommitSpares(assigns: seq<Assign>, s: State, x: string)
    requires Spares(assigns, x)
    ensures SameAt(Commit(assigns, s), s, x)
  {
    if assigns != [] {
      CommitSpares(assigns[..|assigns| - 1], s, x);
    }
  }

  ghost predicate Distinct(vars: seq<StateVar>) {
    forall i, j :: 0 <= i < j < |vars| ==> vars[i].name != vars[j].name
  }

  /** All assignments are to one variable. */
  ghost predicate AllTo(assigns: seq<Assign>, x: string) {
    forall i :: 0 <= i < |assigns| ==> assigns[i].name == x
  }

  lemma {:induction false} ArmsAllTo(name: string, arms: seq<Arm>, instrs: seq<Instruction>, grants: seq<bool>, s: State, f: Ops)
    ensures AllTo(ArmsAssign(name, arms, instrs, grants, s, f), name)
  {
    if arms != [] {
      ArmsAllTo(name, arms[1..], instrs, grants, s, f);
    }
  }

  /** What becomes of a variable depends on no other. */
  lemma {:induction false} CommitLocal(assigns: seq<Assign>, t: State, s: State, x: string)
    requires SameAt(t, s, x)
    ensures SameAt(Commit(assigns, t), Commit(assigns, s), x)
  {
    if assigns != [] {
      CommitLocal(assigns[..|assigns| - 1], t, s, x);
    }
  }

  /** A further block changes its own variable only, to what it would have made of the start. */
  lemma {:induction false} BlockCommit(before: seq<Assign>, block: seq<Assign>, y: string, s: State, x: string)
    requires AllTo(block, y)
    ensures x != y ==> SameAt(Commit(before + block, s), Commit(before, s), x)
    ensures x == y && SameAt(Commit(before, s), s, x) ==> SameAt(Commit(before + block, s), Commit(block, s), x)
  {
    CommitAppend(before, block, s);
    if x != y {
      CommitSpares(block, Commit(before, s), x);
    } else if SameAt(Commit(before, s), s, x) {
      CommitLocal(block, Commit(before, s), s, x);
    }
  }

  ghost predicate OneVarEach(blocks: seq<seq<Assign>>, names: seq<string>) {
    && |blocks| == |names|
    && (forall i :: 0 <= i < |names| ==> AllTo(blocks[i], names[i]))
    && forall i, j :: 0 <= i < j < |names| ==> names[i] != names[j]
  }

  /** Each variable ends as its own block makes it. */
  lemma {:induction false} FlatCommit(blocks: seq<seq<Assign>>, names: seq<string>, n: nat, k: nat, s: State)
    requires OneVarEach(blocks, names) && k < n <= |names|
    ensures SameAt(Commit(Flat(blocks, n), s), Commit(blocks[k], s), names[k])
  {
    BlockCommit(Flat(blocks, n - 1), blocks[n - 1], names[n - 1], s, names[k]);
    if k < n - 1 {
      FlatCommit(blocks, names, n - 1, k, s);
    } else {
      FlatSpares(blocks, names, n - 1, names[k]);
      CommitSpares(Flat(blocks, n - 1), s, names[k]);
    }
  }

  lemma {:induction false} FlatSpares(blocks: seq<seq<Assign>>, names: seq<string>, n: nat, x: string)
    requires OneVarEach(blocks, names) && n <= |names| && forall i :: 0 <= i < n ==> names[i] != x
    ensures Spares(Flat(blocks, n), x)
  {
    if n > 0 {
      FlatSpares(blocks, names, n - 1, x);
    }
  }

  lemma {:induction false} RegAssignsAppend(a: seq<RegStmt>, b: seq<RegStmt>, instrs: seq<Instruction>, grants: seq<bool>, s: State, f: Ops)
    ensures RegAssigns(a + b, instrs, grants, s, f) == RegAssigns(a, instrs, grants, s, f) + RegAssigns(b, instrs, grants, s, f)
  {
    if b != [] {
      assert (a + b)[..|a + b| - 1] == a + b[..|b| - 1];
      RegAssignsAppend(a, b[..|b| - 1], instrs, grants, s, f);
    } else {
      assert a + b == a;
    }
  }

  ghost function OwnAssigns(instrs: seq<Instruction>, v: StateVar, grants: seq<bool>, s: State, f: Ops): seq<Assign> {
    if v.sort.MemSort? then [] else ArmsAssign(v.name, Arms(instrs, v), instrs, grants, s, f)
  }

  lemma {:induction false} BlockAssigns(instrs: seq<Instruction>, v: StateVar, grants: seq<bool>, s: State, f: Ops)
    ensures RegAssigns(RegStmtsOf(instrs, v), instrs, grants, s, f) == OwnAssigns(instrs, v, grants, s, f)
    ensures AllTo(OwnAssigns(instrs, v, grants, s, f), v.name)
  {
    var block := RegStmtsOf(instrs, v);
    if block != [] {
      assert block[..0] == [];
    }
    ArmsAllTo(v.name, Arms(instrs, v), instrs, grants, s, f);
  }

  /** The assignments of the state variables, each those of its own chain. */
  ghost function Blocks(instrs: seq<Instruction>, vars: seq<StateVar>, grants: seq<bool>, s: State, f: Ops): (blocks: seq<seq<Assign>>)
    ensures |blocks| == |vars| && forall k :: 0 <= k < |vars| ==> blocks[k] == OwnAssigns(instrs, vars[k], grants, s, f)
  {
    seq(|vars|, k requires 0 <= k < |vars| => OwnAssigns(instrs, vars[k], grants, s, f))
  }

  lemma {:induction false} RegAssignsAreFlat(stmts: seq<seq<RegStmt>>, blocks: seq<seq<Assign>>, n: nat, instrs: seq<Instruction>, grants: seq<bool>, s: State, f: Ops)
    requires n <= |stmts| == |blocks| && forall k :: 0 <= k < |stmts| ==> blocks[k] == RegAssigns(stmts[k], instrs, grants, s, f)
    ensures RegAssigns(Flat(stmts, n), instrs, grants, s, f) == Flat(blocks, n)
  {
    if n > 0 {
      RegAssignsAreFlat(stmts, blocks, n - 1, instrs, grants, s, f);
      RegAssignsAppend(Flat(stmts, n - 1), stmts[n - 1], instrs, grants, s, f);
    }
  }

  function NamesOf(vars: seq<StateVar>): (names: seq<string>)
    ensures |names| == |vars| && forall k :: 0 <= k < |vars| ==> names[k] == vars[k].name
  {
    seq(|vars|, k requires 0 <= k < |vars| => vars[k].name)
  }

  /** The assignments to a register come from its own chain. */
  lemma {:induction false} RegisterAfter(instrs: seq<Instruction>, vars: seq<StateVar>, k: nat, grants: seq<bool>, s: State, f: Ops)
    requires k < |vars| && Distinct(vars)
    ensures SameAt(Commit(RegAssigns(RegStmts(instrs, vars), instrs, grants, s, f), s),
                   Commit(OwnAssigns(instrs, vars[k], grants, s, f), s), vars[k].name)
  {
    var blocks := Blocks(instrs, vars, grants, s, f);
    var stmts := RegStmtBlocks(instrs, vars);
    forall i | 0 <= i < |vars|
      ensures AllTo(blocks[i], vars[i].name) && blocks[i] == RegAssigns(stmts[i], instrs, grants, s, f)
    {
      BlockAssigns(instrs, vars[i], grants, s, f);
    }
    RegAssignsAreFlat(stmts, blocks, |vars|, instrs, grants, s, f);
    FlatCommit(blocks, NamesOf(vars), |vars|, k, s);
  }

  lemma {:induction false} MemAssignsAppend(a: seq<MemStmt>, b: seq<MemStmt>, s: State, f: Ops)
    ensures MemAssigns(a + b, s, f) == MemAssigns(a, s, f) + MemAssigns(b, s, f)
  {
    if b != [] {
      assert (a + b)[..|a + b| - 1] == a + b[..|b| - 1];
      MemAssignsAppend(a, b[..|b| - 1], s, f);
    } else {
      assert a + b == a;
    }
  }

  ghost function MemBlocks(instrs: seq<Instruction>, vars: seq<StateVar>, s: State, f: Ops): (blocks: seq<seq<Assign>>)
    requires AllExportable(instrs, vars)
    ensures |blocks| == |vars| && forall k :: 0 <= k < |vars| ==> blocks[k] == MemAssigns(MemBlock(instrs, vars[k]), s, f)
  {
    seq(|vars|, k requires 0 <= k < |vars| => MemAssigns(MemBlock(instrs, vars[k]), s, f))
  }

  lemma {:induction false} MemAssignsAreFlat(stmts: seq<seq<MemStmt>>, blocks: seq<seq<Assign>>, n: nat, s: State, f: Ops)
    requires n <= |stmts| == |blocks| && forall k :: 0 <= k < |stmts| ==> blocks[k] == MemAssigns(stmts[k], s, f)
    ensures MemAssigns(Flat(stmts, n), s, f) == Flat(blocks, n)
  {
    if n > 0 {
      MemAssignsAreFlat(stmts, blocks, n - 1, s, f);
      MemAssignsAppend(Flat(stmts, n - 1), stmts[n - 1], s, f);
    }
  }

  lemma {:induction false} PerformCell(a: Assign, t: State)
    requires a.ToCell?
    ensures MemOf(Perform(a, t), a.name) == Write(MemOf(t, a.name), a.addr, a.data)
  {
  }

  /** The ports of a memory clock that memory and no other variable. */
  lemma {:induction false} PortsClock(stmts: seq<MemStmt>, ports: seq<Port>, x: string, t: State, s: State, f: Ops)
    requires |stmts| == |ports| && forall p :: 0 <= p < |ports| ==> stmts[p] == MemStmt(x, ports[p])
    ensures AllTo(MemAssigns(stmts, s, f), x)
    ensures MemOf(Commit(MemAssigns(stmts, s, f), t), x) == Clocked(ports, MemOf(t, x), s, f)
  {
    if stmts != [] {
      var p := |stmts| - 1;
      PortsClock(stmts[..p], ports[..p], x, t, s, f);
      var front := MemAssigns(stmts[..p], s, f);
      if Holds(ports[p].enable, s, f) {
        var last := ToCell(x, Eval(ports[p].addr, s, f).AsWord(), Eval(ports[p].data, s, f).AsWord());
        assert MemAssigns(stmts, s, f) == front + [last];
        assert (front + [last])[..|front|] == front;
        PerformCell(last, Commit(front, t));
      } else {
        assert MemAssigns(stmts, s, f) == front;
      }
    }
  }

  function PortsOf(cs: seq<MemWrite>): (ports: seq<Port>)
    ensures |ports| == MaxPorts(cs) && PortsFrom(ports, cs)
  {
    seq(MaxPorts(cs), p requires 0 <= p < MaxPorts(cs) => PortOf(cs, p))
  }

  lemma {:induction false} BlockClock(instrs: seq<Instruction>, v: StateVar, t: State, s: State, f: Ops)
    requires Exportable(instrs, v)
    ensures AllTo(MemAssigns(MemBlock(instrs, v), s, f), v.name)
    ensures !v.sort.MemSort? ==> MemAssigns(MemBlock(instrs, v), s, f) == []
    ensures v.sort.MemSort? ==>
      && CheckMemUpdateNode(Chain(instrs, v), v.name)
      && MemOf(Commit(MemAssigns(MemBlock(instrs, v), s, f), t), v.name)
         == Clocked(PortsOf(Collected(Chain(instrs, v), v.name, True, [])), MemOf(t, v.name), s, f)
  {
    if v.sort.MemSort? {
      ChainIsExportable(instrs, v);
      PortsClock(MemBlock(instrs, v), PortsOf(Collected(Chain(instrs, v), v.name, True, [])), v.name, t, s, f);
    }
  }

  lemma {:induction false} MemoryAfter(instrs: seq<Instruction>, vars: seq<StateVar>, k: nat, t: State, s: State, f: Ops)
    requires k < |vars| && Distinct(vars) && AllExportable(instrs, vars)
    ensures SameAt(Commit(MemAssigns(MemStmts(instrs, vars), s, f), t),
                   Commit(MemAssigns(MemBlock(instrs, vars[k]), s, f), t), vars[k].name)
  {
    var blocks := MemBlocks(instrs, vars, s, f);
    MemAssignsAreFlat(MemStmtBlocks(instrs, vars), blocks, |vars|, s, f);
    forall i | 0 <= i < |vars| ensures AllTo(blocks[i], vars[i].name) {
      BlockClock(instrs, vars[i], t, s, f);
    }
    FlatCommit(blocks, NamesOf(vars), |vars|, k, t);
  }

  /** The clock gives each variable what its own statements alone would. */
  lemma {:induction false} ClockByVariable(instrs: seq<Instruction>, vars: seq<StateVar>, valid: Expr, grants: seq<bool>, k: nat, s: State, f: Ops)
    requires k < |vars| && Distinct(vars) && AllExportable(instrs, vars) && Holds(valid, s, f)
    ensures var v, t := vars[k], Clock(RegStmts(instrs, vars), MemStmts(instrs, vars), instrs, valid, grants, s, f);
      if v.sort.MemSort? then
        CheckMemUpdateNode(Chain(instrs, v), v.name) &&
        MemOf(t, v.name) == Clocked(PortsOf(Collected(Chain(instrs, v), v.name, True, [])), MemOf(s, v.name), s, f)
      else SameAt(t, Commit(ArmsAssign(v.name, Arms(instrs, v), instrs, grants, s, f), s), v.name)
  {
    var v := vars[k];
    var regs := RegAssigns(RegStmts(instrs, vars), instrs, grants, s, f);
    var mems := MemAssigns(MemStmts(instrs, vars), s, f);
    var mid := Commit(regs, s);
    CommitAppend(regs, mems, s);
    RegisterAfter(instrs, vars, k, grants, s, f);
    MemoryAfter(instrs, vars, k, mid, s, f);
    BlockClock(instrs, v, mid, s, f);
  }

  /** Decodes are Boolean and updates have the sort of what they update. */
  ghost predicate Sorted(instrs: seq<Instruction>, v: StateVar) {
    forall i :: 0 <= i < |instrs| ==>
      && WellSorted(instrs[i].decode) && SortOf(instrs[i].decode) == BoolSort
      && (v.name in instrs[i].updates ==> WellSorted(instrs[i].updates[v.name]) && SortOf(instrs[i].updates[v.name]) == v.sort)
  }

  ghost predicate Decodes(instr: Instruction, s: State, f: Ops) {
    Holds(instr.decode, s, f)
  }

  /** At most one instruction decodes. */
  ghost predicate Exclusive(instrs: seq<Instruction>, s: State, f: Ops) {
    forall i, j :: 0 <= i < j < |instrs| ==> !(Decodes(instrs[i], s, f) && Decodes(instrs[j], s, f))
  }

  ghost function Old(v: StateVar, s: State): Value {
    Lookup(s, v.name, v.sort)
  }

  ghost function Updated(instr: Instruction, v: StateVar, s: State, f: Ops): Value {
    if v.name in instr.updates then Eval(instr.updates[v.name], s, f) else Old(v, s)
  }

  /** What one step of the model gives a state variable: the update of the instruction that
      decodes, or the old value. */
  ghost predicate IsStep(instrs: seq<Instruction>, v: StateVar, s: State, f: Ops, r: Value) {
    && (forall i :: 0 <= i < |instrs| && Decodes(instrs[i], s, f) ==> r == Updated(instrs[i], v, s, f))
    && ((forall i :: 0 <= i < |instrs| ==> !Decodes(instrs[i], s, f)) ==> r == Old(v, s))
  }

  lemma {:induction false} StepMore(front: seq<Instruction>, last: Instruction, v: StateVar, s: State, f: Ops, r: Value)
    requires IsStep(front, v, s, f, r) && Exclusive(front + [last], s, f)
    ensures IsStep(front + [last], v, s, f, if Decodes(last, s, f) then Updated(last, v, s, f) else r)
    ensures Decodes(last, s, f) ==> r == Old(v, s)
  {
    var all := front + [last];
    assert all[|front|] == last && forall i :: 0 <= i < |front| ==> all[i] == front[i];
  }

  lemma {:induction false} ChainSorted(instrs: seq<Instruction>, v: StateVar)
    requires Sorted(instrs, v)
    ensures WellSorted(Chain(instrs, v)) && SortOf(Chain(instrs, v)) == v.sort
  {
    if instrs != [] {
      ChainSorted(instrs[..|instrs| - 1], v);
    }
  }

  lemma {:induction false} ChainValue(instrs: seq<Instruction>, v: StateVar, s: State, f: Ops)
    requires Exclusive(instrs, s, f)
    ensures IsStep(instrs, v, s, f, Eval(Chain(instrs, v), s, f))
  {
    if instrs != [] {
      var front, last := instrs[..|instrs| - 1], instrs[|instrs| - 1];
      assert front + [last] == instrs;
      ChainValue(front, v, s, f);
      StepMore(front, last, v, s, f, Eval(Chain(front, v), s, f));
      if v.name in last.updates {
        EvalIte(Select(last.decode, last.updates[v.name], Chain(front, v)), s, f);
      }
    }
  }

  lemma {:induction false} ArmsAssignAppend(name: string, arms: seq<Arm>, last: Arm, instrs: seq<Instruction>, grants: seq<bool>, s: State, f: Ops)
    ensures var before := ArmsAssign(name, arms, instrs, grants, s, f);
      ArmsAssign(name, arms + [last], instrs, grants, s, f)
      == if before != [] then before else if Taken(last, instrs, grants, s, f) then [ToReg(name, Eval(last.value, s, f))] else []
  {
    if arms == [] {
      assert [] + [last] == [last];
      assert [last][1..] == [];
    } else {
      ArmsAssignAppend(name, arms[1..], last, instrs, grants, s, f);
      assert (arms + [last])[1..] == arms[1..] + [last];
    }
  }

  /** The value a register is assigned, or its old one. */
  ghost function Result(assigns: seq<Assign>, v: StateVar, s: State): Value {
    if assigns != [] && assigns[0].ToReg? then assigns[0].value else Old(v, s)
  }

  lemma {:induction false} ArmsValue(instrs: seq<Instruction>, n: nat, v: StateVar, grants: seq<bool>, s: State, f: Ops)
    requires n <= |instrs| == |grants| && (forall i :: 0 <= i < |grants| ==> grants[i])
    requires Exclusive(instrs, s, f)
    ensures var own := ArmsAssign(v.name, Arms(instrs[..n], v), instrs, grants, s, f);
      && IsStep(instrs[..n], v, s, f, Result(own, v, s))
      && (own == [] || exists i :: 0 <= i < n && v.name in instrs[i].updates && Decodes(instrs[i], s, f)
                         && own == [ToReg(v.name, Eval(instrs[i].updates[v.name], s, f))])
  {
    if n > 0 {
      ArmsValue(instrs, n - 1, v, grants, s, f);
      assert instrs[..n][..n - 1] == instrs[..n - 1];
      var last := instrs[n - 1];
      if v.name in last.updates {
        ArmsAssignAppend(v.name, Arms(instrs[..n - 1], v), Arm(n - 1, last.updates[v.name]), instrs, grants, s, f);
      } else {
        assert Arms(instrs[..n], v) == Arms(instrs[..n - 1], v);
      }
      assert forall i :: 0 <= i < n - 1 ==> instrs[..n][i] == instrs[..n - 1][i];
      assert Decodes(last, s, f) ==> forall i :: 0 <= i < n - 1 ==> !Decodes(instrs[i], s, f);
    }
  }

  /** An instruction that decodes, is granted and updates the variable. */
  ghost predicate Writes(instrs: seq<Instruction>, grants: seq<bool>, i: nat, v: StateVar, s: State, f: Ops) {
    i < |instrs| && i < |grants| && v.name in instrs[i].updates && Eval(instrs[i].decode, s, f).IsTrue() && grants[i]
  }

  /** Whatever is granted and decodes, the chain of a register assigns the update of the first
      instruction that decodes, is granted and updates it, and nothing if there is none. */
  lemma {:induction false} ArmsGranted(instrs: seq<Instruction>, n: nat, v: StateVar, grants: seq<bool>, s: State, f: Ops)
    requires n <= |instrs|
    ensures var own := ArmsAssign(v.name, Arms(instrs[..n], v), instrs, grants, s, f);
      && (own == [] <==> forall i: nat :: i < n ==> !Writes(instrs, grants, i, v, s, f))
      && forall i: nat :: i < n && FirstToWrite(instrs, grants, i, v, s, f) ==>
           own == [ToReg(v.name, Eval(instrs[i].updates[v.name], s, f))]
  {
    if n > 0 {
      ArmsGranted(instrs, n - 1, v, grants, s, f);
      assert instrs[..n][..n - 1] == instrs[..n - 1];
      var last, own := instrs[n - 1], ArmsAssign(v.name, Arms(instrs[..n], v), instrs, grants, s, f);
      var before := ArmsAssign(v.name, Arms(instrs[..n - 1], v), instrs, grants, s, f);
      if v.name in last.updates {
        var arm := Arm(n - 1, last.updates[v.name]);
        ArmsAssignAppend(v.name, Arms(instrs[..n - 1], v), arm, instrs, grants, s, f);
        assert Arms(instrs[..n], v) == Arms(instrs[..n - 1], v) + [arm];
        assert Taken(arm, instrs, grants, s, f) <==> Writes(instrs, grants, n - 1, v, s, f);
      } else {
        assert Arms(instrs[..n], v) == Arms(instrs[..n - 1], v) && !Writes(instrs, grants, n - 1, v, s, f);
      }
      if before != [] {
        var i: nat :| i < n - 1 && Writes(instrs, grants, i, v, s, f);
        assert !FirstToWrite(instrs, grants, n - 1, v, s, f) && own == before;
      }
    }
  }

  ghost predicate FirstToWrite(instrs: seq<Instruction>, grants: seq<bool>, i: nat, v: StateVar, s: State, f: Ops) {
    Writes(instrs, grants, i, v, s, f) && forall j: nat :: j < i ==> !Writes(instrs, grants, j, v, s, f)
  }

  /** So a clock leaves a register alone when the instruction that decodes is not granted, and
      otherwise gives it the update of the first one that is. */
  lemma {:induction false} ClockByGrants(instrs: seq<Instruction>, vars: seq<StateVar>, valid: Expr, grants: seq<bool>, k: nat, s: State, f: Ops)
    requires k < |vars| && Distinct(vars) && AllExportable(instrs, vars) && Holds(valid, s, f) && !vars[k].sort.MemSort?
    ensures var v, t := vars[k], Clock(RegStmts(instrs, vars), MemStmts(instrs, vars), instrs, valid, grants, s, f);
      && ((forall i: nat :: !Writes(instrs, grants, i, v, s, f)) ==> SameAt(t, s, v.name))
      && forall i: nat :: FirstToWrite(instrs, grants, i, v, s, f) ==>
           v.name in t && t[v.name] == Eval(instrs[i].updates[v.name], s, f)
  {
    var v := vars[k];
    ClockByVariable(instrs, vars, valid, grants, k, s, f);
    ArmsGranted(instrs, |instrs|, v, grants, s, f);
    assert instrs[..|instrs|] == instrs;
    var own := ArmsAssign(v.name, Arms(instrs, v), instrs, grants, s, f);
    forall i: nat | FirstToWrite(instrs, grants, i, v, s, f)
      ensures Commit(own, s) == s[v.name := Eval(instrs[i].updates[v.name], s, f)]
    {
      CommitOne(v.name, Eval(instrs[i].updates[v.name], s, f), s);
    }
    if forall i: nat :: !Writes(instrs, grants, i, v, s, f) {
      assert own == [];
    }
  }

  lemma {:induction false} CommitOne(name: string, value: Value, s: State)
    ensures Commit([ToReg(name, value)], s) == s[name := value]
  {
    assert [ToReg(name, value)][..0] == [];
  }

  lemma {:induction false} CastSame(v: Value, sort: Sort)
    requires HasSort(v, sort)
    ensures Cast(v, sort) == v
  {
  }

  /** One clock of the module, with one instruction decoding at most and every grant given, is one
      step of the model.  For a memory this holds exactly when, among the writes of the path
      taken, the first and the last to each address carry the same word. */
  lemma {:induction false} ClockIsStep(instrs: seq<Instruction>, vars: seq<StateVar>, valid: Expr, grants: seq<bool>, k: nat, s: State, f: Ops) returns (path: seq<WriteEntry>)
    requires k < |vars| && Distinct(vars) && AllExportable(instrs, vars) && Sorted(instrs, vars[k])
    requires Exclusive(instrs, s, f) && |grants| == |instrs| && (forall i :: 0 <= i < |grants| ==> grants[i])
    ensures var v, t := vars[k], Clock(RegStmts(instrs, vars), MemStmts(instrs, vars), instrs, valid, grants, s, f);
      if !Holds(valid, s, f) then t == s
      else if v.sort.MemSort? then
        && OnPath(instrs, v, path, s, f)
        && (IsStep(instrs, v, s, f, Lookup(t, v.name, v.sort)) <==> EndsAgree(Hits(path, s, f)))
      else IsStep(instrs, v, s, f, Lookup(t, v.name, v.sort))
  {
    path := [];
    var v := vars[k];
    if Holds(valid, s, f) {
      ClockByVariable(instrs, vars, valid, grants, k, s, f);
      var t := Clock(RegStmts(instrs, vars), MemStmts(instrs, vars), instrs, valid, grants, s, f);
      if v.sort.MemSort? {
        path := MemoryClock(instrs, v, t, s, f);
      } else {
        RegisterClock(instrs, v, grants, t, s, f);
      }
    }
  }

  /** The write list whose condition holds among those of a memory. */
  ghost predicate OnPath(instrs: seq<Instruction>, v: StateVar, path: seq<WriteEntry>, s: State, f: Ops)
  {
    CheckMemUpdateNode(Chain(instrs, v), v.name) &&
    exists i: nat :: Chosen(Collected(Chain(instrs, v), v.name, True, []), i, s, f) && Collected(Chain(instrs, v), v.name, True, [])[i].writes == path
  }

  lemma {:induction false} RegisterClock(instrs: seq<Instruction>, v: StateVar, grants: seq<bool>, t: State, s: State, f: Ops)
    requires Sorted(instrs, v) && Exclusive(instrs, s, f) && |grants| == |instrs| && (forall i :: 0 <= i < |grants| ==> grants[i])
    requires SameAt(t, Commit(ArmsAssign(v.name, Arms(instrs, v), instrs, grants, s, f), s), v.name)
    ensures IsStep(instrs, v, s, f, Lookup(t, v.name, v.sort))
  {
    var own := ArmsAssign(v.name, Arms(instrs, v), instrs, grants, s, f);
    ArmsValue(instrs, |instrs|, v, grants, s, f);
    assert instrs[..|instrs|] == instrs;
    if own != [] {
      var i :| 0 <= i < |instrs| && v.name in instrs[i].updates && Decodes(instrs[i], s, f)
        && own == [ToReg(v.name, Eval(instrs[i].updates[v.name], s, f))];
      EvalHasSort(instrs[i].updates[v.name], s, f);
      CastSame(own[0].value, v.sort);
      assert own[..0] == [];
    }
  }

  /** The clocked memory is the step exactly when the order of the writes does not matter. */
  lemma {:induction false} MemoryClock(instrs: seq<Instruction>, v: StateVar, t: State, s: State, f: Ops) returns (path: seq<WriteEntry>)
    requires Sorted(instrs, v) && Exclusive(instrs, s, f) && v.sort.MemSort? && CheckMemUpdateNode(Chain(instrs, v), v.name)
    requires MemOf(t, v.name) == Clocked(PortsOf(Collected(Chain(instrs, v), v.name, True, [])), MemOf(s, v.name), s, f)
    ensures OnPath(instrs, v, path, s, f)
    ensures IsStep(instrs, v, s, f, Lookup(t, v.name, v.sort)) <==> EndsAgree(Hits(path, s, f))
  {
    var e := Chain(instrs, v);
    var cs := Collected(e, v.name, True, []);
    ChainValue(instrs, v, s, f);
    ChainSorted(instrs, v);
    EvalHasSort(e, s, f);
    var i := ClockIsTree(e, v.name, True, PortsOf(cs), s, f);
    path := cs[i].writes;
  }

  function WordOf(w: int): Expr {
    Expr(0, WordConst(w, 8), [])
  }

  /** ST(ST(m, 0, 1), 0, 2): two stores to one address. */
  function StoreTwice(mem: string): Expr {
    var v := Expr(0, Var(mem, MemSort(8, 8)), []);
    Expr(0, Store, [Expr(0, Store, [v, WordOf(0), WordOf(1)]), WordOf(0), WordOf(2)])
  }

  /** The clock leaves the word of the inner store. */
  lemma {:induction false} InnerStoreWins(mem: string, s: State, f: Ops)
    ensures var e := StoreTwice(mem);
      && CheckMemUpdateNode(e, mem) && WellSorted(e)
      && Clocked(PortsOf(Collected(e, mem, True, [])), MemOf(s, mem), s, f) != Eval(e, s, f).AsMem()
  {
    var e := StoreTwice(mem);
    var inner := e.args[0];
    var v := inner.args[0];
    assert SortOf(v) == MemSort(8, 8) && SortOf(inner) == SortOf(v) && SortOf(e) == SortOf(v);
    assert WellSorted(v) && WellSorted(WordOf(0)) && WellSorted(WordOf(1)) && WellSorted(WordOf(2));
    assert WellSorted(inner) && CheckMemUpdateNode(inner, mem);
    var outer, below := WriteEntry(WordOf(0), WordOf(2)), WriteEntry(WordOf(0), WordOf(1));
    var cs := Collected(e, mem, True, []);
    assert [] + [outer] == [outer] && [outer] + [below] == [outer, below];
    assert cs == Collected(inner, mem, True, [outer]) == Collected(v, mem, True, [outer] + [below]);
    assert cs == [MemWrite(True, [outer, below])];
    var i := ClockIsTree(e, mem, True, PortsOf(cs), s, f);
    var hs := Hits(cs[0].writes, s, f);
    assert hs[0] == Hit(0, 2) && hs[1] == Hit(0, 1);
    assert First(hs, 0) && Last(hs, 1) && hs[0].data != hs[1].data;
  }
}
