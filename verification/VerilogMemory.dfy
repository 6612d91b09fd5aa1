/** How a memory update is compiled into guarded write ports. */
module VerilogMemory {
  import opened WordWrites
  import opened Expressions

  datatype WriteEntry = WriteEntry(addr: Expr, data: Expr)
  datatype MemWrite = MemWrite(cond: Expr, writes: seq<WriteEntry>)

  /** Stores and conditionals over one memory variable. */
  predicate CheckMemUpdateNode(e: Expr, mem: string) {
    match e.op
    case Var(name, _) => name == mem
    case Store => |e.args| == 3 && CheckMemUpdateNode(e.args[0], mem)
    case Ite => |e.args| == 3 && CheckMemUpdateNode(e.args[1], mem) && CheckMemUpdateNode(e.args[2], mem)
    case _ => false
  }

  function Conj(a: Expr, b: Expr): Expr {
    Expr(0, And, [a, b])
  }

  function Neg(a: Expr): Expr {
    Expr(0, Not, [a])
  }

  ghost predicate Holds(e: Expr, s: State, f: Ops) {
    Eval(e, s, f).IsTrue()
  }

  lemma {:induction false} HoldsNeg(a: Expr, s: State, f: Ops)
    ensures Holds(Neg(a), s, f) <==> !Holds(a, s, f)
  {
  }

  /** The guarded write lists below `e`, reached under `cond` after the writes of the path. */
  function Collected(e: Expr, mem: string, cond: Expr, path: seq<WriteEntry>): seq<MemWrite>
    requires CheckMemUpdateNode(e, mem)
  {
    match e.op
    case Var(_, _) => [MemWrite(cond, path)]
    case Ite =>
      Collected(e.args[1], mem, Conj(cond, e.args[0]), path)
      + Collected(e.args[2], mem, Conj(cond, Neg(e.args[0])), path)
    case Store => Collected(e.args[0], mem, cond, path + [WriteEntry(e.args[1], e.args[2])])
  }

  /** The memory after the writes of a list, the last one first. */
  ghost function Replay(ws: seq<WriteEntry>, m: Memory, s: State, f: Ops): Memory {
    if ws == [] then m
    else Write(Replay(ws[1..], m, s, f), Eval(ws[0].addr, s, f).AsWord(), Eval(ws[0].data, s, f).AsWord())
  }

  lemma {:induction false} ReplayAppend(ws: seq<WriteEntry>, w: WriteEntry, m: Memory, s: State, f: Ops)
    ensures Replay(ws + [w], m, s, f) == Replay(ws, Replay([w], m, s, f), s, f)
  {
    if ws != [] {
      ReplayAppend(ws[1..], w, m, s, f);
      assert (ws + [w])[1..] == ws[1..] + [w];
    } else {
      assert ws + [w] == [w];
    }
  }

  /** The one list of `cs` whose condition holds is the `i`-th. */
  ghost predicate Chosen(cs: seq<MemWrite>, i: nat, s: State, f: Ops) {
    i < |cs| && Holds(cs[i].cond, s, f) && forall j :: 0 <= j < |cs| && j != i ==> !Holds(cs[j].cond, s, f)
  }

  ghost predicate NoneHolds(cs: seq<MemWrite>, s: State, f: Ops) {
    forall j :: 0 <= j < |cs| ==> !Holds(cs[j].cond, s, f)
  }

  /** The chosen list of `cs`, replayed from the last write to the first on `m`, gives `r`. */
  ghost predicate Yields(cs: seq<MemWrite>, i: nat, m: Memory, r: Memory, s: State, f: Ops) {
    Chosen(cs, i, s, f) && Replay(cs[i].writes, m, s, f) == r
  }

  /** Exactly one condition holds if the entry condition does, and its list gives the memory the
      tree stands for; otherwise none holds. */
  lemma {:induction false} CollectedIsTree(e: Expr, mem: string, cond: Expr, path: seq<WriteEntry>, s: State, f: Ops) returns (i: nat)
    requires CheckMemUpdateNode(e, mem) && WellSorted(e) && SortOf(e).MemSort?
    ensures var cs := Collected(e, mem, cond, path);
      if Holds(cond, s, f) then
        Yields(cs, i, Lookup(s, mem, SortOf(e)).AsMem(), Replay(path, Eval(e, s, f).AsMem(), s, f), s, f)
      else NoneHolds(cs, s, f)
    decreases e
  {
    match e.op
    case Var(_, _) =>
      i := 0;
      assert Eval(e, s, f) == Lookup(s, mem, SortOf(e));
    case Ite =>
      i := CollectedIte(e, mem, cond, path, s, f);
    case Store =>
      var w := WriteEntry(e.args[1], e.args[2]);
      i := CollectedIsTree(e.args[0], mem, cond, path + [w], s, f);
      EvalStore(e, s, f);
      assert Replay([w], Eval(e.args[0], s, f).AsMem(), s, f) == Eval(e, s, f).AsMem() by {
        assert [w][1..] == [];
      }
      ReplayAppend(path, w, Eval(e.args[0], s, f).AsMem(), s, f);
  }

  lemma {:induction false} CollectedIte(e: Expr, mem: string, cond: Expr, path: seq<WriteEntry>, s: State, f: Ops) returns (i: nat)
    requires CheckMemUpdateNode(e, mem) && WellSorted(e) && SortOf(e).MemSort? && e.op == Ite
    ensures var cs := Collected(e, mem, cond, path);
      if Holds(cond, s, f) then
        Yields(cs, i, Lookup(s, mem, SortOf(e)).AsMem(), Replay(path, Eval(e, s, f).AsMem(), s, f), s, f)
      else NoneHolds(cs, s, f)
    decreases e, 0
  {
    var c := e.args[0];
    HoldsNeg(c, s, f);
    EvalIte(e, s, f);
    var j := CollectedIsTree(e.args[1], mem, Conj(cond, c), path, s, f);
    var k := CollectedIsTree(e.args[2], mem, Conj(cond, Neg(c)), path, s, f);
    var yes, no := Collected(e.args[1], mem, Conj(cond, c), path), Collected(e.args[2], mem, Conj(cond, Neg(c)), path);
    var m, r := Lookup(s, mem, SortOf(e)).AsMem(), Replay(path, Eval(e, s, f).AsMem(), s, f);
    i := 0;
    if Holds(cond, s, f) {
      if Holds(c, s, f) {
        i := j;
      } else {
        i := |yes| + k;
      }
    }
  }

  /** One write port: its address, data and enable wires. */
  datatype Port = Port(addr: Expr, data: Expr, enable: Expr)

  const Idle := Port(Expr(0, WordConst(0, 0), []), Expr(0, WordConst(0, 0), []), Expr(0, BoolConst(false), []))

  function Select(cond: Expr, a: Expr, b: Expr): Expr {
    Expr(0, Ite, [cond, a, b])
  }

  function MaxPorts(cs: seq<MemWrite>): nat {
    if cs == [] then 0
    else
      var rest := MaxPorts(cs[1..]);
      if rest < |cs[0].writes| then |cs[0].writes| else rest
  }

  /** The `p`-th port of the lists: the first list whose condition holds and that has a `p`-th
      write drives it. */
  function PortOf(cs: seq<MemWrite>, p: nat): Port {
    if cs == [] then Idle
    else
      var rest := PortOf(cs[1..], p);
      if p < |cs[0].writes| then Driven(cs[0].cond, cs[0].writes[p], rest) else rest
  }

  function Driven(cond: Expr, w: WriteEntry, otherwise: Port): Port {
    Port(Select(cond, w.addr, otherwise.addr), Select(cond, w.data, otherwise.data),
         Select(cond, Expr(0, BoolConst(true), []), otherwise.enable))
  }

  ghost predicate Drives(c: MemWrite, p: nat, s: State, f: Ops) {
    p < |c.writes| && Holds(c.cond, s, f)
  }

  ghost predicate Carries(port: Port, w: WriteEntry, s: State, f: Ops) {
    && Holds(port.enable, s, f)
    && Eval(port.addr, s, f) == Eval(w.addr, s, f) && Eval(port.data, s, f) == Eval(w.data, s, f)
  }

  /** A port carries the write of the first list that drives it. */
  lemma {:induction false} FirstDrives(cs: seq<MemWrite>, p: nat, i: nat, s: State, f: Ops)
    requires i < |cs| && Drives(cs[i], p, s, f) && forall j :: 0 <= j < i ==> !Drives(cs[j], p, s, f)
    ensures Carries(PortOf(cs, p), cs[i].writes[p], s, f)
  {
    if i > 0 {
      assert !Drives(cs[0], p, s, f);
      FirstDrives(cs[1..], p, i - 1, s, f);
    }
  }

  /** A port is enabled only if some list drives it. */
  lemma {:induction false} NothingDrives(cs: seq<MemWrite>, p: nat, s: State, f: Ops)
    requires forall j :: 0 <= j < |cs| ==> !Drives(cs[j], p, s, f)
    ensures !Holds(PortOf(cs, p).enable, s, f)
  {
    if cs != [] {
      assert !Drives(cs[0], p, s, f);
      NothingDrives(cs[1..], p, s, f);
    }
  }

  /** `if (decode && grant) name <= value`, the `instr`-th decode and grant. */
  datatype Arm = Arm(instr: nat, value: Expr)

  /** An if / else-if chain that assigns a register. */
  datatype RegStmt = RegStmt(name: string, arms: seq<Arm>)

  /** `if (enable) mem[addr] <= data` */
  datatype MemStmt = MemStmt(mem: string, port: Port)

  class VerilogGenerator {
    var currentWrites: seq<MemWrite>
    var alwaysStmts: seq<RegStmt>
    var iteStmts: seq<MemStmt>

    constructor ()
      ensures currentWrites == [] && alwaysStmts == [] && iteStmts == []
    {
      currentWrites, alwaysStmts, iteStmts := [], [], [];
    }

    /** Walk the tree from the root, collecting the writes of each path on the top of the stack. */
    method VisitMemNodes(e: Expr, mem: string, cond: Expr, stack: seq<seq<WriteEntry>>) returns (after: seq<seq<WriteEntry>>)
      requires CheckMemUpdateNode(e, mem) && |stack| > 0
      modifies this`currentWrites
      ensures currentWrites == old(currentWrites) + Collected(e, mem, cond, stack[|stack| - 1])
      ensures |after| == |stack| && after[..|stack| - 1] == stack[..|stack| - 1]
      decreases e
    {
      after := stack;
      var top := |stack| - 1;
      if e.op.Var? {
        currentWrites := currentWrites + [MemWrite(cond, after[top])];
      } else if e.op == Ite {
        var ctrue := Conj(cond, e.args[0]);
        var cfalse := Conj(cond, Neg(e.args[0]));
        var writes := after[top];
        after := after + [writes];
        after := VisitMemNodes(e.args[1], mem, ctrue, after);
        after := after[..|after| - 1];
        after := after + [writes];
        after := VisitMemNodes(e.args[2], mem, cfalse, after);
        after := after[..|after| - 1];
      } else {
        after := after[top := after[top] + [WriteEntry(e.args[1], e.args[2])]];
        after := VisitMemNodes(e.args[0], mem, cond, after);
      }
    }

    /** Collect the writes of a whole update, which must be a store tree over the memory. */
    method ParseMemUpdateNode(cond: Expr, e: Expr, mem: string)
      requires CheckMemUpdateNode(e, mem)
      modifies this`currentWrites
      ensures currentWrites == Collected(e, mem, cond, [])
    {
      currentWrites := [];
      var _ := VisitMemNodes(e, mem, cond, [[]]);
    }
  }

  ghost predicate PortsFrom(ports: seq<Port>, cs: seq<MemWrite>) {
    forall p :: 0 <= p < |ports| ==> ports[p] == PortOf(cs, p)
  }

  /** Build the ports, the lists taken last to first so that the first condition is tested first. */
  method ExportCondWrites(cs: seq<MemWrite>) returns (ports: seq<Port>)
    ensures |ports| == MaxPorts(cs) && PortsFrom(ports, cs)
  {
    var n: nat := 0;
    for k := 0 to |cs|
      invariant MaxPorts(cs) == if n < MaxPorts(cs[k..]) then MaxPorts(cs[k..]) else n
    {
      assert cs[k..][1..] == cs[k + 1..];
      if n < |cs[k].writes| {
        n := |cs[k].writes|;
      }
    }
    ports := seq(n, p requires 0 <= p < n => Idle);
    for k := |cs| downto 0
      invariant |ports| == n && PortsFrom(ports, cs[k..])
    {
      assert cs[k..][1..] == cs[k + 1..];
      MaxPortsBound(cs, k);
      ports := DrivePorts(ports, cs[k]);
    }
  }

  lemma {:induction false} MaxPortsBound(cs: seq<MemWrite>, k: nat)
    requires k < |cs|
    ensures |cs[k].writes| <= MaxPorts(cs)
  {
    if k > 0 {
      MaxPortsBound(cs[1..], k - 1);
    }
  }

  method DrivePorts(before: seq<Port>, c: MemWrite) returns (ports: seq<Port>)
    requires |c.writes| <= |before|
    ensures |ports| == |before|
    ensures forall p :: 0 <= p < |ports| ==> ports[p] == if p < |c.writes| then Driven(c.cond, c.writes[p], before[p]) else before[p]
  {
    ports := before;
    for i := 0 to |c.writes|
      invariant |ports| == |before|
      invariant forall p :: 0 <= p < |ports| ==> ports[p] == if p < i then Driven(c.cond, c.writes[p], before[p]) else before[p]
    {
      ports := ports[i := Driven(c.cond, c.writes[i], ports[i])];
    }
  }

  ghost function HitOf(w: WriteEntry, s: State, f: Ops): Hit {
    Hit(Eval(w.addr, s, f).AsWord(), Eval(w.data, s, f).AsWord())
  }

  ghost function Hits(ws: seq<WriteEntry>, s: State, f: Ops): (hs: seq<Hit>)
    ensures |hs| == |ws| && forall i :: 0 <= i < |ws| ==> hs[i] == HitOf(ws[i], s, f)
  {
    seq(|ws|, i requires 0 <= i < |ws| => HitOf(ws[i], s, f))
  }

  /** The writes take effect from the first to the last. */
  ghost function Forward(hs: seq<Hit>, m: Memory): Memory {
    if hs == [] then m
    else Write(Forward(hs[..|hs| - 1], m), hs[|hs| - 1].addr, hs[|hs| - 1].data)
  }

  ghost predicate First(hs: seq<Hit>, i: nat) {
    i < |hs| && forall k :: 0 <= k < i ==> hs[k].addr != hs[i].addr
  }

  ghost predicate Last(hs: seq<Hit>, j: nat) {
    j < |hs| && forall k :: j < k < |hs| ==> hs[k].addr != hs[j].addr
  }

  ghost predicate Misses(hs: seq<Hit>, a: int) {
    forall k :: 0 <= k < |hs| ==> hs[k].addr != a
  }

  lemma {:induction false} ForwardAt(hs: seq<Hit>, m: Memory, a: int)
    ensures Misses(hs, a) ==> Forward(hs, m)[a] == m[a]
    ensures forall j: nat :: Last(hs, j) && hs[j].addr == a ==> Forward(hs, m)[a] == hs[j].data
    ensures Misses(hs, a) || exists j: nat :: Last(hs, j) && hs[j].addr == a
  {
    if hs != [] {
      var front, last := hs[..|hs| - 1], hs[|hs| - 1];
      ForwardAt(front, m, a);
      assert front + [last] == hs;
      LastAppend(front, last, a);
      forall j: nat | Last(hs, j) && hs[j].addr == a ensures Forward(hs, m)[a] == hs[j].data {
        if last.addr != a {
          assert Last(front, j) && front[j] == hs[j];
        }
      }
    }
  }

  lemma {:induction false} LastAppend(front: seq<Hit>, last: Hit, a: int)
    ensures var hs := front + [last];
      && (last.addr == a ==> Last(hs, |front|) && forall j: nat :: Last(hs, j) && hs[j].addr == a ==> j == |front|)
      && (last.addr != a ==>
           && (Misses(hs, a) <==> Misses(front, a))
           && forall j: nat :: j <= |front| ==> (Last(hs, j) && hs[j].addr == a <==> Last(front, j) && front[j].addr == a))
  {
    var hs := front + [last];
    if last.addr != a {
      if Misses(hs, a) {
        forall k | 0 <= k < |front| ensures front[k].addr != a {
          assert hs[k] == front[k];
        }
      }
      forall j: nat | j <= |front| ensures Last(hs, j) && hs[j].addr == a <==> Last(front, j) && front[j].addr == a {
        if j < |front| {
          assert hs[j] == front[j];
          assert forall k :: j < k < |front| ==> hs[k] == front[k];
        }
      }
    }
  }

  lemma {:induction false} ReplayAt(ws: seq<WriteEntry>, m: Memory, a: int, s: State, f: Ops)
    ensures Misses(Hits(ws, s, f), a) ==> Replay(ws, m, s, f)[a] == m[a]
    ensures forall i: nat :: First(Hits(ws, s, f), i) && Hits(ws, s, f)[i].addr == a ==> Replay(ws, m, s, f)[a] == Hits(ws, s, f)[i].data
    ensures Misses(Hits(ws, s, f), a) || exists i: nat :: First(Hits(ws, s, f), i) && Hits(ws, s, f)[i].addr == a
  {
    var hs := Hits(ws, s, f);
    if ws != [] {
      var rest := Hits(ws[1..], s, f);
      assert rest == hs[1..];
      ReplayAt(ws[1..], m, a, s, f);
      if hs[0].addr == a {
        assert First(hs, 0);
      } else {
        forall i: nat | First(hs, i) && hs[i].addr == a ensures Replay(ws, m, s, f)[a] == hs[i].data {
          assert First(rest, i - 1) by {
            assert forall k :: 0 <= k < i - 1 ==> rest[k] == hs[k + 1];
          }
        }
        if i: nat :| First(rest, i) && rest[i].addr == a {
          assert First(hs, i + 1) by {
            assert forall k :: 0 < k < i + 1 ==> hs[k] == rest[k - 1];
          }
        }
      }
    }
  }

  /** The first and the last write to each address carry the same word. */
  ghost predicate EndsAgree(hs: seq<Hit>) {
    forall i: nat, j: nat :: First(hs, i) && Last(hs, j) && hs[i].addr == hs[j].addr ==> hs[i].data == hs[j].data
  }

  /** The order of the writes makes no difference exactly when the ends agree. */
  lemma {:induction false} OrderIrrelevant(ws: seq<WriteEntry>, m: Memory, s: State, f: Ops)
    ensures Forward(Hits(ws, s, f), m) == Replay(ws, m, s, f) <==> EndsAgree(Hits(ws, s, f))
  {
    var hs := Hits(ws, s, f);
    var forward, back := Forward(hs, m), Replay(ws, m, s, f);
    forall a ensures a in forward && a in back {
    }
    if EndsAgree(hs) {
      forall a ensures forward[a] == back[a] {
        ForwardAt(hs, m, a);
        ReplayAt(ws, m, a, s, f);
      }
    }
    if forward == back {
      forall i: nat, j: nat | First(hs, i) && Last(hs, j) && hs[i].addr == hs[j].addr ensures hs[i].data == hs[j].data {
        ForwardAt(hs, m, hs[i].addr);
        ReplayAt(ws, m, hs[i].addr, s, f);
      }
    }
  }

  lemma {:induction false} DistinctEndsAgree(hs: seq<Hit>)
    requires forall i, j :: 0 <= i < j < |hs| ==> hs[i].addr != hs[j].addr
    ensures EndsAgree(hs)
  {
  }

  /** One clock edge: every enabled port assigns its cell; of several assignments to a cell the
      last one stays. */
  ghost function Clocked(ports: seq<Port>, m: Memory, s: State, f: Ops): Memory {
    if ports == [] then m
    else
      var last := ports[|ports| - 1];
      var before := Clocked(ports[..|ports| - 1], m, s, f);
      if Holds(last.enable, s, f) then Write(before, Eval(last.addr, s, f).AsWord(), Eval(last.data, s, f).AsWord())
      else before
  }

  lemma {:induction false} ForwardNext(hs: seq<Hit>, p: nat, m: Memory)
    requires p < |hs|
    ensures Forward(hs[..p + 1], m) == Write(Forward(hs[..p], m), hs[p].addr, hs[p].data)
  {
    assert hs[..p + 1][..p] == hs[..p];
  }

  /** With one condition true, the clock performs the writes of its list from first to last. */
  lemma {:induction false} ClockedIsForward(cs: seq<MemWrite>, i: nat, ports: seq<Port>, m: Memory, s: State, f: Ops)
    requires Chosen(cs, i, s, f) && PortsFrom(ports, cs)
    ensures Clocked(ports, m, s, f) ==
      Forward(Hits(cs[i].writes, s, f)[..if |ports| < |cs[i].writes| then |ports| else |cs[i].writes|], m)
  {
    if ports != [] {
      var p := |ports| - 1;
      var hs := Hits(cs[i].writes, s, f);
      ClockedIsForward(cs, i, ports[..p], m, s, f);
      assert ports[p] == PortOf(cs, p);
      if p < |cs[i].writes| {
        assert Drives(cs[i], p, s, f) && hs[p] == HitOf(cs[i].writes[p], s, f);
        FirstDrives(cs, p, i, s, f);
        ForwardNext(hs, p, m);
      } else {
        NothingDrives(cs, p, s, f);
      }
    } else {
      assert Hits(cs[i].writes, s, f)[..0] == [];
    }
  }

  /** The clocked memory is the value of the tree exactly when, on the path taken, the first and
      the last listed write to each address carry the same word. */
  lemma {:induction false} ClockIsTree(e: Expr, mem: string, cond: Expr, ports: seq<Port>, s: State, f: Ops) returns (i: nat)
    requires CheckMemUpdateNode(e, mem) && WellSorted(e) && SortOf(e).MemSort? && Holds(cond, s, f)
    requires var cs := Collected(e, mem, cond, []); |ports| == MaxPorts(cs) && PortsFrom(ports, cs)
    ensures var cs := Collected(e, mem, cond, []);
      && Chosen(cs, i, s, f)
      && (Clocked(ports, Lookup(s, mem, SortOf(e)).AsMem(), s, f) == Eval(e, s, f).AsMem()
          <==> EndsAgree(Hits(cs[i].writes, s, f)))
  {
    var cs := Collected(e, mem, cond, []);
    var m := Lookup(s, mem, SortOf(e)).AsMem();
    i := CollectedIsTree(e, mem, cond, [], s, f);
    ClockedIsForward(cs, i, ports, m, s, f);
    MaxPortsBound(cs, i);
    assert Hits(cs[i].writes, s, f)[..|cs[i].writes|] == Hits(cs[i].writes, s, f);
    OrderIrrelevant(cs[i].writes, m, s, f);
  }
}
