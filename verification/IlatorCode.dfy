/** The statements the simulator generator emits, what they do, and which statements it emits for
    each expression. */
module IlatorCode {
  import opened Expressions
  import opened Rewriters

  /** Where a value is kept: a member of the module, a local variable, the copy of a next value,
      or the global variable of a concatenation. */
  datatype Place =
    | Field(name: string, sort: Sort)
    | Local(n: nat)
    | Holder(of: Place)
    | Global(node: Expr)

  datatype Stmt =
    | Compute(dst: Place, op: Op, args: seq<Place>, sort: Sort)
    | LoadTmp(dst: Place, placeholder: Place, addr: Place)  // dst = placeholder[addr], added as 0 if absent
    | StoreTmp(addr: Place, data: Place)       // tmp_memory[addr] = data
    | CallUpdate(e: Expr)                      // the function of `e` applied to tmp_memory
    | Branch(cond: Place, yes: seq<Stmt>, no: seq<Stmt>)
    | NewMemory(placeholder: Place, e: Expr)   // an empty memory filled by the function of `e`
    | Hold(src: Place)                         // its holder = src
    | SetField(name: string, src: Place)
    | MergeField(name: string, src: Place)     // each pair of the placeholder is written

  /** Buffer and table of one function under construction; `found` says that every lookup so far
      has found its entry. */
  datatype Code = Code(stmts: seq<Stmt>, lut: map<Expr, Place>, found: bool)

  /** A function about to be written, with what its table holds. */
  function Fresh(lut: map<Expr, Place>): Code {
    Code([], lut, true)
  }

  predicate MemOp(e: Expr) {
    SortOf(e).MemSort? && e.op.IsOp()
  }

  /** A load from a store or a conditional memory: its memory is looked up among the placeholders. */
  predicate FromPlaceholder(e: Expr) {
    e.op == Load && |e.args| == 2 && MemOp(e.args[0])
  }

  predicate AllIn(es: seq<Expr>, lut: map<Expr, Place>) {
    forall i :: 0 <= i < |es| ==> es[i] in lut
  }

  predicate IsConcat(e: Expr) {
    e.op.Other? && e.op.code == "CONCAT"
  }

  function At(e: Expr, lut: map<Expr, Place>): Place {
    if e in lut then lut[e] else Local(0)
  }

  function Places(es: seq<Expr>, lut: map<Expr, Place>): (ps: seq<Place>)
    ensures |ps| == |es| && forall i :: 0 <= i < |es| ==> ps[i] == At(es[i], lut)
  {
    seq(|es|, i requires 0 <= i < |es| => At(es[i], lut))
  }

  function Target(e: Expr, lut: map<Expr, Place>): Place {
    if IsConcat(e) then Global(e) else Local(|lut|)
  }

  /** The statement that computes a value from its arguments. */
  function ValueOf(e: Expr, lut: map<Expr, Place>): Stmt {
    if FromPlaceholder(e) then LoadTmp(Target(e, lut), At(e.args[0], lut), At(e.args[1], lut))
    else Compute(Target(e, lut), e.op, Places(e.args, lut), SortOf(e))
  }

  /** The code for one node whose arguments are in the table. */
  function Node(e: Expr, c: Code): Code {
    if e in c.lut then c
    else if e.op.Var? then c.(lut := c.lut[e := Field(e.op.name, e.op.varSort)])
    else if MemOp(e) then
      if IsStore(e) then Code(c.stmts + [StoreTmp(At(e.args[1], c.lut), At(e.args[2], c.lut))], c.lut, c.found && AllIn(e.args[1..], c.lut))
      else c.(stmts := c.stmts + [CallUpdate(e)])
    else Code(c.stmts + [ValueOf(e, c.lut)], c.lut[e := Target(e, c.lut)], c.found && AllIn(e.args, c.lut))
  }

  /** The code for an expression: nodes that are in the table are passed over. */
  function Render(e: Expr, c: Code): Code
    decreases e, |e.args| + 1
  {
    if e in c.lut then c else Node(e, RenderArgs(e, |e.args|, c))
  }

  function RenderArgs(e: Expr, n: nat, c: Code): Code
    requires n <= |e.args|
    decreases e, n
  {
    if n == 0 then c else Render(e.args[n - 1], RenderArgs(e, n - 1, c))
  }

  /** The code for a memory: a conditional below is left to its own function. */
  function MemRender(e: Expr, c: Code): Code
    decreases e, |e.args| + 1
  {
    if MemOp(e) && e.op == Ite then Node(e, c) else Node(e, MemRenderArgs(e, |e.args|, c))
  }

  function MemRenderArgs(e: Expr, n: nat, c: Code): Code
    requires n <= |e.args|
    decreases e, n
  {
    if n == 0 then c else MemRender(e.args[n - 1], MemRenderArgs(e, n - 1, c))
  }

  /** The body of the function of a store or conditional. */
  function Body(e: Expr): seq<Stmt> {
    if e.op == Ite && |e.args| == 3 then
      var cond := Render(e.args[0], Fresh(map[]));
      cond.stmts + [Branch(At(e.args[0], cond.lut), MemRender(e.args[1], Fresh(cond.lut)).stmts, MemRender(e.args[2], Fresh(cond.lut)).stmts)]
    else MemRender(e, Fresh(map[])).stmts
  }

  datatype Machine = Machine(state: State, locals: map<Place, Value>, globals: map<Expr, Value>,
                             tmp: map<int, int>, overlays: map<Place, map<int, int>>)

  ghost function Get(p: Place, m: Machine): Value {
    match p
    case Field(name, sort) => Lookup(m.state, name, sort)
    case Global(node) => if node in m.globals then m.globals[node] else Bool(false)
    case _ => if p in m.locals then m.locals[p] else Bool(false)
  }

  ghost function Gets(ps: seq<Place>, m: Machine): (vs: seq<Value>)
    ensures |vs| == |ps| && forall i :: 0 <= i < |ps| ==> vs[i] == Get(ps[i], m)
  {
    seq(|ps|, i requires 0 <= i < |ps| => Get(ps[i], m))
  }

  ghost function Set(p: Place, v: Value, m: Machine): Machine {
    match p
    case Field(name, _) => m.(state := m.state[name := v])
    case Global(node) => m.(globals := m.globals[node := v])
    case _ => m.(locals := m.locals[p := v])
  }

  /** A memory with the pairs of an overlay written over it. */
  ghost function Overlaid(t: map<int, int>, base: Memory): Memory {
    var r := imap a: int | true :: if a in t then t[a] else base[a];
    assert forall a :: a in r;
    r
  }

  ghost function OverlayAt(p: Place, m: Machine): map<int, int> {
    if p in m.overlays then m.overlays[p] else map[]
  }

  /** The word a map of pairs shows at an address. */
  function Word0(t: map<int, int>, a: int): int {
    if a in t then t[a] else 0
  }

  /** Fresh locals, the given temporary memory, and the members and globals of the caller. */
  ghost function Frame(m: Machine, tmp: map<int, int>): Machine {
    Machine(m.state, map[], m.globals, tmp, map[])
  }

  /** Run statements in order.  A function may call only functions of lower expressions. */
  ghost function Exec(stmts: seq<Stmt>, m: Machine, f: Ops, h: nat): Machine
    decreases h, stmts
  {
    if stmts == [] then m
    else
      var b := Exec(stmts[..|stmts| - 1], m, f, h);
      match stmts[|stmts| - 1]
      case Compute(dst, op, args, sort) => Set(dst, Apply(op, Gets(args, b), sort, b.state, f), b)
      case LoadTmp(dst, p, addr) =>
        var a := Get(addr, b).AsWord();
        Set(dst, Word(Word0(OverlayAt(p, b), a)), b.(overlays := b.overlays[p := OverlayAt(p, b)[a := Word0(OverlayAt(p, b), a)]]))
      case StoreTmp(addr, data) => b.(tmp := b.tmp[Get(addr, b).AsWord() := Get(data, b).AsWord()])
      case CallUpdate(e) =>
        if Height(e) < h then
          var r := Exec(Body(e), Frame(b, b.tmp), f, Height(e));
          b.(globals := r.globals, tmp := r.tmp)
        else b
      case Branch(cond, yes, no) => if Get(cond, b).IsTrue() then Exec(yes, b, f, h) else Exec(no, b, f, h)
      case NewMemory(dst, e) =>
        if Height(e) < h then
          var r := Exec(Body(e), Frame(b, map[]), f, Height(e));
          b.(globals := r.globals, overlays := b.overlays[dst := r.tmp])
        else b
      case Hold(src) => Set(Holder(src), Get(src, b), b)
      case SetField(name, src) => b.(state := b.state[name := Get(src, b)])
      case MergeField(name, src) => b.(state := b.state[name := Mem(Overlaid(OverlayAt(src, b), MemOf(b.state, name)))])
  }
}
