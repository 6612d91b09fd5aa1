/** Expression nodes and what they mean in a state.  A node carries the number its symbol received
    when it was built, so two nodes are the same object exactly when they are equal. */
module Expressions {

  datatype Sort = BoolSort | WordSort(width: nat) | MemSort(addrWidth: nat, dataWidth: nat)

  datatype Op =
    | Var(name: string, varSort: Sort)
    | BoolConst(flag: bool)
    | WordConst(value: int, width: nat)
    | MemConst(background: int, contents: map<int, int>, addrWidth: nat, dataWidth: nat)
    | And
    | Not
    | Eq
    | Ite
    | Load
    | Store
    | Other(code: string, params: seq<int>, resultSort: Sort)  // any other operator or function
  {
    predicate IsOp() {
      !Var? && !IsConst()
    }

    predicate IsConst() {
      BoolConst? || WordConst? || MemConst?
    }
  }

  datatype Expr = Expr(id: nat, op: Op, args: seq<Expr>)

  /** `e` occurs in `t`, as `t` or below it. */
  ghost predicate Within(e: Expr, t: Expr)
    decreases t
  {
    e == t || exists i :: 0 <= i < |t.args| && Within(e, t.args[i])
  }

  function SortOf(e: Expr): Sort {
    match e.op
    case Var(_, sort) => sort
    case BoolConst(_) => BoolSort
    case WordConst(_, width) => WordSort(width)
    case MemConst(_, _, a, d) => MemSort(a, d)
    case Ite => if |e.args| == 3 then SortOf(e.args[1]) else BoolSort
    case Load => if |e.args| == 2 && SortOf(e.args[0]).MemSort? then WordSort(SortOf(e.args[0]).dataWidth) else BoolSort
    case Store => if |e.args| == 3 then SortOf(e.args[0]) else BoolSort
    case Other(_, _, sort) => sort
    case _ => BoolSort
  }

  /** The checks the constructors of the operators make. */
  predicate WellSorted(e: Expr) {
    && (forall i :: 0 <= i < |e.args| ==> WellSorted(e.args[i]))
    && match e.op
       case And => |e.args| == 2 && (forall i :: 0 <= i < 2 ==> SortOf(e.args[i]) == BoolSort)
       case Not => |e.args| == 1 && SortOf(e.args[0]) == BoolSort
       case Eq => |e.args| == 2 && SortOf(e.args[0]) == SortOf(e.args[1])
       case Ite => |e.args| == 3 && SortOf(e.args[0]) == BoolSort && SortOf(e.args[1]) == SortOf(e.args[2])
       case Load => |e.args| == 2 && LoadSorts(SortOf(e.args[0]), SortOf(e.args[1]))
       case Store =>
         && |e.args| == 3 && LoadSorts(SortOf(e.args[0]), SortOf(e.args[1]))
         && SortOf(e.args[2]) == WordSort(SortOf(e.args[0]).dataWidth)
       case Other(_, _, _) => true
       case _ => e.args == []
  }

  predicate LoadSorts(mem: Sort, addr: Sort) {
    mem.MemSort? && addr == WordSort(mem.addrWidth)
  }

  /** Memories hold a word at every address. */
  ghost predicate Total(m: imap<int, int>) {
    forall a :: a in m
  }

  ghost function Filled(background: int, contents: map<int, int>): (m: imap<int, int>)
    ensures Total(m)
  {
    imap a: int | true :: if a in contents then contents[a] else background
  }

  ghost function Blank(): Memory {
    Filled(0, map[])
  }

  type Memory = m: imap<int, int> | Total(m) ghost witness Filled(0, map[])

  datatype Value = Bool(b: bool) | Word(w: int) | Mem(m: Memory)
  {
    ghost predicate IsTrue() {
      Bool? && b
    }

    ghost function AsWord(): int {
      if Word? then w else 0
    }

    ghost function AsMem(): Memory {
      if Mem? then m else Blank()
    }
  }

  /** The value itself when it has the sort, some value of the sort otherwise. */
  ghost function Cast(v: Value, sort: Sort): Value {
    match sort
    case BoolSort => Bool(v.IsTrue())
    case WordSort(_) => Word(v.AsWord())
    case MemSort(_, _) => Mem(v.AsMem())
  }

  type State = map<string, Value>

  ghost function Lookup(s: State, name: string, sort: Sort): Value {
    Cast(if name in s then s[name] else Bool(false), sort)
  }

  ghost function MemOf(s: State, name: string): Memory {
    Lookup(s, name, MemSort(0, 0)).AsMem()
  }

  /** The two states agree on one name. */
  ghost predicate SameAt(t: State, s: State, x: string) {
    (x in t <==> x in s) && (x in t ==> t[x] == s[x])
  }

  /** What the uninterpreted operators and functions compute. */
  type Ops = (string, seq<int>, seq<Value>) -> Value

  ghost function Write(m: Memory, a: int, d: int): (r: Memory) {
    var r := m[a := d];
    assert forall x :: x in r;
    r
  }

  ghost function Eval(e: Expr, s: State, f: Ops): Value {
    var vs := seq(|e.args|, i requires 0 <= i < |e.args| => Eval(e.args[i], s, f));
    Apply(e.op, vs, SortOf(e), s, f)
  }

  ghost function Apply(op: Op, vs: seq<Value>, sort: Sort, s: State, f: Ops): Value {
    match op
    case Var(name, sort) => Lookup(s, name, sort)
    case BoolConst(flag) => Bool(flag)
    case WordConst(value, _) => Word(value)
    case MemConst(background, contents, _, _) => Mem(Filled(background, contents))
    case And => Bool(|vs| == 2 && vs[0].IsTrue() && vs[1].IsTrue())
    case Not => Bool(|vs| == 1 && !vs[0].IsTrue())
    case Eq => Bool(|vs| == 2 && vs[0] == vs[1])
    case Ite => if |vs| == 3 then if vs[0].IsTrue() then vs[1] else vs[2] else Bool(false)
    case Load => if |vs| == 2 then Word(vs[0].AsMem()[vs[1].AsWord()]) else Word(0)
    case Store => if |vs| == 3 then Mem(Write(vs[0].AsMem(), vs[1].AsWord(), vs[2].AsWord())) else Mem(Blank())
    case Other(code, params, _) => Cast(f(code, params, vs), sort)
  }

  ghost predicate HasSort(v: Value, sort: Sort) {
    match sort
    case BoolSort => v.Bool?
    case WordSort(_) => v.Word?
    case MemSort(_, _) => v.Mem?
  }

  /** A well-sorted expression takes values of its sort. */
  lemma {:induction false} EvalHasSort(e: Expr, s: State, f: Ops)
    requires WellSorted(e)
    ensures HasSort(Eval(e, s, f), SortOf(e))
  {
    if e.op.Ite? {
      EvalHasSort(e.args[1], s, f);
      EvalHasSort(e.args[2], s, f);
    }
  }

  /** Two expressions of one sort with the same value in every state. */
  ghost predicate Same(d: Expr, e: Expr) {
    && SortOf(d) == SortOf(e) && WellSorted(d)
    && forall s: State, f: Ops :: Eval(d, s, f) == Eval(e, s, f)
  }

  lemma {:induction false} EvalIte(e: Expr, s: State, f: Ops)
    requires e.op == Ite && |e.args| == 3
    ensures Eval(e, s, f) == if Eval(e.args[0], s, f).IsTrue() then Eval(e.args[1], s, f) else Eval(e.args[2], s, f)
  {
  }

  lemma {:induction false} EvalStore(e: Expr, s: State, f: Ops)
    requires e.op == Store && |e.args| == 3
    ensures Eval(e, s, f) == Mem(Write(Eval(e.args[0], s, f).AsMem(), Eval(e.args[1], s, f).AsWord(), Eval(e.args[2], s, f).AsWord()))
  {
  }

  lemma {:induction false} EvalLoad(e: Expr, s: State, f: Ops)
    requires e.op == Load && |e.args| == 2
    ensures Eval(e, s, f) == Word(Eval(e.args[0], s, f).AsMem()[Eval(e.args[1], s, f).AsWord()])
  {
  }

  /** An operator applied to arguments of equal value has an equal value. */
  lemma {:induction false} SameArgs(d: Expr, e: Expr)
    requires WellSorted(e) && d.op == e.op && |d.args| == |e.args|
    requires forall i :: 0 <= i < |e.args| ==> Same(d.args[i], e.args[i])
    ensures Same(d, e)
  {
    forall s: State, f: Ops ensures Eval(d, s, f) == Eval(e, s, f) {
      var vd := seq(|d.args|, i requires 0 <= i < |d.args| => Eval(d.args[i], s, f));
      var ve := seq(|e.args|, i requires 0 <= i < |e.args| => Eval(e.args[i], s, f));
      assert forall i :: 0 <= i < |e.args| ==> Same(d.args[i], e.args[i]) && vd[i] == ve[i];
      assert vd == ve;
    }
  }
}
