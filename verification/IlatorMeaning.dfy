/** Each place holds what the generated code makes of its expression, and the memory functions
    build an overlay that turns the old memory into the value of the update. */
module IlatorMeaning {
  import opened Expressions
  import opened Prefixes
  import opened Rewriters
  import opened IlatorCode

  /** No store or conditional over memories in it, so none is loaded from. */
  ghost predicate Plain(e: Expr) {
    !MemOp(e) && forall i :: 0 <= i < |e.args| ==> Plain(e.args[i])
  }

  /** Stores and conditionals over memory variables and constants, with plain addresses, words and
      conditions. */
  ghost predicate StoreTree(e: Expr) {
    && SortOf(e).MemSort?
    && match e.op
       case Store => |e.args| == 3 && StoreTree(e.args[0]) && Plain(e.args[1]) && Plain(e.args[2])
       case Ite => |e.args| == 3 && Plain(e.args[0]) && StoreTree(e.args[1]) && StoreTree(e.args[2])
       case _ => !e.op.IsOp() && e.args == []
  }

  /** Stores and conditionals over memories only where they are loaded from, and those are among
      the ones with a placeholder. */
  ghost predicate Renderable(e: Expr, mems: set<Expr>) {
    !MemOp(e) && forall i :: 0 <= i < |e.args| ==> Renderable(e.args[i], mems) || HeldArg(e, i, mems)
  }

  ghost predicate ArgsFit(e: Expr, mems: set<Expr>) {
    forall i :: 0 <= i < |e.args| ==> ArgFits(e, i, mems)
  }

  ghost predicate ArgFits(e: Expr, i: nat, mems: set<Expr>)
    requires i < |e.args|
  {
    Renderable(e.args[i], mems) || HeldArg(e, i, mems)
  }

  /** The argument is the memory of a load and has a placeholder. */
  ghost predicate HeldArg(e: Expr, i: nat, mems: set<Expr>)
    requires i < |e.args|
  {
    i == 0 && FromPlaceholder(e) && e.args[0] in mems
  }

  lemma {:induction false} PlainIsRenderable(e: Expr, mems: set<Expr>)
    requires Plain(e)
    ensures Renderable(e, mems) && !FromPlaceholder(e)
  {
    forall i | 0 <= i < |e.args| ensures Renderable(e.args[i], mems) {
      PlainIsRenderable(e.args[i], mems);
    }
  }

  /** The pairs a store tree writes, over those already there. */
  ghost function Written(e: Expr, t: map<int, int>, s: State, f: Ops): map<int, int> {
    match e.op
    case Store =>
      if |e.args| == 3 then Written(e.args[0], t, s, f)[Eval(e.args[1], s, f).AsWord() := Eval(e.args[2], s, f).AsWord()] else t
    case Ite =>
      if |e.args| == 3 then if Eval(e.args[0], s, f).IsTrue() then Written(e.args[1], t, s, f) else Written(e.args[2], t, s, f) else t
    case _ => t
  }

  /** What the generated code computes: a load from a placeholder sees the pairs written, and 0
      everywhere else. */
  ghost function Computed(e: Expr, s: State, f: Ops): Value {
    if FromPlaceholder(e) then Word(Word0(Written(e.args[0], map[], s, f), Computed(e.args[1], s, f).AsWord()))
    else
      var vs := seq(|e.args|, i requires 0 <= i < |e.args| => Computed(e.args[i], s, f));
      Apply(e.op, vs, SortOf(e), s, f)
  }

  /** Of a plain expression it computes the value. */
  lemma {:induction false} PlainComputed(e: Expr, s: State, f: Ops)
    requires Plain(e)
    ensures Computed(e, s, f) == Eval(e, s, f)
  {
    PlainIsRenderable(e, {});
    var vs := seq(|e.args|, i requires 0 <= i < |e.args| => Computed(e.args[i], s, f));
    var ws := seq(|e.args|, i requires 0 <= i < |e.args| => Eval(e.args[i], s, f));
    forall i | 0 <= i < |e.args| ensures vs[i] == ws[i] {
      PlainComputed(e.args[i], s, f);
    }
    assert vs == ws;
  }

  /** A map of pairs that also shows 0 at the addresses asked for. */
  ghost function Padded(t: map<int, int>, asked: set<int>): map<int, int> {
    map a | a in t.Keys + asked :: Word0(t, a)
  }

  /** The addresses at which the loads of a table have asked a placeholder. */
  ghost function Asked(e: Expr, lut: map<Expr, Place>, s: State, f: Ops): set<int> {
    set x | x in lut && LoadsFrom(x, e) :: Computed(x.args[1], s, f).AsWord()
  }

  ghost predicate LoadsFrom(x: Expr, e: Expr) {
    FromPlaceholder(x) && x.args[0] == e
  }

  /** The place of an expression among `n` table entries. */
  ghost predicate PlaceFor(e: Expr, p: Place, n: nat) {
    && !p.Holder? && (p.Local? ==> p.n < n) && (p.Global? ==> p.node == e && !MemOp(e))
    && (MemOp(e) ==> p.Local?)
  }

  ghost predicate Right(e: Expr, p: Place, m: Machine, lut: map<Expr, Place>, s: State, f: Ops) {
    if MemOp(e) then OverlayAt(p, m) == Padded(Written(e, map[], s, f), Asked(e, lut, s, f)) else Get(p, m) == Computed(e, s, f)
  }

  /** Globals keep what they hold or take what their expression computes. */
  ghost predicate GlobalsOk(m: Machine, m0: Machine, f: Ops) {
    && m0.globals.Keys <= m.globals.Keys
    && forall n :: n in m.globals ==>
         (n in m0.globals && m.globals[n] == m0.globals[n]) || m.globals[n] == Computed(n, m0.state, f)
  }

  /** Every load of a table has its memory there, and no two memories share a placeholder. */
  ghost predicate Placed(lut: map<Expr, Place>) {
    && (forall x {:trigger FromPlaceholder(x)} :: x in lut && FromPlaceholder(x) ==> x.args[0] in lut)
    && forall x, y :: x in lut && y in lut && MemOp(x) && MemOp(y) && x != y ==> lut[x] != lut[y]
  }

  /** The members are untouched and every table entry is right. */
  ghost predicate Good(lut: map<Expr, Place>, m: Machine, m0: Machine, f: Ops) {
    && m.state == m0.state && GlobalsOk(m, m0, f) && Placed(lut)
    && forall e :: e in lut ==> PlaceFor(e, lut[e], |lut|) && Right(e, lut[e], m, lut, m0.state, f)
  }

  ghost predicate GoodCode(c: Code, start: Machine, m0: Machine, f: Ops, h: nat) {
    Good(c.lut, Exec(c.stmts, start, f, h), m0, f)
  }

  /** More code leaves the entries of the table and the temporary memory. */
  ghost predicate Extends(c: Code, d: Code, start: Machine, m0: Machine, f: Ops, h: nat) {
    && GoodCode(d, start, m0, f, h)
    && (forall e :: e in c.lut ==> e in d.lut && d.lut[e] == c.lut[e])
    && (forall e :: e in d.lut && MemOp(e) ==> e in c.lut)
    && SameHolders(Exec(d.stmts, start, f, h), Exec(c.stmts, start, f, h))
  }

  ghost predicate SameHolders(m2: Machine, m: Machine) {
    forall p: Place :: Get(Holder(p), m2) == Get(Holder(p), m)
  }

  /** More code that leaves the temporary memory too. */
  ghost predicate Keeps(c: Code, d: Code, start: Machine, m0: Machine, f: Ops, h: nat) {
    Extends(c, d, start, m0, f, h) && TmpOf(d, start, f, h) == TmpOf(c, start, f, h)
  }

  ghost function TmpOf(c: Code, start: Machine, f: Ops, h: nat): map<int, int> {
    Exec(c.stmts, start, f, h).tmp
  }

  lemma {:induction false} SetElsewhere(p: Place, v: Value, m: Machine, x: Expr, q: Place, lut: map<Expr, Place>, s: State, f: Ops)
    requires p != q && !p.Field? && Right(x, q, m, lut, s, f)
    ensures Right(x, q, Set(p, v, m), lut, s, f)
  {
  }

  lemma {:induction false} TargetIsFresh(lut: map<Expr, Place>, e: Expr, x: Expr)
    requires e !in lut && x in lut && PlaceFor(x, lut[x], |lut|)
    ensures lut[x] != Target(e, lut)
  {
  }

  lemma {:induction false} OneMoreEntry(lut: map<Expr, Place>, e: Expr, p: Place)
    requires e !in lut
    ensures |lut[e := p]| == |lut| + 1
  {
    assert lut[e := p].Keys == lut.Keys + {e};
  }

  lemma {:induction false} AskedMore(x: Expr, lut: map<Expr, Place>, e: Expr, p: Place, s: State, f: Ops)
    requires e !in lut && LoadsFrom(e, x)
    ensures Asked(x, lut[e := p], s, f) == Asked(x, lut, s, f) + {Computed(e.args[1], s, f).AsWord()}
  {
    var a := Computed(e.args[1], s, f).AsWord();
    assert e in lut[e := p];
    forall b | b in Asked(x, lut, s, f) ensures b in Asked(x, lut[e := p], s, f) {
      var y :| y in lut && LoadsFrom(y, x) && Computed(y.args[1], s, f).AsWord() == b;
      assert y in lut[e := p];
    }
  }

  /** A new entry that loads from no placeholder leaves the others right. */
  lemma {:induction false} OldEntry(lut: map<Expr, Place>, e: Expr, p: Place, x: Expr, m: Machine, s: State, f: Ops)
    requires e !in lut && !LoadsFrom(e, x) && x in lut && PlaceFor(x, lut[x], |lut|) && Right(x, lut[x], m, lut, s, f)
    ensures PlaceFor(x, lut[x], |lut| + 1) && Right(x, lut[x], m, lut[e := p], s, f)
  {
  }

  lemma {:induction false} GlobalsSet(e: Expr, lut: map<Expr, Place>, m: Machine, m0: Machine, f: Ops)
    requires GlobalsOk(m, m0, f)
    ensures GlobalsOk(Set(Target(e, lut), Computed(e, m0.state, f), m), m0, f)
  {
    var m2 := Set(Target(e, lut), Computed(e, m0.state, f), m);
    assert m2.globals == if IsConcat(e) then m.globals[e := Computed(e, m0.state, f)] else m.globals;
    forall n | n in m2.globals
      ensures (n in m0.globals && m2.globals[n] == m0.globals[n]) || m2.globals[n] == Computed(n, m0.state, f)
    {
      assert n == e || n in m.globals;
    }
  }

  lemma {:induction false} PlacedMore(lut: map<Expr, Place>, e: Expr, p: Place)
    requires Placed(lut) && e !in lut && (FromPlaceholder(e) ==> e.args[0] in lut) && !MemOp(e)
    ensures Placed(lut[e := p])
  {
  }

  /** Computing a value into a new place, all other entries staying right. */
  lemma {:induction false} GoodSet(lut: map<Expr, Place>, e: Expr, m: Machine, m0: Machine, f: Ops)
    requires Good(lut, m, m0, f) && e !in lut && !MemOp(e) && !FromPlaceholder(e)
    ensures Good(lut[e := Target(e, lut)], Set(Target(e, lut), Computed(e, m0.state, f), m), m0, f)
  {
    var p, v := Target(e, lut), Computed(e, m0.state, f);
    OneMoreEntry(lut, e, p);
    GlobalsSet(e, lut, m, m0, f);
    PlacedMore(lut, e, p);
    forall x | x in lut ensures PlaceFor(x, lut[x], |lut| + 1) && Right(x, lut[x], Set(p, v, m), lut[e := p], m0.state, f) {
      BesideSet(lut, e, v, x, m, m0.state, f);
    }
    NewEntry(lut, e, m, m0.state, f);
  }

  lemma {:induction false} BesideSet(lut: map<Expr, Place>, e: Expr, v: Value, x: Expr, m: Machine, s: State, f: Ops)
    requires e !in lut && !FromPlaceholder(e) && x in lut && PlaceFor(x, lut[x], |lut|) && Right(x, lut[x], m, lut, s, f)
    ensures var p := Target(e, lut); PlaceFor(x, lut[x], |lut| + 1) && Right(x, lut[x], Set(p, v, m), lut[e := p], s, f)
  {
    var p := Target(e, lut);
    TargetIsFresh(lut, e, x);
    SetElsewhere(p, v, m, x, lut[x], lut, s, f);
    OldEntry(lut, e, p, x, Set(p, v, m), s, f);
  }

  lemma {:induction false} NewEntry(lut: map<Expr, Place>, e: Expr, m: Machine, s: State, f: Ops)
    requires !MemOp(e)
    ensures var p := Target(e, lut);
      PlaceFor(e, p, |lut| + 1) && Right(e, p, Set(p, Computed(e, s, f), m), lut[e := p], s, f)
  {
  }

  lemma {:induction false} GoodVar(lut: map<Expr, Place>, e: Expr, m: Machine, m0: Machine, f: Ops)
    requires Good(lut, m, m0, f) && e !in lut && e.op.Var?
    ensures Good(lut[e := Field(e.op.name, e.op.varSort)], m, m0, f)
  {
    var p := Field(e.op.name, e.op.varSort);
    OneMoreEntry(lut, e, p);
    PlacedMore(lut, e, p);
    forall x | x in lut ensures PlaceFor(x, lut[x], |lut| + 1) && Right(x, lut[x], m, lut[e := p], m0.state, f) {
      OldEntry(lut, e, p, x, m, m0.state, f);
    }
    assert Right(e, p, m, lut[e := p], m0.state, f);
  }

  // ----- loads from placeholders -----

  /** The machine after `dst = placeholder[a]`. */
  ghost function Loaded(m: Machine, dst: Place, p: Place, a: int): Machine {
    var w := Word0(OverlayAt(p, m), a);
    Set(dst, Word(w), m.(overlays := m.overlays[p := OverlayAt(p, m)[a := w]]))
  }

  lemma {:induction false} OtherEntry(lut: map<Expr, Place>, e: Expr, x: Expr, m: Machine, a: int, s: State, f: Ops)
    requires e !in lut && FromPlaceholder(e) && e.args[0] in lut && Placed(lut) && x in lut && x != e.args[0]
    requires PlaceFor(x, lut[x], |lut|) && PlaceFor(e.args[0], lut[e.args[0]], |lut|) && Right(x, lut[x], m, lut, s, f)
    ensures var p := Local(|lut|);
      PlaceFor(x, lut[x], |lut| + 1) && Right(x, lut[x], Loaded(m, p, lut[e.args[0]], a), lut[e := p], s, f)
  {
    TargetIsFresh(lut, e, x);
    OldEntry(lut, e, Local(|lut|), x, Loaded(m, Local(|lut|), lut[e.args[0]], a), s, f);
  }

  lemma {:induction false} AskedEntry(lut: map<Expr, Place>, e: Expr, m: Machine, s: State, f: Ops)
    requires e !in lut && FromPlaceholder(e) && e.args[0] in lut && PlaceFor(e.args[0], lut[e.args[0]], |lut|)
    requires Right(e.args[0], lut[e.args[0]], m, lut, s, f)
    ensures var p, q, a := Local(|lut|), lut[e.args[0]], Computed(e.args[1], s, f).AsWord();
      && Right(e.args[0], q, Loaded(m, p, q, a), lut[e := p], s, f)
      && Get(p, Loaded(m, p, q, a)) == Computed(e, s, f)
  {
    var x, p, a := e.args[0], Local(|lut|), Computed(e.args[1], s, f).AsWord();
    AskedMore(x, lut, e, p, s, f);
  }

  /** A load from a placeholder computes what is said above, and pads the placeholder. */
  lemma {:induction false} GoodLoad(lut: map<Expr, Place>, e: Expr, m: Machine, m0: Machine, f: Ops)
    requires Good(lut, m, m0, f) && e !in lut && FromPlaceholder(e) && !MemOp(e) && e.args[0] in lut
    ensures var p, a := Local(|lut|), Computed(e.args[1], m0.state, f).AsWord();
      Good(lut[e := p], Loaded(m, p, lut[e.args[0]], a), m0, f)
  {
    var p, q, a := Local(|lut|), lut[e.args[0]], Computed(e.args[1], m0.state, f).AsWord();
    OneMoreEntry(lut, e, p);
    PlacedMore(lut, e, p);
    AskedEntry(lut, e, m, m0.state, f);
    forall x | x in lut ensures PlaceFor(x, lut[x], |lut| + 1) && Right(x, lut[x], Loaded(m, p, q, a), lut[e := p], m0.state, f) {
      if x != e.args[0] {
        OtherEntry(lut, e, x, m, a, m0.state, f);
      }
    }
    assert PlaceFor(e, p, |lut| + 1) && Right(e, p, Loaded(m, p, q, a), lut[e := p], m0.state, f);
    LoadedMembers(m, p, q, a);
  }

  lemma {:induction false} LoadedMembers(m: Machine, p: Place, q: Place, a: int)
    requires p.Local?
    ensures Loaded(m, p, q, a).state == m.state && Loaded(m, p, q, a).globals == m.globals
  {
  }

  lemma {:induction false} LoadIsRight(e: Expr, c: Code, start: Machine, m0: Machine, f: Ops, h: nat)
    requires GoodCode(c, start, m0, f, h) && FromPlaceholder(e) && !MemOp(e) && e !in c.lut && ArgsIn(e, c.lut)
    ensures Keeps(c, Node(e, c), start, m0, f, h) && e in Node(e, c).lut
  {
    LoadExec(e, c, start, m0, f, h);
    LoadKeeps(Exec(c.stmts, start, f, h), Local(|c.lut|), c.lut[e.args[0]], Computed(e.args[1], m0.state, f).AsWord());
    LoadIsGood(e, c, start, m0, f, h);
    EntryKeeps(e, Local(|c.lut|), c, Node(e, c), start, m0, f, h);
  }

  lemma {:induction false} EntryKeeps(e: Expr, p: Place, c: Code, d: Code, start: Machine, m0: Machine, f: Ops, h: nat)
    requires GoodCode(d, start, m0, f, h) && e !in c.lut && !MemOp(e) && d.lut == c.lut[e := p]
    requires SameHolders(Exec(d.stmts, start, f, h), Exec(c.stmts, start, f, h)) && TmpOf(d, start, f, h) == TmpOf(c, start, f, h)
    ensures Keeps(c, d, start, m0, f, h) && e in d.lut
  {
  }

  lemma {:induction false} LoadIsGood(e: Expr, c: Code, start: Machine, m0: Machine, f: Ops, h: nat)
    requires GoodCode(c, start, m0, f, h) && FromPlaceholder(e) && !MemOp(e) && e !in c.lut && ArgsIn(e, c.lut)
    ensures GoodCode(Node(e, c), start, m0, f, h)
  {
    LoadExec(e, c, start, m0, f, h);
    GoodLoad(c.lut, e, Exec(c.stmts, start, f, h), m0, f);
  }

  lemma {:induction false} LoadExec(e: Expr, c: Code, start: Machine, m0: Machine, f: Ops, h: nat)
    requires GoodCode(c, start, m0, f, h) && FromPlaceholder(e) && !MemOp(e) && e !in c.lut && ArgsIn(e, c.lut)
    ensures e.args[0] in c.lut && Node(e, c).lut == c.lut[e := Local(|c.lut|)]
    ensures Exec(Node(e, c).stmts, start, f, h)
      == Loaded(Exec(c.stmts, start, f, h), Local(|c.lut|), c.lut[e.args[0]], Computed(e.args[1], m0.state, f).AsWord())
  {
    var m := Exec(c.stmts, start, f, h);
    assert e.args[0] in c.lut.Keys && e.args[1] in c.lut.Keys && !MemOp(e.args[1]);
    assert Right(e.args[1], c.lut[e.args[1]], m, c.lut, m0.state, f);
  }

  lemma {:induction false} LoadKeeps(m: Machine, p: Place, q: Place, a: int)
    requires p.Local?
    ensures SameHolders(Loaded(m, p, q, a), m) && Loaded(m, p, q, a).tmp == m.tmp
  {
  }

  // ----- other nodes -----

  /** The arguments of a node are in the table, none of them a store or a conditional memory but
      the memory of a load. */
  ghost predicate ArgsIn(e: Expr, lut: map<Expr, Place>) {
    FirstIn(e.args, |e.args|, lut.Keys) && forall i :: 0 <= i < |e.args| ==> !MemOp(e.args[i]) || (i == 0 && FromPlaceholder(e))
  }

  lemma {:induction false} ArgValues(e: Expr, lut: map<Expr, Place>, m: Machine, m0: Machine, f: Ops)
    requires Good(lut, m, m0, f) && ArgsIn(e, lut) && !FromPlaceholder(e)
    ensures Apply(e.op, Gets(Places(e.args, lut), m), SortOf(e), m0.state, f) == Computed(e, m0.state, f)
  {
    var vs := Gets(Places(e.args, lut), m);
    var ws := seq(|e.args|, i requires 0 <= i < |e.args| => Computed(e.args[i], m0.state, f));
    forall i | 0 <= i < |e.args| ensures vs[i] == ws[i] {
      assert e.args[i] in lut.Keys;
      assert Right(e.args[i], lut[e.args[i]], m, lut, m0.state, f);
    }
    assert vs == ws;
  }

  lemma {:induction false} ComputeIsRight(e: Expr, c: Code, start: Machine, m0: Machine, f: Ops, h: nat)
    requires GoodCode(c, start, m0, f, h) && !MemOp(e) && !FromPlaceholder(e) && !e.op.Var? && e !in c.lut && ArgsIn(e, c.lut)
    ensures Keeps(c, Node(e, c), start, m0, f, h) && e in Node(e, c).lut
  {
    var m := Exec(c.stmts, start, f, h);
    ArgValues(e, c.lut, m, m0, f);
    GoodSet(c.lut, e, m, m0, f);
    HoldersBeside(Target(e, c.lut), Computed(e, m0.state, f), m);
  }

  lemma {:induction false} HoldersBeside(p: Place, v: Value, m: Machine)
    requires p.Local? || p.Global?
    ensures SameHolders(Set(p, v, m), m) && Set(p, v, m).tmp == m.tmp
  {
  }

  /** A node whose arguments are in the table gets a right place. */
  lemma {:induction false} NodeIsRight(e: Expr, c: Code, start: Machine, m0: Machine, f: Ops, h: nat)
    requires GoodCode(c, start, m0, f, h) && !MemOp(e) && ArgsIn(e, c.lut)
    ensures Keeps(c, Node(e, c), start, m0, f, h) && e in Node(e, c).lut
  {
    if e !in c.lut {
      if e.op.Var? {
        GoodVar(c.lut, e, Exec(c.stmts, start, f, h), m0, f);
      } else if FromPlaceholder(e) {
        LoadIsRight(e, c, start, m0, f, h);
      } else {
        ComputeIsRight(e, c, start, m0, f, h);
      }
    }
  }

  lemma {:induction false} ExtendsTrans(a: Code, b: Code, c: Code, start: Machine, m0: Machine, f: Ops, h: nat)
    requires Extends(a, b, start, m0, f, h) && Extends(b, c, start, m0, f, h)
    ensures Extends(a, c, start, m0, f, h)
  {
  }

  /** The first `n` expressions have been rendered between the two. */
  ghost predicate Rendered(es: seq<Expr>, n: nat, c: Code, d: Code, start: Machine, m0: Machine, f: Ops, h: nat) {
    Keeps(c, d, start, m0, f, h) && FirstIn(es, n, d.lut.Keys)
  }

  lemma {:induction false} NoneRendered(es: seq<Expr>, n: nat, c: Code, start: Machine, m0: Machine, f: Ops, h: nat)
    requires GoodCode(c, start, m0, f, h) && n == 0
    ensures Rendered(es, n, c, c, start, m0, f, h)
  {
  }

  lemma {:induction false} OneMoreArg(es: seq<Expr>, n: nat, c: Code, d: Code, d2: Code, start: Machine, m0: Machine, f: Ops, h: nat)
    requires 0 < n <= |es| && Rendered(es, n - 1, c, d, start, m0, f, h)
    requires Keeps(d, d2, start, m0, f, h) && es[n - 1] in d2.lut
    ensures Rendered(es, n, c, d2, start, m0, f, h)
  {
    ExtendsTrans(c, d, d2, start, m0, f, h);
    OneMoreIn(es, n - 1, d.lut.Keys, d2.lut.Keys);
  }

  ghost predicate Held(mems: set<Expr>, lut: map<Expr, Place>) {
    forall x :: x in mems ==> x in lut && MemOp(x)
  }

  /** Rendering gives an expression a right place. */
  lemma {:induction false} RenderIsRight(e: Expr, mems: set<Expr>, c: Code, start: Machine, m0: Machine, f: Ops, h: nat)
    requires GoodCode(c, start, m0, f, h) && Held(mems, c.lut) && Renderable(e, mems)
    ensures Keeps(c, Render(e, c), start, m0, f, h) && e in Render(e, c).lut
    decreases e, |e.args| + 1
  {
    if e !in c.lut {
      assert ArgsFit(e, mems);
      var d := RenderArgs(e, |e.args|, c);
      ArgsAreRight(e, mems, c, start, m0, f, h);
      forall i | 0 <= i < |e.args| ensures !MemOp(e.args[i]) || (i == 0 && FromPlaceholder(e)) {
        assert ArgFits(e, i, mems);
      }
      NodeIsRight(e, d, start, m0, f, h);
      ExtendsTrans(c, d, Node(e, d), start, m0, f, h);
    }
  }

  /** What holds before the first argument and is kept by each holds after all. */
  lemma {:induction false} ArgsInTurn(e: Expr, n: nat, c: Code, P: (nat, Code) -> bool)
    requires n <= |e.args| && P(0, c)
    requires forall k: nat, d :: k < n && P(k, d) ==> P(k + 1, Render(e.args[k], d))
    ensures P(n, RenderArgs(e, n, c))
  {
    if n > 0 {
      ArgsInTurn(e, n - 1, c, P);
    }
  }

  lemma {:induction false} ArgsAreRight(e: Expr, mems: set<Expr>, c: Code, start: Machine, m0: Machine, f: Ops, h: nat)
    requires GoodCode(c, start, m0, f, h) && Held(mems, c.lut) && ArgsFit(e, mems)
    ensures Rendered(e.args, |e.args|, c, RenderArgs(e, |e.args|, c), start, m0, f, h)
    decreases e, |e.args|
  {
    var P := (k: nat, d: Code) => Rendered(e.args, k, c, d, start, m0, f, h);
    NoneRendered(e.args, 0, c, start, m0, f, h);
    forall k: nat, d | k < |e.args| && P(k, d) ensures P(k + 1, Render(e.args[k], d)) {
      ArgIsRight(e, k + 1, mems, c, d, Render(e.args[k], d), start, m0, f, h);
    }
    ArgsInTurn(e, |e.args|, c, P);
  }

  lemma {:induction false} ArgIsRight(e: Expr, n: nat, mems: set<Expr>, c: Code, d: Code, d2: Code, start: Machine, m0: Machine, f: Ops, h: nat)
    requires 0 < n <= |e.args| && Held(mems, c.lut) && ArgsFit(e, mems) && Rendered(e.args, n - 1, c, d, start, m0, f, h)
    requires d2 == Render(e.args[n - 1], d)
    ensures Rendered(e.args, n, c, d2, start, m0, f, h)
    decreases e, n, 0
  {
    assert ArgFits(e, n - 1, mems);
    assert Held(mems, d.lut);
    if Renderable(e.args[n - 1], mems) {
      RenderIsRight(e.args[n - 1], mems, d, start, m0, f, h);
    } else {
      assert HeldArg(e, n - 1, mems);
    }
    OneMoreArg(e.args, n, c, d, d2, start, m0, f, h);
  }

  /** The same for a plain expression met while a memory is rendered. */
  lemma {:induction false} PlainPartIsRight(e: Expr, c: Code, start: Machine, m0: Machine, f: Ops, h: nat)
    requires GoodCode(c, start, m0, f, h) && Plain(e)
    ensures Keeps(c, MemRender(e, c), start, m0, f, h) && e in MemRender(e, c).lut
    decreases e, |e.args| + 1
  {
    assert ArgsPlain(e);
    var d := MemRenderArgs(e, |e.args|, c);
    PlainArgsAreRight(e, c, start, m0, f, h);
    assert forall i :: 0 <= i < |e.args| ==> Plain(e.args[i]);
    NodeIsRight(e, d, start, m0, f, h);
    ExtendsTrans(c, d, Node(e, d), start, m0, f, h);
  }

  ghost predicate ArgsPlain(e: Expr) {
    forall i :: 0 <= i < |e.args| ==> Plain(e.args[i])
  }

  lemma {:induction false} MemArgsInTurn(e: Expr, n: nat, c: Code, P: (nat, Code) -> bool)
    requires n <= |e.args| && P(0, c)
    requires forall k: nat, d :: k < n && P(k, d) ==> P(k + 1, MemRender(e.args[k], d))
    ensures P(n, MemRenderArgs(e, n, c))
  {
    if n > 0 {
      MemArgsInTurn(e, n - 1, c, P);
    }
  }

  lemma {:induction false} PlainArgsAreRight(e: Expr, c: Code, start: Machine, m0: Machine, f: Ops, h: nat)
    requires GoodCode(c, start, m0, f, h) && ArgsPlain(e)
    ensures Rendered(e.args, |e.args|, c, MemRenderArgs(e, |e.args|, c), start, m0, f, h)
    decreases e, |e.args|
  {
    var P := (k: nat, d: Code) => Rendered(e.args, k, c, d, start, m0, f, h);
    NoneRendered(e.args, 0, c, start, m0, f, h);
    forall k: nat, d | k < |e.args| && P(k, d) ensures P(k + 1, MemRender(e.args[k], d)) {
      PlainArgIsRight(e, k + 1, c, d, MemRender(e.args[k], d), start, m0, f, h);
    }
    MemArgsInTurn(e, |e.args|, c, P);
  }

  lemma {:induction false} PlainArgIsRight(e: Expr, n: nat, c: Code, d: Code, d2: Code, start: Machine, m0: Machine, f: Ops, h: nat)
    requires 0 < n <= |e.args| && ArgsPlain(e) && Rendered(e.args, n - 1, c, d, start, m0, f, h)
    requires d2 == MemRender(e.args[n - 1], d)
    ensures Rendered(e.args, n, c, d2, start, m0, f, h)
    decreases e, n, 0
  {
    PlainPartIsRight(e.args[n - 1], d, start, m0, f, h);
    OneMoreArg(e.args, n, c, d, d2, start, m0, f, h);
  }

  ghost predicate NoMemory(lut: map<Expr, Place>) {
    forall e :: e in lut ==> !MemOp(e)
  }

  lemma {:induction false} StoreExec(e: Expr, c: Code, start: Machine, m0: Machine, f: Ops, h: nat)
    requires GoodCode(c, start, m0, f, h) && NoMemory(c.lut) && IsStore(e) && SortOf(e).MemSort?
    requires e.args[1] in c.lut && e.args[2] in c.lut && Plain(e.args[1]) && Plain(e.args[2])
    ensures var b := Exec(c.stmts, start, f, h);
      && Node(e, c).lut == c.lut
      && Exec(Node(e, c).stmts, start, f, h) == b.(tmp := b.tmp[Eval(e.args[1], m0.state, f).AsWord() := Eval(e.args[2], m0.state, f).AsWord()])
  {
    var m := Exec(c.stmts, start, f, h);
    assert Right(e.args[1], c.lut[e.args[1]], m, c.lut, m0.state, f) && Right(e.args[2], c.lut[e.args[2]], m, c.lut, m0.state, f);
    PlainComputed(e.args[1], m0.state, f);
    PlainComputed(e.args[2], m0.state, f);
  }

  /** A store node adds its pair. */
  lemma {:induction false} StoreIsRight(e: Expr, c: Code, start: Machine, m0: Machine, f: Ops, h: nat)
    requires GoodCode(c, start, m0, f, h) && NoMemory(c.lut) && IsStore(e) && SortOf(e).MemSort?
    requires e.args[1] in c.lut && e.args[2] in c.lut && Plain(e.args[1]) && Plain(e.args[2])
    ensures Extends(c, Node(e, c), start, m0, f, h)
    ensures TmpOf(Node(e, c), start, f, h)
      == TmpOf(c, start, f, h)[Eval(e.args[1], m0.state, f).AsWord() := Eval(e.args[2], m0.state, f).AsWord()]
  {
    StoreExec(e, c, start, m0, f, h);
    TmpKeepsGood(c.lut, Exec(c.stmts, start, f, h), Exec(Node(e, c).stmts, start, f, h), m0, f);
  }

  /** What leaves members, locals, placeholders and globals leaves the table right. */
  lemma {:induction false} TmpKeepsGood(lut: map<Expr, Place>, m: Machine, m2: Machine, m0: Machine, f: Ops)
    requires Good(lut, m, m0, f)
    requires m2.state == m.state && m2.locals == m.locals && m2.overlays == m.overlays && GlobalsOk(m2, m, f)
    ensures Good(lut, m2, m0, f)
  {
    assert GlobalsOk(m2, m0, f);
    forall e | e in lut ensures Right(e, lut[e], m2, lut, m0.state, f) {
      assert Right(e, lut[e], m, lut, m0.state, f) && PlaceFor(e, lut[e], |lut|);
    }
  }

  /** A machine run by a function: the members are untouched, the memory has gained its pairs. */
  ghost predicate Fills(e: Expr, r: Machine, m: Machine, f: Ops) {
    r.state == m.state && GlobalsOk(r, m, f) && r.tmp == Written(e, m.tmp, m.state, f)
  }

  /** After a call: globals and temporary memory as the function leaves them. */
  ghost function Returned(b: Machine, r: Machine): Machine {
    b.(globals := r.globals, tmp := r.tmp)
  }

  lemma {:induction false} ReturnedIsRight(e: Expr, lut: map<Expr, Place>, b: Machine, r: Machine, m0: Machine, f: Ops)
    requires Good(lut, b, m0, f) && Fills(e, r, Frame(b, b.tmp), f)
    ensures Good(lut, Returned(b, r), m0, f) && SameHolders(Returned(b, r), b)
    ensures Returned(b, r).tmp == Written(e, b.tmp, m0.state, f)
  {
    TmpKeepsGood(lut, b, Returned(b, r), m0, f);
  }

  lemma {:induction false} CallIsRight(e: Expr, c: Code, start: Machine, m0: Machine, f: Ops, h: nat)
    requires GoodCode(c, start, m0, f, h) && NoMemory(c.lut) && MemOp(e) && e.op == Ite && Height(e) < h
    requires var b := Exec(c.stmts, start, f, h); Fills(e, Exec(Body(e), Frame(b, b.tmp), f, Height(e)), Frame(b, b.tmp), f)
    ensures Extends(c, Node(e, c), start, m0, f, h)
    ensures TmpOf(Node(e, c), start, f, h) == Written(e, TmpOf(c, start, f, h), m0.state, f)
  {
    var b := Exec(c.stmts, start, f, h);
    ReturnedIsRight(e, c.lut, b, Exec(Body(e), Frame(b, b.tmp), f, Height(e)), m0, f);
  }

  /** Rendering a store tree adds the pairs it writes. */
  lemma {:induction false} TreeIsRight(e: Expr, c: Code, start: Machine, m0: Machine, f: Ops, h: nat)
    requires GoodCode(c, start, m0, f, h) && NoMemory(c.lut) && StoreTree(e)
    requires Height(e) < h || (Height(e) == h && e.op != Ite)
    ensures Extends(c, MemRender(e, c), start, m0, f, h)
    ensures TmpOf(MemRender(e, c), start, f, h) == Written(e, TmpOf(c, start, f, h), m0.state, f)
    decreases Height(e), if e.op == Ite then 3 else 1
  {
    if e.op == Store {
      var d0 := MemRender(e.args[0], c);
      TreeIsRight(e.args[0], c, start, m0, f, h);
      StoreAfter(e, c, d0, start, m0, f, h);
    } else if e.op == Ite {
      var b := Exec(c.stmts, start, f, h);
      BodyIsRight(e, Frame(b, b.tmp), f);
      CallIsRight(e, c, start, m0, f, h);
    } else {
      assert MemRender(e, c) == Node(e, c);
      NodeIsRight(e, c, start, m0, f, h);
    }
  }

  lemma {:induction false} StoreAfter(e: Expr, c: Code, d0: Code, start: Machine, m0: Machine, f: Ops, h: nat)
    requires IsStore(e) && StoreTree(e) && NoMemory(c.lut) && d0 == MemRender(e.args[0], c)
    requires Extends(c, d0, start, m0, f, h)
    ensures Extends(c, MemRender(e, c), start, m0, f, h)
    ensures TmpOf(MemRender(e, c), start, f, h)
      == TmpOf(d0, start, f, h)[Eval(e.args[1], m0.state, f).AsWord() := Eval(e.args[2], m0.state, f).AsWord()]
  {
    var d1 := MemRender(e.args[1], d0);
    var d2 := MemRender(e.args[2], d1);
    PlainPartIsRight(e.args[1], d0, start, m0, f, h);
    PlainPartIsRight(e.args[2], d1, start, m0, f, h);
    ExtendsTrans(c, d0, d1, start, m0, f, h);
    ExtendsTrans(c, d1, d2, start, m0, f, h);
    StoreIsRight(e, d2, start, m0, f, h);
    ExtendsTrans(c, d2, Node(e, d2), start, m0, f, h);
    ThreeArgs(e, c);
  }

  lemma {:induction false} ThreeArgs(e: Expr, c: Code)
    requires |e.args| == 3 && !(MemOp(e) && e.op == Ite)
    ensures MemRender(e, c) == Node(e, MemRender(e.args[2], MemRender(e.args[1], MemRender(e.args[0], c))))
  {
    assert MemRenderArgs(e, 1, c) == MemRender(e.args[0], MemRenderArgs(e, 0, c));
    assert MemRenderArgs(e, 2, c) == MemRender(e.args[1], MemRenderArgs(e, 1, c));
    assert MemRenderArgs(e, 3, c) == MemRender(e.args[2], MemRenderArgs(e, 2, c));
  }

  lemma {:induction false} ExecBranch(stmts: seq<Stmt>, cond: Place, yes: seq<Stmt>, no: seq<Stmt>, m: Machine, f: Ops, h: nat)
    ensures var b := Exec(stmts, m, f, h);
      Exec(stmts + [Branch(cond, yes, no)], m, f, h) == if Get(cond, b).IsTrue() then Exec(yes, b, f, h) else Exec(no, b, f, h)
  {
    var all := stmts + [Branch(cond, yes, no)];
    assert all[..|all| - 1] == stmts;
  }

  /** The function of a store or conditional adds the pairs of its expression. */
  lemma {:induction false} BodyIsRight(e: Expr, m: Machine, f: Ops)
    requires StoreTree(e) && MemOp(e)
    ensures Fills(e, Exec(Body(e), m, f, Height(e)), m, f)
    decreases Height(e), 2
  {
    var h, none := Height(e), Fresh(map[]);
    assert GoodCode(none, m, m, f, h);
    if e.op == Ite {
      var cond := Render(e.args[0], none);
      PlainIsRenderable(e.args[0], {});
      RenderIsRight(e.args[0], {}, none, m, m, f, h);
      var b := Exec(cond.stmts, m, f, h);
      var rest := Fresh(cond.lut);
      assert GoodCode(rest, b, m, f, h);
      TreeIsRight(e.args[1], rest, b, m, f, h);
      TreeIsRight(e.args[2], rest, b, m, f, h);
      ExecBranch(cond.stmts, cond.lut[e.args[0]], MemRender(e.args[1], rest).stmts, MemRender(e.args[2], rest).stmts, m, f, h);
      assert Right(e.args[0], cond.lut[e.args[0]], b, cond.lut, m.state, f);
      PlainComputed(e.args[0], m.state, f);
    } else {
      TreeIsRight(e, none, m, m, f, h);
    }
  }

  /** The memory below the path of a store tree that is taken. */
  ghost function Base(e: Expr, s: State, f: Ops): Memory {
    match e.op
    case Store => if |e.args| == 3 then Base(e.args[0], s, f) else Blank()
    case Ite =>
      if |e.args| == 3 then if Eval(e.args[0], s, f).IsTrue() then Base(e.args[1], s, f) else Base(e.args[2], s, f) else Blank()
    case _ => Eval(e, s, f).AsMem()
  }

  /** The pairs of a store tree, written into the memory below it, give its value. */
  lemma {:induction false} WrittenIsValue(e: Expr, s: State, f: Ops)
    requires StoreTree(e)
    ensures Eval(e, s, f) == Mem(Overlaid(Written(e, map[], s, f), Base(e, s, f)))
  {
    match e.op
    case Store =>
      WrittenIsValue(e.args[0], s, f);
      EvalStore(e, s, f);
      var t, a, d := Written(e.args[0], map[], s, f), Eval(e.args[1], s, f).AsWord(), Eval(e.args[2], s, f).AsWord();
      OverlaidWrite(t, a, d, Base(e, s, f));
    case Ite =>
      WrittenIsValue(e.args[1], s, f);
      WrittenIsValue(e.args[2], s, f);
      EvalIte(e, s, f);
    case _ =>
      OverlaidNone(Base(e, s, f));
  }

  lemma {:induction false} OverlaidNone(base: Memory)
    ensures Overlaid(map[], base) == base
  {
    assert forall a :: a in Overlaid(map[], base) && a in base;
  }

  lemma {:induction false} OverlaidWrite(t: map<int, int>, a: int, d: int, base: Memory)
    ensures Overlaid(t[a := d], base) == Write(Overlaid(t, base), a, d)
  {
    assert forall x :: Overlaid(t[a := d], base)[x] == Write(Overlaid(t, base), a, d)[x];
  }
}
