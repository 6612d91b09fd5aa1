/** When the generated update takes every state variable to its next value, and inputs at which it
    does not. */
module IlatorStep {
  import opened Expressions
  import opened Rewriters
  import opened IlatorCode
  import opened IlatorMeaning
  import opened IlatorUpdate
  import opened IlatorLoads

  /** A load from a placeholder asks for an address that the memory's update writes, or where its
      value is 0. */
  ghost predicate Covered(x: Expr, s: State, f: Ops)
    requires FromPlaceholder(x)
  {
    var a := Eval(x.args[1], s, f).AsWord();
    a in Written(x.args[0], map[], s, f) || Eval(x.args[0], s, f).AsMem()[a] == 0
  }

  ghost predicate AllCovered(loads: set<Expr>, s: State, f: Ops) {
    forall x :: x in loads && FromPlaceholder(x) ==> Covered(x, s, f)
  }

  ghost predicate AllTrees(mems: set<Expr>) {
    forall e :: e in mems ==> StoreTree(e)
  }

  /** What a load from a placeholder computes is its value exactly if it is covered. */
  lemma {:induction false} LoadIsValue(x: Expr, s: State, f: Ops)
    requires FromPlaceholder(x) && StoreTree(x.args[0]) && Computed(x.args[1], s, f) == Eval(x.args[1], s, f)
    ensures Computed(x, s, f) == Eval(x, s, f) <==> Covered(x, s, f)
  {
    WrittenIsValue(x.args[0], s, f);
    EvalLoad(x, s, f);
  }

  lemma {:induction false} CoveredIsValue(e: Expr, mems: set<Expr>, s: State, f: Ops)
    requires Renderable(e, mems) && AllTrees(mems) && AllCovered(Loads(e), s, f)
    ensures Computed(e, s, f) == Eval(e, s, f)
  {
    forall i | 0 <= i < |e.args| && Renderable(e.args[i], mems) ensures Computed(e.args[i], s, f) == Eval(e.args[i], s, f) {
      LoadsOfArg(e, |e.args|, i);
      CoveredIsValue(e.args[i], mems, s, f);
    }
    if FromPlaceholder(e) {
      assert ArgFits(e, 0, mems) && ArgFits(e, 1, mems);
      assert e in Loads(e);
      LoadIsValue(e, s, f);
    } else {
      SameValues(e, mems, s, f);
    }
  }

  lemma {:induction false} SameValues(e: Expr, mems: set<Expr>, s: State, f: Ops)
    requires Renderable(e, mems) && !FromPlaceholder(e)
    requires forall i :: 0 <= i < |e.args| && Renderable(e.args[i], mems) ==> Computed(e.args[i], s, f) == Eval(e.args[i], s, f)
    ensures Computed(e, s, f) == Eval(e, s, f)
  {
    var vs := seq(|e.args|, i requires 0 <= i < |e.args| => Computed(e.args[i], s, f));
    var ws := seq(|e.args|, i requires 0 <= i < |e.args| => Eval(e.args[i], s, f));
    forall i | 0 <= i < |e.args| ensures vs[i] == ws[i] {
      assert Renderable(e.args[i], mems);
    }
    assert vs == ws;
  }

  /** Below an uncovered load lies one whose address has its value. */
  lemma {:induction false} Innermost(x: Expr, mems: set<Expr>, s: State, f: Ops) returns (y: Expr)
    requires FromPlaceholder(x) && !MemOp(x) && Renderable(x, mems) && AllTrees(mems) && !Covered(x, s, f)
    ensures y in Loads(x) && FromSome(y, mems) && !Covered(y, s, f) && Computed(y.args[1], s, f) == Eval(y.args[1], s, f)
    decreases Height(x)
  {
    assert ArgFits(x, 0, mems) && ArgFits(x, 1, mems);
    LoadsOfArg(x, 2, 1);
    if AllCovered(Loads(x.args[1]), s, f) {
      y := x;
      assert x in Loads(x);
      CoveredIsValue(x.args[1], mems, s, f);
    } else {
      var z :| z in Loads(x.args[1]) && FromPlaceholder(z) && !Covered(z, s, f);
      LoadBelow(x.args[1], z);
      RenderableIsShaped(x.args[1], mems);
      y := Innermost(z, mems, s, f);
    }
  }

  // ----- what is left in a memory -----

  ghost function AskedBy(loads: set<Expr>, e: Expr, s: State, f: Ops): set<int> {
    set x | x in loads && LoadsFrom(x, e) :: Eval(x.args[1], s, f).AsWord()
  }

  /** Where its update writes nothing and no load asks, the memory the update is built over agrees
      with the variable it is written to. */
  ghost predicate OverOwn(u: Update, loads: set<Expr>, s: State, f: Ops) {
    forall a :: a in Written(u.next, map[], s, f) || a in AskedBy(loads, u.next, s, f) || Base(u.next, s, f)[a] == MemOf(s, u.name)[a]
  }

  ghost predicate AddressesRight(loads: set<Expr>, s: State, f: Ops) {
    forall x :: x in loads && FromPlaceholder(x) ==> Computed(x.args[1], s, f) == Eval(x.args[1], s, f)
  }

  lemma {:induction false} PaddedOver(t: map<int, int>, asked: set<int>, base: Memory, own: Memory)
    requires forall a :: a in asked ==> a in t || base[a] == 0
    ensures Overlaid(Padded(t, asked), own) == Overlaid(t, base) <==> forall a :: a in t || a in asked || base[a] == own[a]
  {
    var left, right := Overlaid(Padded(t, asked), own), Overlaid(t, base);
    forall a ensures left[a] == right[a] <==> (a in t || a in asked || base[a] == own[a]) {
    }
    if forall a :: a in t || a in asked || base[a] == own[a] {
      assert forall a :: left[a] == right[a];
    }
  }

  lemma {:induction false} CoveredPads(e: Expr, loads: set<Expr>, s: State, f: Ops)
    requires StoreTree(e) && AllCovered(loads, s, f)
    ensures forall a :: a in AskedBy(loads, e, s, f) ==> a in Written(e, map[], s, f) || Base(e, s, f)[a] == 0
  {
    WrittenIsValue(e, s, f);
  }

  /** With every load covered, a memory gets its next value exactly if the update is built over it. */
  lemma {:induction false} MemoryIsLeft(u: Update, lut: map<Expr, Place>, s: State, f: Ops)
    requires IsMemory(u) && StoreTree(u.next) && AllCovered(LoadsIn(lut), s, f) && AddressesRight(LoadsIn(lut), s, f)
    ensures Left(u, lut, s, f) == Eval(u.next, s, f) <==> OverOwn(u, LoadsIn(lut), s, f)
  {
    CoveredPads(u.next, LoadsIn(lut), s, f);
    WrittenIsValue(u.next, s, f);
    PaddedOver(Written(u.next, map[], s, f), Asked(u.next, lut, s, f), Base(u.next, s, f), MemOf(s, u.name));
  }

  /** An uncovered load spoils the memory it asks: the 0 it adds is written there. */
  lemma {:induction false} MemoryIsSpoilt(u: Update, lut: map<Expr, Place>, y: Expr, s: State, f: Ops)
    requires IsMemory(u) && StoreTree(u.next) && y in lut && LoadsFrom(y, u.next) && !Covered(y, s, f)
    requires Computed(y.args[1], s, f) == Eval(y.args[1], s, f)
    ensures Left(u, lut, s, f) != Eval(u.next, s, f)
  {
    var a := Eval(y.args[1], s, f).AsWord();
    assert a in Asked(u.next, lut, s, f);
    assert Left(u, lut, s, f).AsMem()[a] == 0;
  }

  // ----- the whole update -----

  ghost predicate Updated(u: Update, t: State, s: State, f: Ops) {
    Holds(u.name, Eval(u.next, s, f), t)
  }

  /** Every variable with an update has its next value, and nothing else has changed. */
  ghost predicate Stepped(us: seq<Update>, t: State, s: State, f: Ops) {
    && (forall j :: 0 <= j < |us| ==> Updated(us[j], t, s, f))
    && forall x :: Untouched(us, |us|, x) ==> SameAt(t, s, x)
  }

  ghost predicate MemoriesOwn(us: seq<Update>, s: State, f: Ops) {
    forall j :: 0 <= j < |us| && IsMemory(us[j]) ==> OverOwn(us[j], LoadsOf(us, |us|), s, f)
  }

  /** The states in which the generated update is right. */
  ghost predicate Fits(us: seq<Update>, s: State, f: Ops) {
    AllCovered(LoadsOf(us, |us|), s, f) && MemoriesOwn(us, s, f)
  }

  ghost predicate LeavesValues(us: seq<Update>, lut: map<Expr, Place>, s: State, f: Ops) {
    forall j :: 0 <= j < |us| ==> Left(us[j], lut, s, f) == Eval(us[j].next, s, f)
  }

  lemma {:induction false} MemoriesAreTrees(us: seq<Update>, n: nat)
    requires n <= |us| && AllSupported(us)
    ensures AllTrees(Memories(us, n))
  {
    forall e | e in Memories(us, n) ensures StoreTree(e) {
      var j :| 0 <= j < n && IsMemory(us[j]) && us[j].next == e;
      assert Supported(us[j], Memories(us, j));
    }
  }

  lemma {:induction false} CoveredAddresses(us: seq<Update>, s: State, f: Ops)
    requires AllSupported(us) && AllCovered(LoadsOf(us, |us|), s, f)
    ensures AddressesRight(LoadsOf(us, |us|), s, f)
  {
    forall x | x in LoadsOf(us, |us|) && FromPlaceholder(x) ensures Computed(x.args[1], s, f) == Eval(x.args[1], s, f) {
      var j := UpdateOfLoad(us, |us|, x);
      var mems := Memories(us, j);
      LoadIsRenderable(us, j, x);
      MemoriesAreTrees(us, j);
      assert ArgFits(x, 1, mems);
      LoadsOfArg(x, 2, 1);
      LoadBelow(us[j].next, x);
      LoadsOfUpdate(us, |us|, j);
      CoveredIsValue(x.args[1], mems, s, f);
    }
  }

  lemma {:induction false} LoadIsRenderable(us: seq<Update>, j: nat, x: Expr)
    requires AllSupported(us) && j < |us| && x in Loads(us[j].next)
    ensures Renderable(x, Memories(us, j)) && FromSome(x, Memories(us, j)) && !MemOp(x)
  {
    assert Supported(us[j], Memories(us, j));
    LoadBelow(us[j].next, x);
    RenderableIsShaped(us[j].next, Memories(us, j));
  }

  lemma {:induction false} FitsIsValues(us: seq<Update>, lut: map<Expr, Place>, s: State, f: Ops)
    requires AllSupported(us) && LoadsIn(lut) == LoadsOf(us, |us|) && AllCovered(LoadsIn(lut), s, f)
    ensures LeavesValues(us, lut, s, f) <==> MemoriesOwn(us, s, f)
  {
    CoveredAddresses(us, s, f);
    forall j | 0 <= j < |us|
      ensures Left(us[j], lut, s, f) == Eval(us[j].next, s, f) <==> (IsMemory(us[j]) ==> OverOwn(us[j], LoadsIn(lut), s, f))
    {
      assert Supported(us[j], Memories(us, j));
      if IsMemory(us[j]) {
        MemoryIsLeft(us[j], lut, s, f);
      } else {
        MemoriesAreTrees(us, j);
        LoadsOfUpdate(us, |us|, j);
        CoveredIsValue(us[j].next, Memories(us, j), s, f);
      }
    }
  }

  lemma {:induction false} UncoveredSpoils(us: seq<Update>, lut: map<Expr, Place>, s: State, f: Ops)
    requires AllSupported(us) && LoadsIn(lut) == LoadsOf(us, |us|) && !AllCovered(LoadsIn(lut), s, f)
    ensures !LeavesValues(us, lut, s, f)
  {
    var x :| x in LoadsIn(lut) && FromPlaceholder(x) && !Covered(x, s, f);
    var j := UpdateOfLoad(us, |us|, x);
    LoadIsRenderable(us, j, x);
    MemoriesAreTrees(us, j);
    var y := Innermost(x, Memories(us, j), s, f);
    LoadBelow(us[j].next, x);
    LoadsOfUpdate(us, |us|, j);
    assert y in LoadsIn(lut);
    var i :| 0 <= i < j && IsMemory(us[i]) && us[i].next == y.args[0];
    assert Supported(us[i], Memories(us, i));
    MemoryIsSpoilt(us[i], lut, y, s, f);
  }

  /** Without a failed lookup, the generated update takes every state variable to its next value at
      once, and leaves the others, exactly in the states in which every load from a placeholder is
      covered and every memory's update is built over that memory. */
  lemma {:induction false} UpdateIsStep(us: seq<Update>, m: Machine, f: Ops, h: nat)
    requires DistinctNames(us) && AllShaped(us) && AllBelow(us, h) && Prepare(us, |us|).found
    ensures Stepped(us, Exec(UpdateCode(us), m, f, h).state, m.state, f) <==> Fits(us, m.state, f)
  {
    var lut := Prepare(us, |us|).lut;
    LookupsSucceed(us);
    UpdateAssigns(us, m, f, h);
    PrepareGains(us, |us|);
    if AllCovered(LoadsIn(lut), m.state, f) {
      FitsIsValues(us, lut, m.state, f);
    } else {
      UncoveredSpoils(us, lut, m.state, f);
    }
  }

  /** Updates without loads from placeholders, of memories over themselves, are always right. */
  ghost predicate Simple(u: Update) {
    if IsMemory(u) then MemOp(u.next) && StoreTree(u.next) && BasedOn(u.next, u.name) else Plain(u.next)
  }

  /** The memory variable below every path of a store tree. */
  ghost predicate BasedOn(e: Expr, mem: string) {
    match e.op
    case Store => |e.args| == 3 && BasedOn(e.args[0], mem)
    case Ite => |e.args| == 3 && BasedOn(e.args[1], mem) && BasedOn(e.args[2], mem)
    case Var(name, _) => name == mem
    case _ => false
  }

  lemma {:induction false} BaseIsOwn(e: Expr, mem: string, s: State, f: Ops)
    requires StoreTree(e) && BasedOn(e, mem)
    ensures Base(e, s, f) == MemOf(s, mem)
  {
    match e.op
    case Store => BaseIsOwn(e.args[0], mem, s, f);
    case Ite =>
      BaseIsOwn(e.args[1], mem, s, f);
      BaseIsOwn(e.args[2], mem, s, f);
    case _ =>
  }

  lemma {:induction false} PlainHasNoLoads(e: Expr, n: nat)
    requires Plain(e) && n <= |e.args|
    ensures LoadsOfArgs(e, n) == {} && Loads(e) == {}
  {
    PlainIsRenderable(e, {});
    RenderableIsShaped(e, {});
    assert ArgsFit(e, {});
    RenderableArgs(e, n, {});
    assert forall x :: !FromSome(x, {});
  }

  lemma {:induction false} SimpleHasNoLoads(us: seq<Update>, n: nat)
    requires n <= |us| && forall j :: 0 <= j < |us| ==> Simple(us[j])
    ensures LoadsOf(us, n) == {}
  {
    if n > 0 {
      SimpleHasNoLoads(us, n - 1);
      assert Simple(us[n - 1]);
      if !IsMemory(us[n - 1]) {
        PlainHasNoLoads(us[n - 1].next, 0);
      }
    }
  }

  lemma {:induction false} SimpleIsStep(us: seq<Update>, m: Machine, f: Ops, h: nat)
    requires DistinctNames(us) && AllBelow(us, h) && forall j :: 0 <= j < |us| ==> Simple(us[j])
    ensures Stepped(us, Exec(UpdateCode(us), m, f, h).state, m.state, f)
  {
    SimpleHasNoLoads(us, |us|);
    forall j | 0 <= j < |us| ensures (IsMemory(us[j]) ==> OverOwn(us[j], {}, m.state, f)) && Supported(us[j], Memories(us, j)) {
      assert Simple(us[j]);
      if IsMemory(us[j]) {
        BaseIsOwn(us[j].next, us[j].name, m.state, f);
      } else {
        PlainIsRenderable(us[j].next, Memories(us, j));
      }
    }
    SimpleIsShaped(us);
    LookupsSucceed(us);
    UpdateIsStep(us, m, f, h);
  }

  lemma {:induction false} SimpleIsShaped(us: seq<Update>)
    requires forall j :: 0 <= j < |us| ==> Simple(us[j])
    ensures AllShaped(us)
  {
    forall j | 0 <= j < |us| ensures if IsMemory(us[j]) then MemOp(us[j].next) && StoreTree(us[j].next) else Shaped(us[j].next) {
      assert Simple(us[j]);
      if !IsMemory(us[j]) {
        PlainIsRenderable(us[j].next, {});
        RenderableIsShaped(us[j].next, {});
      }
    }
  }

  /** A register that loads from a placeholder at a plain address gets its next value exactly if the
      load is covered. */
  lemma {:induction false} LoadedRegister(us: seq<Update>, j: nat, m: Machine, f: Ops, h: nat)
    requires DistinctNames(us) && AllShaped(us) && AllBelow(us, h) && Prepare(us, |us|).found
    requires j < |us| && FromPlaceholder(us[j].next) && Plain(us[j].next.args[1])
    ensures Updated(us[j], Exec(UpdateCode(us), m, f, h).state, m.state, f) <==> Covered(us[j].next, m.state, f)
  {
    LookupsSucceed(us);
    UpdateAssigns(us, m, f, h);
    assert Supported(us[j], Memories(us, j)) && Holds(us[j].name, Left(us[j], Prepare(us, |us|).lut, m.state, f), Exec(UpdateCode(us), m, f, h).state);
    PlainComputed(us[j].next.args[1], m.state, f);
    assert ArgFits(us[j].next, 0, Memories(us, j));
    MemoriesAreTrees(us, j);
    LoadIsValue(us[j].next, m.state, f);
  }

  // ----- inputs at which the update is wrong -----

  function MemVar(name: string): Expr {
    Expr(0, Var(name, MemSort(8, 8)), [])
  }

  function Byte(id: nat, value: int): Expr {
    Expr(id, WordConst(value, 8), [])
  }

  /** One word is stored in a memory, and a register loads another word of the stored memory. */
  function StoreAndLoad(a: int, b: int): (us: seq<Update>)
    ensures |us| == 2 && us[1].next.args == [us[0].next, Byte(5, b)] && FromPlaceholder(us[1].next)
  {
    var stored := Expr(2, Store, [MemVar("m"), Byte(1, a), Byte(4, 5)]);
    assert SortOf(stored) == SortOf(MemVar("m"));
    [Update("m", stored), Update("r", Expr(3, Load, [stored, Byte(5, b)]))]
  }

  lemma {:induction false} LowHeights(es: seq<Expr>, h: nat)
    requires forall i :: 0 <= i < |es| ==> Height(es[i]) <= h
    ensures Heights(es) <= h
  {
    if es != [] {
      assert forall i :: 0 <= i < |es[1..]| ==> es[1..][i] == es[i + 1];
      LowHeights(es[1..], h);
    }
  }

  lemma {:induction false} StoredIsTree(e: Expr, name: string, a: int, d: int)
    requires e == Expr(2, Store, [MemVar(name), Byte(1, a), Byte(4, d)])
    ensures StoreTree(e) && MemOp(e) && Loads(e) == {} && Height(e) <= 2
  {
    assert SortOf(e) == SortOf(MemVar(name));
    assert StoreTree(MemVar(name)) && Plain(Byte(1, a)) && Plain(Byte(4, d));
    forall i | 0 <= i < 3 ensures Height(e.args[i]) == 1 {
      assert Heights(e.args[i].args) == 0;
    }
    LowHeights(e.args, 1);
  }

  /** The load is in order, no lookup fails, and what it asks for is written exactly if the two
      addresses are one. */
  lemma {:induction false} StoreAndLoadLoads(a: int, b: int, s: State, f: Ops)
    ensures var us := StoreAndLoad(a, b);
      && DistinctNames(us) && AllShaped(us) && AllBelow(us, 4) && Prepare(us, |us|).found
      && (Covered(us[1].next, s, f) <==> a == b || MemOf(s, "m")[b] == 0)
  {
    var us := StoreAndLoad(a, b);
    var stored := us[0].next;
    StoredIsTree(stored, "m", a, 5);
    assert Memories(us, 1) == {stored} by {
      MemoriesAre(us, 0);
    }
    assert Loads(us[1].next) == {us[1].next} by {
      assert LoadsOfArgs(us[1].next, 1) == Loads(stored);
      assert Loads(Byte(5, b)) == {};
    }
    LowHeights([stored, Byte(5, b)], 2);
    assert InOrder(us);
    LookupsSucceed(us);
    WrittenIsValue(stored, s, f);
  }

  /** The register then gets 0 in place of the old word, and the old word is lost. */
  lemma {:induction false} OldWordIsLost(a: int, b: int, m: Machine, f: Ops)
    requires a != b && MemOf(m.state, "m")[b] != 0
    ensures var us := StoreAndLoad(a, b); var t := Exec(UpdateCode(us), m, f, 4).state;
      && Eval(us[1].next, m.state, f) == Word(MemOf(m.state, "m")[b])
      && Holds("r", Word(0), t) && MemOf(t, "m")[b] == 0
  {
    var us := StoreAndLoad(a, b);
    var lut := Prepare(us, |us|).lut;
    StoreAndLoadLoads(a, b, m.state, f);
    LookupsSucceed(us);
    UpdateAssigns(us, m, f, 4);
    WrittenIsValue(us[0].next, m.state, f);
    EvalLoad(us[1].next, m.state, f);
    PrepareGains(us, |us|);
    LoadsOfUpdate(us, |us|, 1);
    assert us[1].next in Loads(us[1].next) && us[1].next in lut;
    assert b in Asked(us[0].next, lut, m.state, f);
    assert Holds(us[0].name, Left(us[0], lut, m.state, f), Exec(UpdateCode(us), m, f, 4).state);
    assert Holds(us[1].name, Left(us[1], lut, m.state, f), Exec(UpdateCode(us), m, f, 4).state);
  }

  ghost predicate AgreeBeside(a: int, left: Memory, right: Memory) {
    forall x :: x == a || left[x] == right[x]
  }

  function StoreOver(name: string, a: int, d: int): seq<Update> {
    [Update("m", Expr(2, Store, [MemVar(name), Byte(1, a), Byte(4, d)]))]
  }

  lemma {:induction false} StoreOverIsShaped(name: string, a: int, d: int)
    ensures var us := StoreOver(name, a, d);
      DistinctNames(us) && AllShaped(us) && AllBelow(us, 4) && Prepare(us, |us|).found && LoadsOf(us, 1) == {}
  {
    var us := StoreOver(name, a, d);
    StoredIsTree(us[0].next, name, a, d);
    assert InOrder(us);
    LookupsSucceed(us);
    assert LoadsOf(us, 0) == {};
  }

  lemma {:induction false} StoreOverFits(name: string, a: int, d: int, s: State, f: Ops)
    requires LoadsOf(StoreOver(name, a, d), 1) == {}
    ensures Fits(StoreOver(name, a, d), s, f) <==> AgreeBeside(a, MemOf(s, name), MemOf(s, "m"))
  {
    var us := StoreOver(name, a, d);
    var stored := us[0].next;
    assert IsMemory(us[0]) by {
      assert SortOf(stored) == SortOf(MemVar(name));
    }
    assert Written(stored, map[], s, f).Keys == {a};
    assert Base(stored, s, f) == MemOf(s, name);
  }

  /** A memory updated by a store over another memory keeps its own words beside the stored one. */
  lemma {:induction false} StoreOverOther(name: string, a: int, d: int, m: Machine, f: Ops)
    ensures var us := StoreOver(name, a, d);
      Stepped(us, Exec(UpdateCode(us), m, f, 4).state, m.state, f) <==> AgreeBeside(a, MemOf(m.state, name), MemOf(m.state, "m"))
  {
    var us := StoreOver(name, a, d);
    StoreOverIsShaped(name, a, d);
    StoreOverFits(name, a, d, m.state, f);
    UpdateIsStep(us, m, f, 4);
  }
}
