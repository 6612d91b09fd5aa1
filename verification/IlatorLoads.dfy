/** Which loads from placeholders the update function of an instruction contains, and when each
    finds its placeholder: the memory has to be prepared before the register. */
module IlatorLoads {
  import opened Expressions
  import opened Rewriters
  import opened IlatorCode
  import opened IlatorMeaning
  import opened IlatorUpdate

  /** The loads from stores and conditional memories in an expression, but not in those memories. */
  ghost function Loads(e: Expr): set<Expr>
    decreases e, |e.args| + 1
  {
    if MemOp(e) then {} else LoadsOfArgs(e, |e.args|) + if FromPlaceholder(e) then {e} else {}
  }

  ghost function LoadsOfArgs(e: Expr, n: nat): set<Expr>
    requires n <= |e.args|
    decreases e, n
  {
    if n == 0 then {} else LoadsOfArgs(e, n - 1) + Loads(e.args[n - 1])
  }

  ghost function LoadsOf(us: seq<Update>, n: nat): set<Expr>
    requires n <= |us|
  {
    if n == 0 then {} else LoadsOf(us, n - 1) + Loads(us[n - 1].next)
  }

  lemma {:induction false} LoadsOfArg(e: Expr, n: nat, i: nat)
    requires i < n <= |e.args|
    ensures Loads(e.args[i]) <= LoadsOfArgs(e, n)
  {
    if i < n - 1 {
      LoadsOfArg(e, n - 1, i);
    }
  }

  lemma {:induction false} LoadsOfUpdate(us: seq<Update>, n: nat, j: nat)
    requires j < n <= |us|
    ensures Loads(us[j].next) <= LoadsOf(us, n)
  {
    if j < n - 1 {
      LoadsOfUpdate(us, n - 1, j);
    }
  }

  lemma {:induction false} UpdateOfLoad(us: seq<Update>, n: nat, x: Expr) returns (j: nat)
    requires n <= |us| && x in LoadsOf(us, n)
    ensures j < n && x in Loads(us[j].next)
  {
    if x in Loads(us[n - 1].next) {
      j := n - 1;
    } else {
      j := UpdateOfLoad(us, n - 1, x);
    }
  }

  /** A load below an expression is no higher, and its own loads are below the expression too. */
  lemma {:induction false} LoadBelow(e: Expr, x: Expr)
    requires x in Loads(e)
    ensures FromPlaceholder(x) && !MemOp(x) && Height(x) <= Height(e) && Loads(x) <= Loads(e)
    decreases e, |e.args| + 1
  {
    if !(FromPlaceholder(e) && x == e) {
      LoadBelowArgs(e, |e.args|, x);
    }
  }

  lemma {:induction false} LoadBelowArgs(e: Expr, n: nat, x: Expr)
    requires n <= |e.args| && x in LoadsOfArgs(e, n)
    ensures FromPlaceholder(x) && !MemOp(x) && Height(x) <= Height(e) && Loads(x) <= LoadsOfArgs(e, n)
    decreases e, n
  {
    if x in Loads(e.args[n - 1]) {
      LoadBelow(e.args[n - 1], x);
    } else {
      LoadBelowArgs(e, n - 1, x);
    }
  }

  // ----- what the code gains -----

  ghost function LoadsIn(lut: map<Expr, Place>): set<Expr> {
    set x | x in lut && FromPlaceholder(x)
  }

  ghost predicate ClosedTable(lut: map<Expr, Place>) {
    forall x :: x in lut ==> Loads(x) <= LoadsIn(lut)
  }

  /** The table has grown by some loads and what is below them. */
  ghost predicate Gains(c: map<Expr, Place>, d: map<Expr, Place>, loads: set<Expr>) {
    c.Keys <= d.Keys && ClosedTable(d) && LoadsIn(d) == LoadsIn(c) + loads
  }

  lemma {:induction false} NodeGains(e: Expr, c: map<Expr, Place>, d: Code)
    requires Gains(c, d.lut, LoadsOfArgs(e, |e.args|)) && !MemOp(e)
    ensures Gains(c, Node(e, d).lut, Loads(e))
  {
    if e !in d.lut {
      NodeKeys(e, d);
      EntryGains(e, d.lut, Node(e, d).lut);
      LoadsInMore(e, d.lut, Node(e, d).lut);
    }
  }

  lemma {:induction false} EntryGains(e: Expr, lut: map<Expr, Place>, more: map<Expr, Place>)
    requires more.Keys == lut.Keys + {e} && ClosedTable(lut) && LoadsOfArgs(e, |e.args|) <= LoadsIn(lut)
    ensures ClosedTable(more)
  {
    LoadsInMore(e, lut, more);
    forall x | x in more ensures Loads(x) <= LoadsIn(more) {
      if x != e {
        assert x in lut;
      }
    }
  }

  lemma {:induction false} NodeKeys(e: Expr, d: Code)
    requires e !in d.lut && !MemOp(e)
    ensures Node(e, d).lut.Keys == d.lut.Keys + {e}
  {
  }

  lemma {:induction false} LoadsInMore(e: Expr, lut: map<Expr, Place>, more: map<Expr, Place>)
    requires more.Keys == lut.Keys + {e}
    ensures LoadsIn(more) == LoadsIn(lut) + if FromPlaceholder(e) then {e} else {}
  {
    assert forall x :: x in more <==> x in lut || x == e;
  }

  lemma {:induction false} RenderGains(e: Expr, mems: set<Expr>, c: Code)
    requires Renderable(e, mems) && Held(mems, c.lut) && ClosedTable(c.lut)
    ensures Gains(c.lut, Render(e, c).lut, Loads(e))
    decreases e, |e.args| + 1
  {
    if e !in c.lut {
      assert ArgsFit(e, mems);
      RenderArgsGains(e, |e.args|, mems, c);
      NodeGains(e, c.lut, RenderArgs(e, |e.args|, c));
    }
  }

  lemma {:induction false} RenderArgsGains(e: Expr, n: nat, mems: set<Expr>, c: Code)
    requires n <= |e.args| && ArgsFit(e, mems) && Held(mems, c.lut) && ClosedTable(c.lut)
    ensures Gains(c.lut, RenderArgs(e, n, c).lut, LoadsOfArgs(e, n))
    decreases e, n
  {
    if n > 0 {
      RenderArgsGains(e, n - 1, mems, c);
      assert ArgFits(e, n - 1, mems);
      if Renderable(e.args[n - 1], mems) {
        RenderGains(e.args[n - 1], mems, RenderArgs(e, n - 1, c));
      }
    }
  }

  /** What rendering leaves: entries stay, memories do not become entries, lookups that failed have
      failed. */
  ghost predicate Grows(e: Expr, c: Code, d: Code) {
    && c.lut.Keys <= d.lut.Keys && (d.found ==> c.found)
    && forall x :: x in d.lut ==> x in c.lut || (!MemOp(x) && Height(x) <= Height(e))
  }

  lemma {:induction false} RenderGrows(e: Expr, c: Code)
    ensures Grows(e, c, Render(e, c))
    decreases e, |e.args| + 1
  {
    if e !in c.lut {
      RenderArgsGrow(e, |e.args|, c);
    }
  }

  lemma {:induction false} RenderArgsGrow(e: Expr, n: nat, c: Code)
    requires n <= |e.args|
    ensures Grows(e, c, RenderArgs(e, n, c)) && e !in RenderArgs(e, n, c).lut.Keys - c.lut.Keys
    decreases e, n
  {
    if n > 0 {
      RenderArgsGrow(e, n - 1, c);
      RenderGrows(e.args[n - 1], RenderArgs(e, n - 1, c));
    }
  }

  lemma {:induction false} PrepareHolds(us: seq<Update>, n: nat)
    requires n <= |us| && forall j :: 0 <= j < |us| && IsMemory(us[j]) ==> MemOp(us[j].next)
    ensures HoldsMemories(us, n, Prepare(us, n).lut)
  {
    if n > 0 {
      PrepareHolds(us, n - 1);
      PrepareUnfolds(us, n);
      MemoriesAre(us, n - 1);
      if IsMemory(us[n - 1]) {
        SeenMemory(us, n - 1);
      } else {
        RenderGrows(us[n - 1].next, Prepare(us, n - 1));
      }
    }
  }

  /** The table holds the loads of the first next values and no others. */
  ghost predicate Gained(us: seq<Update>, n: nat, lut: map<Expr, Place>)
    requires n <= |us|
  {
    ClosedTable(lut) && LoadsIn(lut) == LoadsOf(us, n)
  }

  lemma {:induction false} PrepareGains(us: seq<Update>, n: nat)
    requires n <= |us| && AllSupported(us)
    ensures Gained(us, n, Prepare(us, n).lut)
  {
    if n > 0 {
      PrepareGains(us, n - 1);
      NextGains(us, n);
    }
  }

  lemma {:induction false} NextGains(us: seq<Update>, n: nat)
    requires 0 < n <= |us| && AllSupported(us) && Gained(us, n - 1, Prepare(us, n - 1).lut)
    ensures Gained(us, n, Prepare(us, n).lut)
  {
    PrepareUnfolds(us, n);
    PrepareHolds(us, n - 1);
    PrepareOneGains(us, n, Prepare(us, n - 1));
  }

  lemma {:induction false} PrepareOneGains(us: seq<Update>, n: nat, c: Code)
    requires 0 < n <= |us| && Gained(us, n - 1, c.lut) && HoldsMemories(us, n - 1, c.lut) && AllSupported(us)
    ensures Gained(us, n, (if Seen(us, n - 1, us[n - 1].next) then c else PrepareOne(us[n - 1].next, c)).lut)
  {
    var e := us[n - 1].next;
    assert LoadsOf(us, n) == LoadsOf(us, n - 1) + Loads(e);
    assert Supported(us[n - 1], Memories(us, n - 1));
    if Seen(us, n - 1, e) {
      var j :| 0 <= j < n - 1 && us[j].next == e;
      LoadsOfUpdate(us, n - 1, j);
    } else if IsMemory(us[n - 1]) {
      MemoryGains(e, c.lut, Local(|c.lut|));
    } else {
      assert Held(Memories(us, n - 1), c.lut);
      RenderGains(e, Memories(us, n - 1), c);
    }
  }

  lemma {:induction false} MemoryGains(e: Expr, lut: map<Expr, Place>, p: Place)
    requires ClosedTable(lut) && MemOp(e)
    ensures ClosedTable(lut[e := p]) && LoadsIn(lut[e := p]) == LoadsIn(lut)
  {
    LoadsInMore(e, lut, lut[e := p]);
  }

  // ----- when every lookup succeeds -----

  /** Stores and conditionals over memories only where they are loaded from. */
  ghost predicate Shaped(e: Expr) {
    !MemOp(e) && forall i :: 0 <= i < |e.args| ==> Shaped(e.args[i]) || (i == 0 && FromPlaceholder(e))
  }

  ghost predicate AllShaped(us: seq<Update>) {
    forall j :: 0 <= j < |us| ==> if IsMemory(us[j]) then MemOp(us[j].next) && StoreTree(us[j].next) else Shaped(us[j].next)
  }

  ghost predicate FromSome(x: Expr, mems: set<Expr>) {
    FromPlaceholder(x) && x.args[0] in mems
  }

  /** Every register is prepared after the memories it loads from. */
  ghost predicate InOrder(us: seq<Update>) {
    forall j, x :: 0 <= j < |us| && x in Loads(us[j].next) ==> FromSome(x, Memories(us, j))
  }

  lemma {:induction false} RenderableIsShaped(e: Expr, mems: set<Expr>)
    requires Renderable(e, mems)
    ensures Shaped(e) && forall x :: x in Loads(e) ==> FromSome(x, mems) && Renderable(x, mems)
    decreases e, |e.args| + 1
  {
    assert ArgsFit(e, mems);
    RenderableArgs(e, |e.args|, mems);
    forall i | 0 <= i < |e.args| ensures Shaped(e.args[i]) || (i == 0 && FromPlaceholder(e)) {
      assert ArgFits(e, i, mems);
      if Renderable(e.args[i], mems) {
        RenderableIsShaped(e.args[i], mems);
      }
    }
    if FromPlaceholder(e) {
      assert ArgFits(e, 0, mems);
    }
  }

  lemma {:induction false} RenderableArgs(e: Expr, n: nat, mems: set<Expr>)
    requires n <= |e.args| && ArgsFit(e, mems)
    ensures forall x :: x in LoadsOfArgs(e, n) ==> FromSome(x, mems) && Renderable(x, mems)
    decreases e, n
  {
    if n > 0 {
      RenderableArgs(e, n - 1, mems);
      assert ArgFits(e, n - 1, mems);
      if Renderable(e.args[n - 1], mems) {
        RenderableIsShaped(e.args[n - 1], mems);
      }
    }
  }

  lemma {:induction false} ShapedIsRenderable(e: Expr, mems: set<Expr>)
    requires Shaped(e) && forall x :: x in Loads(e) ==> FromSome(x, mems)
    ensures Renderable(e, mems)
  {
    forall i | 0 <= i < |e.args| ensures Renderable(e.args[i], mems) || HeldArg(e, i, mems) {
      LoadsOfArg(e, |e.args|, i);
      if Shaped(e.args[i]) {
        ShapedIsRenderable(e.args[i], mems);
      } else {
        assert e in Loads(e) && FromSome(e, mems);
      }
    }
  }

  lemma {:induction false} MoreRenderable(e: Expr, mems: set<Expr>, more: set<Expr>)
    requires Renderable(e, mems) && mems <= more
    ensures Renderable(e, more)
  {
    RenderableIsShaped(e, mems);
    ShapedIsRenderable(e, more);
  }

  /** The memories of a table are the given ones, and everything else in it can be rendered. */
  ghost predicate Tabled(lut: map<Expr, Place>, mems: set<Expr>) {
    && Held(mems, lut)
    && forall x :: x in lut ==> if MemOp(x) then x in mems else Renderable(x, mems)
  }

  /** Rendering a shaped expression succeeds exactly if it can be rendered. */
  ghost predicate Finds(fits: bool, d: Code, mems: set<Expr>) {
    (d.found <==> fits) && (fits ==> Tabled(d.lut, mems))
  }

  lemma {:induction false} RenderFinds(e: Expr, mems: set<Expr>, c: Code)
    requires Shaped(e) && c.found && Tabled(c.lut, mems)
    ensures Finds(Renderable(e, mems), Render(e, c), mems) && (Renderable(e, mems) ==> e in Render(e, c).lut)
    decreases e, |e.args| + 1
  {
    if e !in c.lut {
      var d := RenderArgs(e, |e.args|, c);
      RenderArgsGrow(e, |e.args|, c);
      if FromPlaceholder(e) && e.args[0] !in mems {
        assert !ArgFits(e, 0, mems);
        assert e.args[0] !in d.lut;
      } else {
        RenderArgsFind(e, |e.args|, mems, c);
      }
    }
  }

  ghost predicate FitUpTo(e: Expr, n: nat, mems: set<Expr>)
    requires n <= |e.args|
  {
    forall i :: 0 <= i < n ==> ArgFits(e, i, mems)
  }

  lemma {:induction false} RenderArgsFind(e: Expr, n: nat, mems: set<Expr>, c: Code)
    requires n <= |e.args| && Shaped(e) && (FromPlaceholder(e) ==> e.args[0] in mems) && c.found && Tabled(c.lut, mems)
    ensures Finds(FitUpTo(e, n, mems), RenderArgs(e, n, c), mems)
    ensures FitUpTo(e, n, mems) ==> AllIn(e.args[..n], RenderArgs(e, n, c).lut)
    decreases e, n
  {
    if n > 0 {
      RenderArgsFind(e, n - 1, mems, c);
      NextArgFinds(e, n, mems, RenderArgs(e, n - 1, c));
    }
  }

  lemma {:induction false} NextArgFinds(e: Expr, n: nat, mems: set<Expr>, d: Code)
    requires 0 < n <= |e.args| && Shaped(e) && (FromPlaceholder(e) ==> e.args[0] in mems)
    requires Finds(FitUpTo(e, n - 1, mems), d, mems) && (FitUpTo(e, n - 1, mems) ==> AllIn(e.args[..n - 1], d.lut))
    ensures var r := Render(e.args[n - 1], d);
      Finds(FitUpTo(e, n, mems), r, mems) && (FitUpTo(e, n, mems) ==> AllIn(e.args[..n], r.lut))
    decreases e, n, 0
  {
    RenderGrows(e.args[n - 1], d);
    if FitUpTo(e, n - 1, mems) && Shaped(e.args[n - 1]) {
      RenderFinds(e.args[n - 1], mems, d);
    }
    assert FitUpTo(e, n, mems) <==> FitUpTo(e, n - 1, mems) && ArgFits(e, n - 1, mems);
  }

  lemma {:induction false} TabledMore(lut: map<Expr, Place>, mems: set<Expr>, e: Expr, p: Place)
    requires Tabled(lut, mems) && MemOp(e)
    ensures Tabled(lut[e := p], mems + {e})
  {
    forall x | x in lut && !MemOp(x) ensures Renderable(x, mems + {e}) {
      MoreRenderable(x, mems, mems + {e});
    }
  }

  ghost predicate SupportedUpTo(us: seq<Update>, n: nat)
    requires n <= |us|
  {
    forall j :: 0 <= j < n ==> Supported(us[j], Memories(us, j))
  }

  /** Every lookup while preparing finds its entry exactly if every register is prepared after the
      memories it loads from. */
  lemma {:induction false} LookupsSucceed(us: seq<Update>)
    requires AllShaped(us)
    ensures Prepare(us, |us|).found <==> InOrder(us)
    ensures AllSupported(us) <==> InOrder(us)
  {
    PrepareFinds(us, |us|);
    forall j | 0 <= j < |us|
      ensures Supported(us[j], Memories(us, j)) <==> forall x :: x in Loads(us[j].next) ==> FromSome(x, Memories(us, j))
    {
      SupportedIsInOrder(us[j], Memories(us, j));
    }
  }

  lemma {:induction false} SupportedIsInOrder(u: Update, mems: set<Expr>)
    requires if IsMemory(u) then MemOp(u.next) && StoreTree(u.next) else Shaped(u.next)
    ensures Supported(u, mems) <==> forall x :: x in Loads(u.next) ==> FromSome(x, mems)
  {
    if !IsMemory(u) {
      if Renderable(u.next, mems) {
        RenderableIsShaped(u.next, mems);
      } else if forall x :: x in Loads(u.next) ==> FromSome(x, mems) {
        ShapedIsRenderable(u.next, mems);
      }
    }
  }

  lemma {:induction false} PrepareFinds(us: seq<Update>, n: nat)
    requires n <= |us| && AllShaped(us)
    ensures Finds(SupportedUpTo(us, n), Prepare(us, n), Memories(us, n))
  {
    if n == 0 {
      assert Prepare(us, 0) == Fresh(map[]);
    } else {
      PrepareFinds(us, n - 1);
      PrepareUnfolds(us, n);
      PrepareOneFinds(us, n, Prepare(us, n - 1));
    }
  }

  lemma {:induction false} PrepareOneFinds(us: seq<Update>, n: nat, c: Code)
    requires 0 < n <= |us| && AllShaped(us) && Finds(SupportedUpTo(us, n - 1), c, Memories(us, n - 1))
    ensures Finds(SupportedUpTo(us, n), if Seen(us, n - 1, us[n - 1].next) then c else PrepareOne(us[n - 1].next, c), Memories(us, n))
  {
    var u, mems := us[n - 1], Memories(us, n - 1);
    assert SupportedUpTo(us, n) <==> SupportedUpTo(us, n - 1) && Supported(u, mems);
    MemoriesAre(us, n - 1);
    if SupportedUpTo(us, n - 1) {
      if Seen(us, n - 1, u.next) {
        SeenIsSupported(us, n - 1);
      } else if IsMemory(u) {
        TabledMore(c.lut, mems, u.next, Local(|c.lut|));
      } else {
        RenderFinds(u.next, mems, c);
      }
    } else if !Seen(us, n - 1, u.next) && !IsMemory(u) {
      RenderGrows(u.next, c);
    }
  }

  lemma {:induction false} SeenIsSupported(us: seq<Update>, n: nat)
    requires n < |us| && Seen(us, n, us[n].next) && SupportedUpTo(us, n)
    ensures Supported(us[n], Memories(us, n)) && (IsMemory(us[n]) ==> us[n].next in Memories(us, n))
  {
    var j :| 0 <= j < n && us[j].next == us[n].next;
    assert Supported(us[j], Memories(us, j));
    if !IsMemory(us[n]) {
      assert Memories(us, j) <= Memories(us, n);
      MoreRenderable(us[n].next, Memories(us, j), Memories(us, n));
    }
  }
}
