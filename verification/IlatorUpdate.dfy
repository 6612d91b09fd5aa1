/** The update function of an instruction: all next values are computed, then the state is written. */
module IlatorUpdate {
  import opened Expressions
  import opened Rewriters
  import opened IlatorCode
  import opened IlatorMeaning

  /** A state variable and the expression of its next value. */
  datatype Update = Update(name: string, next: Expr)

  predicate IsMemory(u: Update) {
    SortOf(u.next).MemSort?
  }

  /** A next value is rendered and copied, or for a memory collected in a new placeholder. */
  function PrepareOne(e: Expr, c: Code): Code {
    if SortOf(e).MemSort? then
      Code(c.stmts + [NewMemory(Local(|c.lut|), e)], c.lut[e := Local(|c.lut|)], c.found)
    else
      var d := Render(e, c);
      d.(stmts := d.stmts + [Hold(At(e, d.lut))])
  }

  predicate Seen(us: seq<Update>, n: nat, e: Expr)
    requires n <= |us|
  {
    exists j :: 0 <= j < n && us[j].next == e
  }

  /** Each distinct expression is prepared once. */
  function Prepare(us: seq<Update>, n: nat): Code
    requires n <= |us|
  {
    if n == 0 then Fresh(map[])
    else
      var c := Prepare(us, n - 1);
      if Seen(us, n - 1, us[n - 1].next) then c else PrepareOne(us[n - 1].next, c)
  }

  function CommitOne(u: Update, lut: map<Expr, Place>): Stmt {
    if IsMemory(u) then MergeField(u.name, At(u.next, lut)) else SetField(u.name, Holder(At(u.next, lut)))
  }

  function Commits(us: seq<Update>, n: nat, lut: map<Expr, Place>): seq<Stmt>
    requires n <= |us|
  {
    if n == 0 then [] else Commits(us, n - 1, lut) + [CommitOne(us[n - 1], lut)]
  }

  function UpdateCode(us: seq<Update>): seq<Stmt> {
    var c := Prepare(us, |us|);
    c.stmts + Commits(us, |us|, c.lut)
  }

  /** The next values of memories among the first updates: the placeholders there are by then. */
  function Memories(us: seq<Update>, n: nat): set<Expr>
    requires n <= |us|
  {
    set j | 0 <= j < n && IsMemory(us[j]) :: us[j].next
  }

  /** A memory's next value is made of stores and conditionals; a register's loads from those whose
      placeholders have been filled. */
  ghost predicate Supported(u: Update, mems: set<Expr>) {
    if IsMemory(u) then MemOp(u.next) && StoreTree(u.next) else Renderable(u.next, mems)
  }

  ghost predicate AllSupported(us: seq<Update>) {
    forall j :: 0 <= j < |us| ==> Supported(us[j], Memories(us, j))
  }

  /** The functions of the updates may be called. */
  ghost predicate AllBelow(us: seq<Update>, h: nat) {
    forall j :: 0 <= j < |us| ==> Below(us[j], h)
  }

  ghost predicate Below(u: Update, h: nat) {
    Height(u.next) < h
  }

  /** The next value waits where the final assignments look for it. */
  ghost predicate Ready(e: Expr, lut: map<Expr, Place>, m: Machine, s: State, f: Ops) {
    e in lut && (MemOp(e) || Get(Holder(lut[e]), m) == Computed(e, s, f))
  }

  ghost predicate ReadyUpTo(us: seq<Update>, n: nat, lut: map<Expr, Place>, m: Machine, s: State, f: Ops)
    requires n <= |us|
  {
    forall j :: 0 <= j < n ==> Ready(us[j].next, lut, m, s, f)
  }

  /** Memory placeholders are those of the updates. */
  ghost predicate HoldsMemories(us: seq<Update>, n: nat, lut: map<Expr, Place>)
    requires n <= |us|
  {
    forall e :: e in lut && MemOp(e) <==> e in Memories(us, n)
  }

  lemma {:induction false} ExecHold(stmts: seq<Stmt>, src: Place, m: Machine, f: Ops, h: nat)
    ensures var b := Exec(stmts, m, f, h);
      Exec(stmts + [Hold(src)], m, f, h) == b.(locals := b.locals[Holder(src) := Get(src, b)])
  {
    var all := stmts + [Hold(src)];
    assert all[..|all| - 1] == stmts;
  }

  ghost function Holding(m: Machine, p: Place): Machine {
    m.(locals := m.locals[Holder(p) := Get(p, m)])
  }

  lemma {:induction false} HoldKeepsGood(p: Place, lut: map<Expr, Place>, b: Machine, m0: Machine, f: Ops)
    requires Good(lut, b, m0, f)
    ensures Good(lut, Holding(b, p), m0, f)
  {
    forall x | x in lut ensures Right(x, lut[x], Holding(b, p), lut, m0.state, f) {
      assert PlaceFor(x, lut[x], |lut|) && Right(x, lut[x], b, lut, m0.state, f);
    }
  }

  /** A copied register value is ready, and what was ready stays so. */
  lemma {:induction false} HoldIsReady(e: Expr, lut: map<Expr, Place>, b: Machine, m0: Machine, f: Ops)
    requires Good(lut, b, m0, f) && e in lut && !MemOp(e)
    ensures Ready(e, lut, Holding(b, lut[e]), m0.state, f)
    ensures forall x :: Ready(x, lut, b, m0.state, f) ==> Ready(x, lut, Holding(b, lut[e]), m0.state, f)
  {
    assert Right(e, lut[e], b, lut, m0.state, f);
    forall x | Ready(x, lut, b, m0.state, f) ensures Ready(x, lut, Holding(b, lut[e]), m0.state, f) {
      assert Right(x, lut[x], b, lut, m0.state, f);
    }
  }

  ghost function WithOverlay(m: Machine, p: Place, t: map<int, int>): Machine {
    m.(overlays := m.overlays[p := t])
  }

  lemma {:induction false} RightBeside(x: Expr, lut: map<Expr, Place>, e: Expr, m: Machine, t: map<int, int>, s: State, f: Ops)
    requires x in lut && e !in lut && MemOp(e) && PlaceFor(x, lut[x], |lut|) && Right(x, lut[x], m, lut, s, f)
    ensures PlaceFor(x, lut[x], |lut| + 1) && lut[x] != Local(|lut|)
    ensures Right(x, lut[x], WithOverlay(m, Local(|lut|), t), lut[e := Local(|lut|)], s, f)
  {
    OldEntry(lut, e, Local(|lut|), x, m, s, f);
  }

  /** A filled placeholder is right: nothing has been asked there yet. */
  lemma {:induction false} NewMemoryIsGood(e: Expr, lut: map<Expr, Place>, m: Machine, m0: Machine, f: Ops)
    requires Good(lut, m, m0, f) && e !in lut && MemOp(e)
    ensures Good(lut[e := Local(|lut|)], WithOverlay(m, Local(|lut|), Written(e, map[], m0.state, f)), m0, f)
  {
    var p, t := Local(|lut|), Written(e, map[], m0.state, f);
    OneMoreEntry(lut, e, p);
    forall x | x in lut
      ensures PlaceFor(x, lut[x], |lut| + 1) && lut[x] != p && Right(x, lut[x], WithOverlay(m, p, t), lut[e := p], m0.state, f)
    {
      RightBeside(x, lut, e, m, t, m0.state, f);
    }
    FilledIsRight(e, lut, m, m0.state, f);
    MemoryPlaced(lut, e);
  }

  lemma {:induction false} MemoryPlaced(lut: map<Expr, Place>, e: Expr)
    requires Placed(lut) && e !in lut && MemOp(e) && forall x :: x in lut ==> lut[x] != Local(|lut|)
    ensures Placed(lut[e := Local(|lut|)])
  {
  }

  lemma {:induction false} FilledIsRight(e: Expr, lut: map<Expr, Place>, m: Machine, s: State, f: Ops)
    requires Placed(lut) && e !in lut && MemOp(e)
    ensures var p, t := Local(|lut|), Written(e, map[], s, f); Right(e, p, WithOverlay(m, p, t), lut[e := p], s, f)
  {
    var t := Written(e, map[], s, f);
  }

  ghost predicate Prepared(us: seq<Update>, n: nat, c: Code, m0: Machine, f: Ops, h: nat)
    requires n <= |us|
  {
    && GoodCode(c, m0, m0, f, h) && HoldsMemories(us, n, c.lut)
    && ReadyUpTo(us, n, c.lut, Exec(c.stmts, m0, f, h), m0.state, f)
  }

  lemma {:induction false} MemoriesAre(us: seq<Update>, n: nat)
    requires n < |us|
    ensures Memories(us, n + 1) == if IsMemory(us[n]) then Memories(us, n) + {us[n].next} else Memories(us, n)
    ensures us[n].next in Memories(us, n) ==> Memories(us, n + 1) == Memories(us, n)
  {
    forall e | e in Memories(us, n) ensures e in Memories(us, n + 1) {
      var j :| 0 <= j < n && IsMemory(us[j]) && us[j].next == e;
      assert 0 <= j < n + 1;
    }
  }

  lemma {:induction false} PrepareRegister(us: seq<Update>, n: nat, c: Code, m0: Machine, f: Ops, h: nat)
    requires n < |us| && Prepared(us, n, c, m0, f, h) && !IsMemory(us[n]) && Renderable(us[n].next, Memories(us, n))
    ensures Prepared(us, n + 1, PrepareOne(us[n].next, c), m0, f, h)
  {
    var e := us[n].next;
    var d := Render(e, c);
    assert Held(Memories(us, n), c.lut);
    RenderIsRight(e, Memories(us, n), c, m0, m0, f, h);
    var b := Exec(d.stmts, m0, f, h);
    ExecHold(d.stmts, d.lut[e], m0, f, h);
    HoldKeepsGood(d.lut[e], d.lut, b, m0, f);
    RenderKeepsReady(us, n, c, d, m0, f, h);
    HoldUpTo(us, n, d.lut, b, m0, f);
    MemoriesAre(us, n);
    MemoriesKept(us, n, c, d, m0, f, h);
  }

  lemma {:induction false} HoldUpTo(us: seq<Update>, n: nat, lut: map<Expr, Place>, b: Machine, m0: Machine, f: Ops)
    requires n < |us| && Good(lut, b, m0, f) && us[n].next in lut && !MemOp(us[n].next) && ReadyUpTo(us, n, lut, b, m0.state, f)
    ensures ReadyUpTo(us, n + 1, lut, Holding(b, lut[us[n].next]), m0.state, f)
  {
    HoldIsReady(us[n].next, lut, b, m0, f);
    OneMoreReady(us, n, lut, b, Holding(b, lut[us[n].next]), m0.state, f);
  }

  lemma {:induction false} OneMoreReady(us: seq<Update>, n: nat, lut: map<Expr, Place>, b: Machine, m: Machine, s: State, f: Ops)
    requires n < |us| && ReadyUpTo(us, n, lut, b, s, f) && Ready(us[n].next, lut, m, s, f)
    requires forall x :: Ready(x, lut, b, s, f) ==> Ready(x, lut, m, s, f)
    ensures ReadyUpTo(us, n + 1, lut, m, s, f)
  {
    forall j | 0 <= j < n ensures Ready(us[j].next, lut, m, s, f) {
      assert Ready(us[j].next, lut, b, s, f);
    }
  }

  lemma {:induction false} MemoriesKept(us: seq<Update>, n: nat, c: Code, d: Code, m0: Machine, f: Ops, h: nat)
    requires n <= |us| && HoldsMemories(us, n, c.lut) && Extends(c, d, m0, m0, f, h)
    ensures HoldsMemories(us, n, d.lut)
  {
  }

  lemma {:induction false} RenderKeepsReady(us: seq<Update>, n: nat, c: Code, d: Code, m0: Machine, f: Ops, h: nat)
    requires n <= |us| && Prepared(us, n, c, m0, f, h) && Extends(c, d, m0, m0, f, h)
    ensures ReadyUpTo(us, n, d.lut, Exec(d.stmts, m0, f, h), m0.state, f)
  {
    var b0, b := Exec(c.stmts, m0, f, h), Exec(d.stmts, m0, f, h);
    forall j | 0 <= j < n ensures Ready(us[j].next, d.lut, b, m0.state, f) {
      var x := us[j].next;
      assert Ready(x, c.lut, b0, m0.state, f);
      assert d.lut[x] == c.lut[x];
      assert Get(Holder(c.lut[x]), b) == Get(Holder(c.lut[x]), b0);
    }
  }

  /** The machine after the placeholder of a memory has been filled. */
  lemma {:induction false} MemoryExec(e: Expr, c: Code, m0: Machine, f: Ops, h: nat)
    requires GoodCode(c, m0, m0, f, h) && MemOp(e) && StoreTree(e) && Height(e) < h
    ensures var b := Exec(c.stmts, m0, f, h);
      var r := Exec(Body(e), Frame(b, map[]), f, Height(e));
      var mid := b.(globals := r.globals);
      && Good(c.lut, mid, m0, f)
      && Exec(PrepareOne(e, c).stmts, m0, f, h) == WithOverlay(mid, Local(|c.lut|), Written(e, map[], m0.state, f))
  {
    var b := Exec(c.stmts, m0, f, h);
    BodyIsRight(e, Frame(b, map[]), f);
    FilledKeepsGood(e, c.lut, b, Exec(Body(e), Frame(b, map[]), f, Height(e)), m0, f);
  }

  lemma {:induction false} FilledKeepsGood(e: Expr, lut: map<Expr, Place>, b: Machine, r: Machine, m0: Machine, f: Ops)
    requires Good(lut, b, m0, f) && Fills(e, r, Frame(b, map[]), f)
    ensures Good(lut, b.(globals := r.globals), m0, f) && r.tmp == Written(e, map[], m0.state, f)
  {
    TmpKeepsGood(lut, b, b.(globals := r.globals), m0, f);
  }

  lemma {:induction false} PrepareMemory(us: seq<Update>, n: nat, c: Code, m0: Machine, f: Ops, h: nat)
    requires n < |us| && Prepared(us, n, c, m0, f, h) && IsMemory(us[n]) && MemOp(us[n].next) && StoreTree(us[n].next)
    requires us[n].next !in Memories(us, n) && Height(us[n].next) < h
    ensures Prepared(us, n + 1, PrepareOne(us[n].next, c), m0, f, h)
  {
    var e := us[n].next;
    var b := Exec(c.stmts, m0, f, h);
    var mid := b.(globals := Exec(Body(e), Frame(b, map[]), f, Height(e)).globals);
    MemoryExec(e, c, m0, f, h);
    NewMemoryIsGood(e, c.lut, mid, m0, f);
    MemoryKeepsReady(us, n, c.lut, b, mid, Written(e, map[], m0.state, f), m0.state, f);
    MemoriesAre(us, n);
  }

  lemma {:induction false} MemoryKeepsReady(us: seq<Update>, n: nat, lut: map<Expr, Place>, b: Machine, mid: Machine, t: map<int, int>, s: State, f: Ops)
    requires n < |us| && ReadyUpTo(us, n, lut, b, s, f) && us[n].next !in lut && mid.locals == b.locals && MemOp(us[n].next)
    ensures ReadyUpTo(us, n + 1, lut[us[n].next := Local(|lut|)], WithOverlay(mid, Local(|lut|), t), s, f)
  {
    forall j | 0 <= j < n ensures Ready(us[j].next, lut[us[n].next := Local(|lut|)], WithOverlay(mid, Local(|lut|), t), s, f) {
    }
  }

  lemma {:induction false} SeenMemory(us: seq<Update>, n: nat)
    requires n < |us| && IsMemory(us[n])
    ensures Seen(us, n, us[n].next) <==> us[n].next in Memories(us, n)
  {
    if Seen(us, n, us[n].next) {
      var j :| 0 <= j < n && us[j].next == us[n].next;
      assert IsMemory(us[j]);
    }
  }

  /** What holds before the first update and is kept by each holds after all. */
  lemma {:induction false} UpdatesInTurn(us: seq<Update>, n: nat, P: (nat, Code) -> bool)
    requires n <= |us| && P(0, Fresh(map[]))
    requires forall k: nat, c :: k < n && P(k, c) ==> P(k + 1, if Seen(us, k, us[k].next) then c else PrepareOne(us[k].next, c))
    ensures P(n, Prepare(us, n))
  {
    if n > 0 {
      UpdatesInTurn(us, n - 1, P);
      assert P(n - 1, Prepare(us, n - 1));
    }
  }

  /** After the first part every register's next value waits, every memory's pairs are in its
      placeholder, and no member has changed. */
  lemma {:induction false} PrepareIsRight(us: seq<Update>, n: nat, m0: Machine, f: Ops, h: nat)
    requires n <= |us| && AllSupported(us) && AllBelow(us, h)
    ensures Prepared(us, n, Prepare(us, n), m0, f, h)
  {
    var P := (k: nat, c: Code) => k <= |us| && Prepared(us, k, c, m0, f, h);
    NothingPrepared(us, m0, f, h);
    forall k: nat, c | k < n && P(k, c)
      ensures P(k + 1, if Seen(us, k, us[k].next) then c else PrepareOne(us[k].next, c))
    {
      PrepareNext(us, k, c, m0, f, h);
    }
    UpdatesInTurn(us, n, P);
  }

  lemma {:induction false} NothingPrepared(us: seq<Update>, m0: Machine, f: Ops, h: nat)
    ensures Prepared(us, 0, Fresh(map[]), m0, f, h)
  {
  }

  lemma {:induction false} PrepareUnfolds(us: seq<Update>, n: nat)
    requires 0 < n <= |us|
    ensures Prepare(us, n) == if Seen(us, n - 1, us[n - 1].next) then Prepare(us, n - 1) else PrepareOne(us[n - 1].next, Prepare(us, n - 1))
  {
  }

  lemma {:induction false} PrepareNext(us: seq<Update>, n: nat, c: Code, m0: Machine, f: Ops, h: nat)
    requires n < |us| && Prepared(us, n, c, m0, f, h) && AllSupported(us) && AllBelow(us, h)
    ensures Prepared(us, n + 1, if Seen(us, n, us[n].next) then c else PrepareOne(us[n].next, c), m0, f, h)
  {
    assert Supported(us[n], Memories(us, n)) && Below(us[n], h);
    if !Seen(us, n, us[n].next) {
      if IsMemory(us[n]) {
        SeenMemory(us, n);
        PrepareMemory(us, n, c, m0, f, h);
      } else {
        PrepareRegister(us, n, c, m0, f, h);
      }
    }
  }

  // ----- the final assignments -----

  ghost predicate DistinctNames(us: seq<Update>) {
    forall i, j :: 0 <= i < j < |us| ==> us[i].name != us[j].name
  }

  /** What a final assignment leaves: for a register what its code computes, for a memory the pairs
      written and the zeros asked for, over the old memory. */
  ghost function Left(u: Update, lut: map<Expr, Place>, s: State, f: Ops): Value {
    if IsMemory(u) then Mem(Overlaid(Padded(Written(u.next, map[], s, f), Asked(u.next, lut, s, f)), MemOf(s, u.name)))
    else Computed(u.next, s, f)
  }

  /** The first `n` variables hold what is left, and nothing else has changed. */
  ghost predicate Assigned(us: seq<Update>, n: nat, lut: map<Expr, Place>, t: State, s: State, f: Ops)
    requires n <= |us|
  {
    && (forall j :: 0 <= j < n ==> Holds(us[j].name, Left(us[j], lut, s, f), t))
    && forall x :: Untouched(us, n, x) ==> SameAt(t, s, x)
  }

  ghost predicate Holds(x: string, v: Value, t: State) {
    x in t && t[x] == v
  }

  ghost predicate Untouched(us: seq<Update>, n: nat, x: string)
    requires n <= |us|
  {
    forall j :: 0 <= j < n ==> us[j].name != x
  }

  lemma {:induction false} ExecCommit(stmts: seq<Stmt>, u: Update, lut: map<Expr, Place>, m: Machine, f: Ops, h: nat)
    ensures var b := Exec(stmts, m, f, h);
      Exec(stmts + [CommitOne(u, lut)], m, f, h) == b.(state := b.state[u.name := Assignment(u, lut, b)])
  {
    var all := stmts + [CommitOne(u, lut)];
    assert all[..|all| - 1] == stmts;
  }

  ghost function Assignment(u: Update, lut: map<Expr, Place>, b: Machine): Value {
    if IsMemory(u) then Mem(Overlaid(OverlayAt(At(u.next, lut), b), MemOf(b.state, u.name))) else Get(Holder(At(u.next, lut)), b)
  }

  ghost predicate SameBesidesState(m: Machine, b: Machine) {
    m == b.(state := m.state)
  }

  ghost predicate AssignedBy(us: seq<Update>, n: nat, lut: map<Expr, Place>, m: Machine, ready: Machine, s: State, f: Ops)
    requires n <= |us|
  {
    Assigned(us, n, lut, m.state, s, f) && SameBesidesState(m, ready)
  }

  /** The place of a next value holds what its assignment is to leave. */
  ghost predicate Waiting(u: Update, lut: map<Expr, Place>, m: Machine, s: State, f: Ops) {
    && u.next in lut
    && if IsMemory(u) then OverlayAt(lut[u.next], m) == Padded(Written(u.next, map[], s, f), Asked(u.next, lut, s, f))
       else Get(Holder(lut[u.next]), m) == Computed(u.next, s, f)
  }

  ghost predicate AllWaiting(us: seq<Update>, lut: map<Expr, Place>, m: Machine, s: State, f: Ops) {
    forall j :: 0 <= j < |us| ==> Waiting(us[j], lut, m, s, f)
  }

  lemma {:induction false} CommitsAreRight(us: seq<Update>, n: nat, stmts: seq<Stmt>, lut: map<Expr, Place>, m0: Machine, f: Ops, h: nat)
    requires n <= |us| && DistinctNames(us)
    requires var ready := Exec(stmts, m0, f, h); ready.state == m0.state && AllWaiting(us, lut, ready, m0.state, f)
    ensures AssignedBy(us, n, lut, Exec(stmts + Commits(us, n, lut), m0, f, h), Exec(stmts, m0, f, h), m0.state, f)
  {
    if n == 0 {
      NothingAssigned(us, stmts, lut, m0, f, h);
    } else {
      CommitsAreRight(us, n - 1, stmts, lut, m0, f, h);
      var front := stmts + Commits(us, n - 1, lut);
      assert stmts + Commits(us, n, lut) == front + [CommitOne(us[n - 1], lut)];
      assert Waiting(us[n - 1], lut, Exec(stmts, m0, f, h), m0.state, f);
      CommitStep(front, us, n, lut, Exec(stmts, m0, f, h), m0, f, h);
    }
  }

  lemma {:induction false} NothingAssigned(us: seq<Update>, stmts: seq<Stmt>, lut: map<Expr, Place>, m0: Machine, f: Ops, h: nat)
    requires Exec(stmts, m0, f, h).state == m0.state
    ensures AssignedBy(us, 0, lut, Exec(stmts + Commits(us, 0, lut), m0, f, h), Exec(stmts, m0, f, h), m0.state, f)
  {
    assert stmts + [] == stmts;
  }

  lemma {:induction false} CommitStep(stmts: seq<Stmt>, us: seq<Update>, n: nat, lut: map<Expr, Place>, ready: Machine, m0: Machine, f: Ops, h: nat)
    requires 0 < n <= |us| && DistinctNames(us) && Waiting(us[n - 1], lut, ready, m0.state, f)
    requires AssignedBy(us, n - 1, lut, Exec(stmts, m0, f, h), ready, m0.state, f)
    ensures AssignedBy(us, n, lut, Exec(stmts + [CommitOne(us[n - 1], lut)], m0, f, h), ready, m0.state, f)
  {
    var b := Exec(stmts, m0, f, h);
    ExecCommit(stmts, us[n - 1], lut, m0, f, h);
    OneMoreAssigned(us, n - 1, lut, b.state, m0.state, f);
    AssignmentIsLeft(us[n - 1], lut, ready, b, m0.state, f);
    assert Assigned(us, n, lut, b.state[us[n - 1].name := Left(us[n - 1], lut, m0.state, f)], m0.state, f);
  }

  lemma {:induction false} AssignmentIsLeft(u: Update, lut: map<Expr, Place>, ready: Machine, b: Machine, s: State, f: Ops)
    requires Waiting(u, lut, ready, s, f) && SameBesidesState(b, ready) && MemOf(b.state, u.name) == MemOf(s, u.name)
    ensures Assignment(u, lut, b) == Left(u, lut, s, f)
  {
  }

  lemma {:induction false} OneMoreAssigned(us: seq<Update>, n: nat, lut: map<Expr, Place>, t: State, s: State, f: Ops)
    requires n < |us| && DistinctNames(us) && Assigned(us, n, lut, t, s, f)
    ensures Assigned(us, n + 1, lut, t[us[n].name := Left(us[n], lut, s, f)], s, f)
    ensures MemOf(t, us[n].name) == MemOf(s, us[n].name)
  {
    var t2 := t[us[n].name := Left(us[n], lut, s, f)];
    assert Untouched(us, n, us[n].name);
    forall x | Untouched(us, n + 1, x) ensures SameAt(t2, s, x) {
      assert us[n].name != x && Untouched(us, n, x);
    }
    forall j | 0 <= j < n ensures Holds(us[j].name, Left(us[j], lut, s, f), t2) {
      assert Holds(us[j].name, Left(us[j], lut, s, f), t) && us[j].name != us[n].name;
    }
  }

  /** What the generated update does: every assignment is made from the values of the state before,
      and what has no update keeps its value. */
  lemma {:induction false} UpdateAssigns(us: seq<Update>, m: Machine, f: Ops, h: nat)
    requires DistinctNames(us) && AllSupported(us) && AllBelow(us, h)
    ensures Assigned(us, |us|, Prepare(us, |us|).lut, Exec(UpdateCode(us), m, f, h).state, m.state, f)
  {
    PrepareIsRight(us, |us|, m, f, h);
    var c := Prepare(us, |us|);
    CommitsAreRight(us, |us|, c.stmts, c.lut, m, f, h);
  }
}
