/** The TSO axioms and the store-buffer machine allow the same behaviours. */
module TsoMachine {
  import opened Traces
  import opened TsoAxioms
  import opened StoreBuffer

  function Time(p: Program, t: Times, e: Event): int
    requires Sized(p, t) && InRange(p, e.i)
  {
    if e.Exec? then t.ts[e.i] else t.gts[e.i]
  }

  /** The schedule lists the events in an order that extends their times; ties in any order. */
  ghost predicate Extends(p: Program, t: Times, es: seq<Event>) {
    && Sized(p, t) && Schedule(p, es)
    && forall e, f :: IsEvent(p, e) && IsEvent(p, f) && Time(p, t, e) < Time(p, t, f) ==> Pos(es, e) < Pos(es, f)
  }

  /** What the read of `s` by `r` looks for; a read without a LOAD matches every write of `s`. */
  function QueryOf(p: Program, v: Valuation, s: Var, r: nat): Query {
    if Observes(p, s, r) then At(ReadLoc(p, v, s, r)) else Any(s)
  }

  predicate Hits(p: Program, v: Valuation, s: Var, r: nat, w: nat) {
    Matches(p, v, QueryOf(p, v, s, r), w)
  }

  /** The write the machine would return to the read of `s` by `r` after `k` events. */
  ghost function Source(p: Program, v: Valuation, es: seq<Event>, k: nat, s: Var, r: nat): nat
    requires Schedule(p, es) && k <= |es| && InRange(p, r)
  {
    var q := QueryOf(p, v, s, r);
    var y := Youngest(p, v, Buf(StateAt(p, v, es, k), p.steps[r].core), q);
    if y != 0 then y else LastGlobal(p, v, es, k, q)
  }

  lemma {:induction false} YoungestSpec(p: Program, v: Valuation, buf: seq<nat>, q: Query)
    ensures var y := Youngest(p, v, buf, q);
            && (y == 0 ==> forall x :: x in buf ==> !Matches(p, v, q, x))
            && (y != 0 ==> Matches(p, v, q, y)
                           && exists a :: 0 <= a < |buf| && buf[a] == y && forall b :: a < b < |buf| ==> !Matches(p, v, q, buf[b]))
  {
    if buf != [] {
      var n := |buf| - 1;
      if Matches(p, v, q, buf[n]) {
        assert buf[n] == Youngest(p, v, buf, q);
      } else {
        YoungestSpec(p, v, buf[..n], q);
        forall x | x in buf ensures x in buf[..n] || x == buf[n] {
        }
        var y := Youngest(p, v, buf, q);
        if y != 0 {
          var a :| 0 <= a < n && buf[..n][a] == y && forall b :: a < b < n ==> !Matches(p, v, q, buf[..n][b]);
          assert buf[a] == y;
          forall b | a < b < |buf| ensures !Matches(p, v, q, buf[b]) {
            if b < n { assert buf[..n][b] == buf[b]; }
          }
        }
      }
    }
  }

  /** In a good state, the youngest match is later in program order than every other match. */
  lemma {:induction false} YoungestIsLast(p: Program, v: Valuation, es: seq<Event>, k: nat, st: State, c: nat, q: Query)
    requires Schedule(p, es) && StateOk(p, es, k, st)
    ensures var y := Youngest(p, v, Buf(st, c), q);
            && (y != 0 ==> Matches(p, v, q, y) && Buffered(p, es, k, y) && p.steps[y].core == c)
            && forall x: nat :: Buffered(p, es, k, x) && p.steps[x].core == c && Matches(p, v, q, x) ==>
                 y != 0 && Pos(es, Exec(x)) <= Pos(es, Exec(y))
  {
    var buf := Buf(st, c);
    YoungestSpec(p, v, buf, q);
    assert BufferOk(p, es, k, st, c);
    var y := Youngest(p, v, buf, q);
    forall x: nat | Buffered(p, es, k, x) && p.steps[x].core == c && Matches(p, v, q, x)
      ensures y != 0 && Pos(es, Exec(x)) <= Pos(es, Exec(y))
    {
      assert x in buf;
      var a :| 0 <= a < |buf| && buf[a] == y && forall b :: a < b < |buf| ==> !Matches(p, v, q, buf[b]);
      var b :| 0 <= b < |buf| && buf[b] == x;
      assert b <= a;
    }
  }

  // ----- from the axioms to the machine -----

  ghost predicate Solution(p: Program, v: Valuation, t: Times, es: seq<Event>) {
    Wf(p) && Axioms(p, v, t) && Ordered(p, t) && Extends(p, t, es)
  }

  /** A matching buffered write of the reader's own core is the source, or the source is a
      younger buffered one. */
  lemma {:induction false} BufferedSource(p: Program, v: Valuation, t: Times, es: seq<Event>, s: Var, r: nat, w: nat, y: nat)
    requires Solution(p, v, t, es) && s in p.shared && Reads(p, s, r) && ReadsFrom(TSO, p, v, t, s, r, w)
    requires Buffered(p, es, Pos(es, Exec(r)), y) && SameCore(p, y, r) && Hits(p, v, s, r, y)
    ensures w == y || (Buffered(p, es, Pos(es, Exec(r)), w) && SameCore(p, w, r) && Hits(p, v, s, r, w)
                       && Pos(es, Exec(y)) < Pos(es, Exec(w)))
  {
    assert IsEvent(p, Exec(r)) && IsEvent(p, Commit(y)) && IsEvent(p, Exec(y));
    assert SharedWriter(p, w);
    if w != y {
      assert NotBetween(TSO, p, v, t, s, r, w, y);
      assert t.gts[y] >= t.ts[r];
      assert w != 0 && SameCore(p, w, r);
      assert PureWrite(p, w);
      assert IsEvent(p, Exec(w)) && IsEvent(p, Commit(w));
      PosDistinct(p, es, Commit(w), Exec(r));
      assert t.ts[w] < t.ts[r] < t.gts[w];
    }
  }

  lemma {:induction false} GlobalTime(p: Program, v: Valuation, t: Times, w: nat)
    requires Wf(p) && Axioms(p, v, t) && InRange(p, w) && SharedWriter(p, w)
    ensures IsEvent(p, GlobalEvent(p, w)) && Time(p, t, GlobalEvent(p, w)) == t.gts[w]
  {
  }

  /** Any matching write global before the read is the source or became global before it. */
  lemma {:induction false} GlobalBeforeSource(p: Program, v: Valuation, t: Times, es: seq<Event>, s: Var, r: nat, w: nat, g: nat)
    requires Solution(p, v, t, es) && s in p.shared && Reads(p, s, r) && ReadsFrom(TSO, p, v, t, s, r, w)
    requires InRange(p, g) && Hits(p, v, s, r, g) && GlobalBefore(p, es, g, Pos(es, Exec(r)))
    ensures g == w || (w != 0 && Pos(es, GlobalEvent(p, g)) < Pos(es, GlobalEvent(p, w)))
  {
    assert SharedWriter(p, w) && SharedWriter(p, g);
    assert IsEvent(p, Exec(r)) && IsEvent(p, Exec(g));
    GlobalTime(p, v, t, g);
    if w != 0 { GlobalTime(p, v, t, w); }
    assert t.gts[g] <= t.ts[r];
    if g != w {
      assert NotBetween(TSO, p, v, t, s, r, w, g);
    }
  }

  /** With no match buffered, the source is the last match to become global. */
  lemma {:induction false} GlobalSource(p: Program, v: Valuation, t: Times, es: seq<Event>, s: Var, r: nat, w: nat)
    requires Solution(p, v, t, es) && s in p.shared && Reads(p, s, r) && ReadsFrom(TSO, p, v, t, s, r, w)
    requires forall x: nat :: Buffered(p, es, Pos(es, Exec(r)), x) && SameCore(p, x, r) ==> !Hits(p, v, s, r, x)
    ensures w == LastGlobal(p, v, es, Pos(es, Exec(r)), QueryOf(p, v, s, r))
  {
    var k := Pos(es, Exec(r));
    assert IsEvent(p, Exec(r)) && SharedWriter(p, w);
    LastGlobalSpec(p, v, es, k, QueryOf(p, v, s, r));
    var g := LastGlobal(p, v, es, k, QueryOf(p, v, s, r));
    if w != 0 {
      GlobalTime(p, v, t, w);
      assert IsEvent(p, Exec(w));
      assert GlobalBefore(p, es, w, k);
    }
    if g != 0 {
      GlobalBeforeSource(p, v, t, es, s, r, w, g);
    }
  }

  lemma {:induction false} SourceIsForced(p: Program, v: Valuation, t: Times, es: seq<Event>, s: Var, r: nat, w: nat)
    requires Solution(p, v, t, es) && s in p.shared && Reads(p, s, r) && ReadsFrom(TSO, p, v, t, s, r, w)
    requires IsEvent(p, Exec(r)) && StateOk(p, es, Pos(es, Exec(r)), StateAt(p, v, es, Pos(es, Exec(r))))
    ensures w == Source(p, v, es, Pos(es, Exec(r)), s, r)
  {
    var k := Pos(es, Exec(r));
    var c := p.steps[r].core;
    var st := StateAt(p, v, es, k);
    YoungestIsLast(p, v, es, k, st, c, QueryOf(p, v, s, r));
    var y := Youngest(p, v, Buf(st, c), QueryOf(p, v, s, r));
    if y != 0 {
      BufferedSource(p, v, t, es, s, r, w, y);
    } else {
      GlobalSource(p, v, t, es, s, r, w);
    }
  }

  lemma {:induction false} ReadIsEnabled(p: Program, v: Valuation, t: Times, es: seq<Event>, s: Var, r: nat)
    requires Solution(p, v, t, es) && s in p.shared && Observes(p, s, r)
    requires IsEvent(p, Exec(r)) && StateOk(p, es, Pos(es, Exec(r)), StateAt(p, v, es, Pos(es, Exec(r))))
    ensures v.rval(r, s) == Lookup(p, v, StateAt(p, v, es, Pos(es, Exec(r))), p.steps[r].core, ReadLoc(p, v, s, r))
  {
    var w: nat :| ReadsFrom(TSO, p, v, t, s, r, w);
    SourceIsForced(p, v, t, es, s, r, w);
    MemIsLastGlobal(p, v, es, Pos(es, Exec(r)), ReadLoc(p, v, s, r));
    YoungestIsLast(p, v, es, Pos(es, Exec(r)), StateAt(p, v, es, Pos(es, Exec(r))), p.steps[r].core, QueryOf(p, v, s, r));
    LastGlobalSpec(p, v, es, Pos(es, Exec(r)), QueryOf(p, v, s, r));
  }

  /** The times order the events as the axioms do, reads aside. */
  ghost predicate InOrder(p: Program, t: Times, es: seq<Event>) {
    && Wf(p) && Extends(p, t, es) && Ordered(p, t)
    && FacetOrder(p, t) && StoreOrder(p, t) && FenceOrder(p, t) && RmwSync(p, t)
  }

  /** Writes of a core become global in order, and before a later fence or read-modify-write. */
  lemma {:induction false} CommitsInOrder(p: Program, t: Times, es: seq<Event>, x: nat, i: nat)
    requires InOrder(p, t, es) && PureWrite(p, x) && InRange(p, i) && SameCore(p, x, i)
    requires Pos(es, Exec(x)) < Pos(es, Exec(i))
    ensures PureWrite(p, i) ==> Pos(es, Commit(x)) < Pos(es, Commit(i))
    ensures p.steps[i].kind == Fence || p.steps[i].kind == Rmw ==> Pos(es, Commit(x)) < Pos(es, Exec(i))
  {
    assert IsEvent(p, Commit(x)) && IsEvent(p, Exec(i)) && SharedWriter(p, x);
    assert PureWrite(p, i) ==> IsEvent(p, Commit(i)) && SharedWriter(p, i);
    assert p.steps[i].kind == Rmw ==> SharedWriter(p, i);
  }

  lemma {:induction false} EmptyBuffer(p: Program, v: Valuation, t: Times, es: seq<Event>, i: nat)
    requires InOrder(p, t, es) && IsEvent(p, Exec(i)) && (p.steps[i].kind == Fence || p.steps[i].kind == Rmw)
    requires StateOk(p, es, Pos(es, Exec(i)), StateAt(p, v, es, Pos(es, Exec(i))))
    ensures Buf(StateAt(p, v, es, Pos(es, Exec(i))), p.steps[i].core) == []
  {
    var buf := Buf(StateAt(p, v, es, Pos(es, Exec(i))), p.steps[i].core);
    assert BufferOk(p, es, Pos(es, Exec(i)), StateAt(p, v, es, Pos(es, Exec(i))), p.steps[i].core);
    if buf != [] {
      assert buf[0] in buf;
      CommitsInOrder(p, t, es, buf[0], i);
    }
  }

  lemma {:induction false} CommitIsEnabled(p: Program, v: Valuation, t: Times, es: seq<Event>, i: nat)
    requires InOrder(p, t, es) && IsEvent(p, Commit(i))
    requires StateOk(p, es, Pos(es, Commit(i)), StateAt(p, v, es, Pos(es, Commit(i))))
    ensures Enabled(p, v, StateAt(p, v, es, Pos(es, Commit(i))), Commit(i))
  {
    var k := Pos(es, Commit(i));
    var st := StateAt(p, v, es, k);
    var buf := Buf(st, p.steps[i].core);
    assert IsEvent(p, Exec(i));
    assert BufferOk(p, es, k, st, p.steps[i].core);
    assert Buffered(p, es, k, i);
    var a :| 0 <= a < |buf| && buf[a] == i;
    if a > 0 {
      assert buf[0] in buf;
      CommitsInOrder(p, t, es, buf[0], i);
    }
  }

  /** The observed shared reads of a step return what the machine finds when it runs. */
  ghost predicate FindsReads(p: Program, v: Valuation, es: seq<Event>, i: nat)
    requires Schedule(p, es) && InRange(p, i)
  {
    forall s :: s in p.shared && Observes(p, s, i) ==>
      v.rval(i, s) == Lookup(p, v, StateAt(p, v, es, Pos(es, Exec(i))), p.steps[i].core, ReadLoc(p, v, s, i))
  }

  lemma {:induction false} ExecIsEnabled(p: Program, v: Valuation, t: Times, es: seq<Event>, i: nat)
    requires InOrder(p, t, es) && IsEvent(p, Exec(i)) && FindsReads(p, v, es, i)
    requires StateOk(p, es, Pos(es, Exec(i)), StateAt(p, v, es, Pos(es, Exec(i))))
    ensures Enabled(p, v, StateAt(p, v, es, Pos(es, Exec(i))), Exec(i))
  {
    forall j: nat | Po(p, j, i) ensures j in StateAt(p, v, es, Pos(es, Exec(i))).done {
      assert IsEvent(p, Exec(j));
    }
    if p.steps[i].kind == Fence || p.steps[i].kind == Rmw { EmptyBuffer(p, v, t, es, i); }
  }

  lemma {:induction false} EventIsEnabled(p: Program, v: Valuation, t: Times, es: seq<Event>, k: nat)
    requires InOrder(p, t, es) && k < |es| && EnabledBefore(p, v, es, k)
    requires IsEvent(p, es[k]) && (es[k].Exec? ==> FindsReads(p, v, es, es[k].i))
    ensures EnabledAt(p, v, es, k)
  {
    StateIsOk(p, v, es, k);
    PosOf(p, es, k);
    var e := es[k];
    if e.Exec? { ExecIsEnabled(p, v, t, es, e.i); } else { CommitIsEnabled(p, v, t, es, e.i); }
  }

  /** Events in such an order are a run, whatever finds its reads. */
  lemma {:induction false} OrderGivesRun(p: Program, v: Valuation, t: Times, es: seq<Event>, k: nat)
    requires InOrder(p, t, es) && k <= |es| && forall i: nat :: InRange(p, i) ==> FindsReads(p, v, es, i)
    ensures EnabledBefore(p, v, es, k)
  {
    if k > 0 {
      OrderGivesRun(p, v, t, es, k - 1);
      PosOf(p, es, k - 1);
      EventIsEnabled(p, v, t, es, k - 1);
    }
  }

  lemma {:induction false} SolutionReads(p: Program, v: Valuation, t: Times, es: seq<Event>, k: nat)
    requires Solution(p, v, t, es) && k < |es| && EnabledBefore(p, v, es, k)
    ensures IsEvent(p, es[k]) && (es[k].Exec? ==> FindsReads(p, v, es, es[k].i))
  {
    StateIsOk(p, v, es, k);
    PosOf(p, es, k);
    if es[k].Exec? {
      var i := es[k].i;
      forall s | s in p.shared && Observes(p, s, i)
        ensures v.rval(i, s) == Lookup(p, v, StateAt(p, v, es, Pos(es, Exec(i))), p.steps[i].core, ReadLoc(p, v, s, i))
      {
        ReadIsEnabled(p, v, t, es, s, i);
      }
    }
  }

  lemma {:induction false} EnabledUpTo(p: Program, v: Valuation, t: Times, es: seq<Event>, k: nat)
    requires Solution(p, v, t, es) && k <= |es|
    ensures EnabledBefore(p, v, es, k)
  {
    if k > 0 {
      EnabledUpTo(p, v, t, es, k - 1);
      NextIsEnabled(p, v, t, es, k - 1);
    }
  }

  lemma {:induction false} NextIsEnabled(p: Program, v: Valuation, t: Times, es: seq<Event>, k: nat)
    requires Solution(p, v, t, es) && k < |es| && EnabledBefore(p, v, es, k)
    ensures EnabledAt(p, v, es, k)
  {
    SolutionReads(p, v, t, es, k);
    EventIsEnabled(p, v, t, es, k);
  }

  /** Every solution of the axioms is a run of the machine, along any order of the events that
      extends the solution's times. */
  lemma {:induction false} AxiomsGiveRun(p: Program, v: Valuation, t: Times, es: seq<Event>)
    requires Wf(p) && Axioms(p, v, t) && Ordered(p, t) && Extends(p, t, es)
    ensures Run(p, v, es)
  {
    EnabledUpTo(p, v, t, es, |es|);
  }

  // ----- from the machine to the axioms -----

  /** Times that follow the schedule strictly, with each read-modify-write its own facet. */
  ghost predicate Follows(p: Program, t: Times, es: seq<Event>) {
    && Sized(p, t) && Schedule(p, es)
    && (forall e, f :: IsEvent(p, e) && IsEvent(p, f) && Pos(es, e) < Pos(es, f) ==> Time(p, t, e) < Time(p, t, f))
    && (forall e :: IsEvent(p, e) ==> Time(p, t, e) > 0)
    && RmwSync(p, t)
  }

  lemma {:induction false} RunState(p: Program, v: Valuation, es: seq<Event>, e: Event)
    requires Run(p, v, es) && IsEvent(p, e)
    ensures StateOk(p, es, Pos(es, e), StateAt(p, v, es, Pos(es, e)))
    ensures Enabled(p, v, StateAt(p, v, es, Pos(es, e)), e)
  {
    var k := Pos(es, e);
    StateIsOk(p, v, es, k);
    assert EnabledAt(p, v, es, k);
  }

  lemma {:induction false} CommitAfterExec(p: Program, v: Valuation, es: seq<Event>, x: nat)
    requires Run(p, v, es) && PureWrite(p, x)
    ensures Pos(es, Exec(x)) < Pos(es, Commit(x))
  {
    assert IsEvent(p, Commit(x));
    StateIsOk(p, v, es, |es|);
  }

  lemma {:induction false} CommitOrder(p: Program, v: Valuation, es: seq<Event>, x: nat, y: nat)
    requires Run(p, v, es) && PureWrite(p, x) && PureWrite(p, y) && SameCore(p, x, y)
    requires Pos(es, Exec(x)) < Pos(es, Exec(y))
    ensures Pos(es, Commit(x)) < Pos(es, Commit(y))
  {
    var k := Pos(es, Commit(y));
    assert IsEvent(p, Commit(x)) && IsEvent(p, Commit(y));
    RunState(p, v, es, Commit(y));
    CommitAfterExec(p, v, es, y);
    PosDistinct(p, es, Commit(x), Commit(y));
    var st := StateAt(p, v, es, k);
    var buf := Buf(st, p.steps[y].core);
    assert BufferOk(p, es, k, st, p.steps[y].core);
  }

  lemma {:induction false} DrainedBefore(p: Program, v: Valuation, es: seq<Event>, x: nat, f: nat)
    requires Run(p, v, es) && PureWrite(p, x) && InRange(p, f) && SameCore(p, x, f)
    requires p.steps[f].kind == Fence || p.steps[f].kind == Rmw
    requires Pos(es, Exec(x)) < Pos(es, Exec(f))
    ensures Pos(es, Commit(x)) < Pos(es, Exec(f))
  {
    var k := Pos(es, Exec(f));
    assert IsEvent(p, Commit(x)) && IsEvent(p, Exec(f));
    RunState(p, v, es, Exec(f));
    PosDistinct(p, es, Commit(x), Exec(f));
    var st := StateAt(p, v, es, k);
    assert BufferOk(p, es, k, st, p.steps[f].core);
    assert x !in Buf(st, p.steps[f].core);
  }

  /** On a core, writes become global in the order they execute. */
  lemma {:induction false} GlobalOrder(p: Program, v: Valuation, es: seq<Event>, x: nat, y: nat)
    requires Run(p, v, es) && InRange(p, x) && InRange(p, y) && SharedWriter(p, x) && SharedWriter(p, y)
    requires SameCore(p, x, y) && Pos(es, Exec(x)) < Pos(es, Exec(y))
    ensures Pos(es, GlobalEvent(p, x)) < Pos(es, GlobalEvent(p, y))
  {
    if PureWrite(p, y) { CommitAfterExec(p, v, es, y); }
    if PureWrite(p, x) {
      if PureWrite(p, y) { CommitOrder(p, v, es, x, y); } else { DrainedBefore(p, v, es, x, y); }
    }
  }

  lemma {:induction false} GlobalAfterExec(p: Program, v: Valuation, es: seq<Event>, x: nat)
    requires Run(p, v, es) && InRange(p, x) && SharedWriter(p, x)
    ensures IsEvent(p, GlobalEvent(p, x)) && Pos(es, Exec(x)) <= Pos(es, GlobalEvent(p, x))
  {
    if PureWrite(p, x) { CommitAfterExec(p, v, es, x); }
  }

  ghost predicate Timed(p: Program, v: Valuation, t: Times, es: seq<Event>) {
    Wf(p) && Run(p, v, es) && Follows(p, t, es)
  }

  lemma {:induction false} TimesOf(p: Program, v: Valuation, t: Times, es: seq<Event>, x: nat, y: nat)
    requires Timed(p, v, t, es) && InRange(p, x) && InRange(p, y)
    ensures t.ts[x] < t.ts[y] <==> Pos(es, Exec(x)) < Pos(es, Exec(y))
    ensures SharedWriter(p, x) && SharedWriter(p, y) ==>
              (t.gts[x] < t.gts[y] <==> Pos(es, GlobalEvent(p, x)) < Pos(es, GlobalEvent(p, y)))
    ensures SharedWriter(p, x) ==> t.gts[x] > 0
    ensures SharedWriter(p, x) && (x != y || PureWrite(p, x)) ==>
              (t.gts[x] < t.ts[y] <==> Pos(es, GlobalEvent(p, x)) < Pos(es, Exec(y)))
              && (t.ts[y] < t.gts[x] <==> Pos(es, Exec(y)) < Pos(es, GlobalEvent(p, x)))
  {
    var ex, ey := Exec(x), Exec(y);
    assert IsEvent(p, ex) && IsEvent(p, ey);
    if x != y { PosDistinct(p, es, ex, ey); }
    if SharedWriter(p, x) {
      var gx := GlobalEvent(p, x);
      assert IsEvent(p, gx) && Time(p, t, gx) == t.gts[x];
      if gx != ey { PosDistinct(p, es, gx, ey); }
      if SharedWriter(p, y) && x != y {
        var gy := GlobalEvent(p, y);
        assert IsEvent(p, gy) && Time(p, t, gy) == t.gts[y];
        PosDistinct(p, es, gx, gy);
      }
    }
  }

  /** The write the machine returns is visible to the read, carries the value read, and every
      other matching write is either not yet visible or older. */
  lemma {:induction false} SourceIsVisible(p: Program, v: Valuation, es: seq<Event>, s: Var, r: nat)
    requires Wf(p) && Run(p, v, es) && s in p.shared && Reads(p, s, r)
    ensures IsEvent(p, Exec(r))
    ensures var k := Pos(es, Exec(r));
            var w := Source(p, v, es, k, s, r);
            && (w != 0 ==> InRange(p, w) && Hits(p, v, s, r, w) && Pos(es, Exec(w)) < k
                           && (SameCore(p, w, r) || GlobalBefore(p, es, w, k)))
            && (Observes(p, s, r) ==> v.rval(r, s) == Written(v, w, ReadLoc(p, v, s, r)))
  {
    assert IsEvent(p, Exec(r));
    var k := Pos(es, Exec(r));
    var q := QueryOf(p, v, s, r);
    var w := Source(p, v, es, k, s, r);
    RunState(p, v, es, Exec(r));
    YoungestIsLast(p, v, es, k, StateAt(p, v, es, k), p.steps[r].core, q);
    LastGlobalSpec(p, v, es, k, q);
    if w != 0 {
      assert SharedWriter(p, w);
      GlobalAfterExec(p, v, es, w);
    }
    MemIsLastGlobal(p, v, es, k, ReadLoc(p, v, s, r));
  }

  lemma {:induction false} SourceIsLatest(p: Program, v: Valuation, es: seq<Event>, s: Var, r: nat, x: nat)
    requires Wf(p) && Run(p, v, es) && s in p.shared && Reads(p, s, r) && IsEvent(p, Exec(r))
    requires InRange(p, x) && Hits(p, v, s, r, x) && x != r && x != Source(p, v, es, Pos(es, Exec(r)), s, r)
    requires if SameCore(p, x, r) then Pos(es, Exec(x)) < Pos(es, Exec(r)) else GlobalBefore(p, es, x, Pos(es, Exec(r)))
    ensures var w := Source(p, v, es, Pos(es, Exec(r)), s, r);
            && w != 0 && InRange(p, w)
            && if SameCore(p, x, w) then Pos(es, Exec(x)) < Pos(es, Exec(w))
               else Pos(es, GlobalEvent(p, x)) < Pos(es, GlobalEvent(p, w))
  {
    var k := Pos(es, Exec(r));
    var c := p.steps[r].core;
    var q := QueryOf(p, v, s, r);
    var w := Source(p, v, es, k, s, r);
    var y := Youngest(p, v, Buf(StateAt(p, v, es, k), c), q);
    RunState(p, v, es, Exec(r));
    YoungestIsLast(p, v, es, k, StateAt(p, v, es, k), c, q);
    LastGlobalSpec(p, v, es, k, q);
    assert SharedWriter(p, x) && IsEvent(p, Exec(x));
    GlobalAfterExec(p, v, es, x);
    PosDistinct(p, es, GlobalEvent(p, x), Exec(r));
    if !GlobalBefore(p, es, x, k) {
      assert Buffered(p, es, k, x);
    }
    assert w != 0 && SharedWriter(p, w) && IsEvent(p, Exec(w));
    GlobalAfterExec(p, v, es, w);
    PosDistinct(p, es, Exec(x), Exec(w));
    PosDistinct(p, es, GlobalEvent(p, x), GlobalEvent(p, w));
    if SameCore(p, x, w) && Pos(es, Exec(w)) < Pos(es, Exec(x)) {
      GlobalOrder(p, v, es, w, x);
    }
  }

  lemma {:induction false} NothingBetween(p: Program, v: Valuation, t: Times, es: seq<Event>, s: Var, r: nat, w: nat, x: nat)
    requires Timed(p, v, t, es) && s in p.shared && Reads(p, s, r) && IsEvent(p, Exec(r))
    requires w == Source(p, v, es, Pos(es, Exec(r)), s, r) && w < |p.steps| && w != r && (w != 0 ==> Writes(p, s, w))
    ensures NotBetween(TSO, p, v, t, s, r, w, x)
  {
    if Writes(p, s, x) && x != w && x != r && SameAddress(p, v, s, x, r) && Decoded(v, x) {
      assert SharedWriter(p, x) && SharedWriter(p, w);
      if x == 0 {
        TimesOf(p, v, t, es, w, w);
        assert IsEvent(p, Exec(w)) && Time(p, t, Exec(w)) > 0;
      } else {
        assert Hits(p, v, s, r, x);
        TimesOf(p, v, t, es, x, r);
        TimesOf(p, v, t, es, r, x);
        GlobalAfterExec(p, v, es, x);
        assert IsEvent(p, Exec(x));
        PosDistinct(p, es, Exec(x), Exec(r));
        PosDistinct(p, es, GlobalEvent(p, x), Exec(r));
        if if SameCore(p, x, r) then Pos(es, Exec(x)) < Pos(es, Exec(r)) else GlobalBefore(p, es, x, Pos(es, Exec(r))) {
          SourceIsLatest(p, v, es, s, r, x);
          TimesOf(p, v, t, es, x, w);
        }
      }
    }
  }

  lemma {:induction false} SourceIsRead(p: Program, v: Valuation, t: Times, es: seq<Event>, s: Var, r: nat)
    requires Timed(p, v, t, es) && s in p.shared && Reads(p, s, r)
    ensures exists w: nat :: ReadsFrom(TSO, p, v, t, s, r, w)
  {
    SourceIsVisible(p, v, es, s, r);
    var w := Source(p, v, es, Pos(es, Exec(r)), s, r);
    assert !SameCore(p, 0, r) || p.steps[r].kind == Final;
    assert Writes(p, s, w) && SharedWriter(p, w);
    assert Time(p, t, Exec(r)) > 0;
    if w != 0 { TimesOf(p, v, t, es, w, r); }
    forall x: nat ensures NotBetween(TSO, p, v, t, s, r, w, x) {
      NothingBetween(p, v, t, es, s, r, w, x);
    }
    assert ReadsFrom(TSO, p, v, t, s, r, w);
  }

  lemma {:induction false} RunOrders(p: Program, v: Valuation, t: Times, es: seq<Event>)
    requires Timed(p, v, t, es)
    ensures Ordered(p, t) && Positive(TSO, p, t) && FacetOrder(p, t)
  {
    forall i: nat, j: nat | Po(p, i, j) ensures t.ts[i] < t.ts[j] {
      assert IsEvent(p, Exec(j));
      RunState(p, v, es, Exec(j));
      TimesOf(p, v, t, es, i, j);
    }
    forall i: nat | InRange(p, i) ensures t.ts[i] > 0 && (SharedWriter(p, i) ==> t.gts[i] > 0) {
      assert IsEvent(p, Exec(i)) && Time(p, t, Exec(i)) > 0;
      TimesOf(p, v, t, es, i, i);
    }
    forall w: nat | PureWrite(p, w) ensures t.ts[w] < t.gts[w] {
      CommitAfterExec(p, v, es, w);
      TimesOf(p, v, t, es, w, w);
    }
  }

  lemma {:induction false} RunStores(p: Program, v: Valuation, t: Times, es: seq<Event>)
    requires Timed(p, v, t, es)
    ensures StoreOrder(p, t) && FenceOrder(p, t)
  {
    RunOrders(p, v, t, es);
    forall x: nat, y: nat | SharedWriter(p, x) && SharedWriter(p, y) && x != y && SameCore(p, x, y)
                            && Stamp(p, t, x) < Stamp(p, t, y)
      ensures Global(p, t, x) < Global(p, t, y)
    {
      assert x != 0 && y != 0;
      TimesOf(p, v, t, es, x, y);
      GlobalOrder(p, v, es, x, y);
    }
    forall f: nat, w: nat | InRange(p, f) && p.steps[f].kind == Fence && SharedWriter(p, w) && SameCore(p, w, f)
                            && Stamp(p, t, w) < t.ts[f]
      ensures Global(p, t, w) < t.ts[f]
    {
      assert w != 0;
      TimesOf(p, v, t, es, w, f);
      if PureWrite(p, w) { DrainedBefore(p, v, es, w, f); }
    }
  }

  /** Every run of the machine, under any times that follow it, solves the axioms. */
  lemma {:induction false} RunGivesAxioms(p: Program, v: Valuation, t: Times, es: seq<Event>)
    requires Wf(p) && Run(p, v, es) && Follows(p, t, es)
    ensures Axioms(p, v, t) && Ordered(p, t)
  {
    RunOrders(p, v, t, es);
    RunStores(p, v, t, es);
    forall s, r: nat | s in p.shared && Reads(p, s, r) ensures exists w: nat :: ReadsFrom(TSO, p, v, t, s, r, w) {
      SourceIsRead(p, v, t, es, s, r);
    }
  }

  // ----- behaviours: times and schedules hidden -----

  ghost predicate AxiomBehaviour(p: Program, v: Valuation) {
    exists t :: Axioms(p, v, t) && Ordered(p, t)
  }

  ghost predicate MachineBehaviour(p: Program, v: Valuation) {
    exists es :: Run(p, v, es)
  }

  /** The times that count positions in a schedule. */
  ghost function Clock(p: Program, es: seq<Event>): (t: Times)
    requires Wf(p)
    ensures Sized(p, t)
  {
    Times(
      seq(|p.steps|, (i: nat) => Pos(es, Exec(i)) + 1),
      seq(|p.steps|, (i: nat) => 1 + if InRange(p, i) then Pos(es, GlobalEvent(p, i)) else 0))
  }

  lemma {:induction false} RunIsBehaviour(p: Program, v: Valuation, es: seq<Event>)
    requires Wf(p) && Run(p, v, es)
    ensures Follows(p, Clock(p, es), es)
    ensures Axioms(p, v, Clock(p, es)) && Ordered(p, Clock(p, es))
  {
    RunGivesAxioms(p, v, Clock(p, es), es);
  }

  // ----- a schedule for every choice of times -----

  ghost predicate ByTime(p: Program, t: Times, es: seq<Event>)
    requires Sized(p, t)
  {
    && (forall k :: 0 <= k < |es| ==> InRange(p, es[k].i))
    && (forall j, k :: 0 <= j < k < |es| ==> es[j] != es[k] && Time(p, t, es[j]) <= Time(p, t, es[k]))
  }

  lemma {:induction false} Insert(p: Program, t: Times, es: seq<Event>, e: Event) returns (r: seq<Event>)
    requires Sized(p, t) && ByTime(p, t, es) && InRange(p, e.i) && e !in es
    ensures ByTime(p, t, r)
    ensures forall f :: f in r <==> f in es || f == e
  {
    if es == [] || Time(p, t, e) <= Time(p, t, es[0]) {
      r := [e] + es;
    } else {
      assert ByTime(p, t, es[1..]);
      var rest := Insert(p, t, es[1..], e);
      r := [es[0]] + rest;
      assert forall f :: f in es <==> f == es[0] || f in es[1..];
      forall j, k | 0 <= j < k < |r| ensures r[j] != r[k] && Time(p, t, r[j]) <= Time(p, t, r[k]) {
        assert r[k] == rest[k - 1] && r[k] in rest;
        if r[k] in es[1..] {
          var m :| 0 <= m < |es[1..]| && es[1..][m] == r[k];
          assert es[1..][m] == es[m + 1];
        }
      }
    }
  }

  lemma {:induction false} SortEvents(p: Program, t: Times, n: nat) returns (es: seq<Event>)
    requires Sized(p, t) && 1 <= n <= |p.steps|
    ensures ByTime(p, t, es)
    ensures forall e :: e in es <==> IsEvent(p, e) && e.i < n
  {
    if n == 1 {
      es := [];
    } else {
      es := SortEvents(p, t, n - 1);
      es := Insert(p, t, es, Exec(n - 1));
      if PureWrite(p, n - 1) {
        es := Insert(p, t, es, Commit(n - 1));
      }
    }
  }

  lemma {:induction false} ScheduleExists(p: Program, t: Times) returns (es: seq<Event>)
    requires Wf(p) && Sized(p, t)
    ensures Extends(p, t, es)
  {
    es := SortEvents(p, t, |p.steps|);
    forall e, f | IsEvent(p, e) && IsEvent(p, f) && Time(p, t, e) < Time(p, t, f)
      ensures Pos(es, e) < Pos(es, f)
    {
      assert e in es && f in es;
    }
  }

  /** The TSO axioms with ordered cores describe exactly the store-buffer machine. */
  lemma {:induction false} TsoIsStoreBuffer(p: Program, v: Valuation)
    requires Wf(p)
    ensures AxiomBehaviour(p, v) <==> MachineBehaviour(p, v)
  {
    if AxiomBehaviour(p, v) {
      var t :| Axioms(p, v, t) && Ordered(p, t);
      var es := ScheduleExists(p, t);
      AxiomsGiveRun(p, v, t, es);
    }
    if MachineBehaviour(p, v) {
      var es :| Run(p, v, es);
      RunIsBehaviour(p, v, es);
    }
  }
}
