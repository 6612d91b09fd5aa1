/** The operational TSO machine: one memory and a FIFO store buffer per core.  It mentions no
    timestamps; a run is a sequence of executions of steps and commits of buffered writes. */
module StoreBuffer {
  import opened Traces
  import opened TsoAxioms

  datatype Event = Exec(i: nat) | Commit(i: nat)

  ghost predicate IsEvent(p: Program, e: Event) {
    InRange(p, e.i) && (e.Commit? ==> PureWrite(p, e.i))
  }

  /** What a lookup searches for: a write to a location, or any write of a state. */
  datatype Query = At(l: Loc) | Any(s: Var)

  predicate Matches(p: Program, v: Valuation, q: Query, w: nat) {
    match q
    case At(l) => WritesLoc(p, v, w, l)
    case Any(s) => InRange(p, w) && Writes(p, s, w) && v.decode(w)
  }

  datatype State = State(mem: Loc -> int, buf: map<nat, seq<nat>>, done: set<nat>)

  function Buf(st: State, c: nat): seq<nat> {
    if c in st.buf then st.buf[c] else []
  }

  /** The youngest matching entry of a buffer, 0 when there is none. */
  function Youngest(p: Program, v: Valuation, buf: seq<nat>, q: Query): nat {
    if buf == [] then 0
    else if Matches(p, v, q, buf[|buf| - 1]) then buf[|buf| - 1]
    else Youngest(p, v, buf[..|buf| - 1], q)
  }

  function Lookup(p: Program, v: Valuation, st: State, c: nat, l: Loc): int {
    var y := Youngest(p, v, Buf(st, c), At(l));
    if y != 0 then v.wval(y, l.s) else st.mem(l)
  }

  function Apply(p: Program, v: Valuation, mem: Loc -> int, i: nat): Loc -> int {
    l => if WritesLoc(p, v, i, l) then v.wval(i, l.s) else mem(l)
  }

  function Start(v: Valuation): State {
    State((l: Loc) => v.init(l.s, l.a), map[], {})
  }

  /** A step runs after its program-order predecessors; a fence or read-modify-write needs an
      empty buffer; every observed shared read returns what the machine finds.  Only the oldest
      entry of a buffer can be committed. */
  ghost predicate Enabled(p: Program, v: Valuation, st: State, e: Event)
    requires InRange(p, e.i)
  {
    var c := p.steps[e.i].core;
    match e
    case Exec(i) =>
      && (forall j: nat :: Po(p, j, i) ==> j in st.done)
      && (p.steps[i].kind == Fence || p.steps[i].kind == Rmw ==> Buf(st, c) == [])
      && (forall s :: s in p.shared && Observes(p, s, i) ==> v.rval(i, s) == Lookup(p, v, st, c, ReadLoc(p, v, s, i)))
    case Commit(i) =>
      Buf(st, c) != [] && Buf(st, c)[0] == i
  }

  ghost function Next(p: Program, v: Valuation, st: State, e: Event): State
    requires InRange(p, e.i)
  {
    var c := p.steps[e.i].core;
    match e
    case Exec(i) =>
      State(
        if p.steps[i].kind == Rmw then Apply(p, v, st.mem, i) else st.mem,
        if PureWrite(p, i) then st.buf[c := Buf(st, c) + [i]] else st.buf,
        st.done + {i})
    case Commit(i) =>
      State(Apply(p, v, st.mem, i), st.buf[c := if Buf(st, c) == [] then [] else Buf(st, c)[1..]], st.done)
  }

  /** Every step is executed and every buffered write committed, once each. */
  ghost predicate Schedule(p: Program, es: seq<Event>) {
    && (forall e :: IsEvent(p, e) <==> e in es)
    && (forall j, k :: 0 <= j < k < |es| ==> es[j] != es[k])
  }

  ghost function StateAt(p: Program, v: Valuation, es: seq<Event>, k: nat): State
    requires Schedule(p, es) && k <= |es|
  {
    if k == 0 then Start(v)
    else
      assert es[k - 1] in es;
      Next(p, v, StateAt(p, v, es, k - 1), es[k - 1])
  }

  ghost predicate EnabledAt(p: Program, v: Valuation, es: seq<Event>, k: nat)
    requires Schedule(p, es) && k < |es|
  {
    assert es[k] in es;
    Enabled(p, v, StateAt(p, v, es, k), es[k])
  }

  ghost predicate EnabledBefore(p: Program, v: Valuation, es: seq<Event>, k: nat)
    requires Schedule(p, es) && k <= |es|
  {
    forall j: nat :: j < k ==> EnabledAt(p, v, es, j)
  }

  ghost predicate Run(p: Program, v: Valuation, es: seq<Event>) {
    Schedule(p, es) && EnabledBefore(p, v, es, |es|)
  }

  // ----- positions of events in a schedule -----

  ghost function Pos(es: seq<Event>, e: Event): (k: nat)
    ensures e in es ==> k < |es| && es[k] == e
  {
    if e in es then
      var k: nat :| k < |es| && es[k] == e;
      k
    else 0
  }

  lemma {:induction false} PosOf(p: Program, es: seq<Event>, k: nat)
    requires Schedule(p, es) && k < |es|
    ensures Pos(es, es[k]) == k && IsEvent(p, es[k])
  {
    assert es[k] in es;
    assert es[Pos(es, es[k])] == es[k];
  }

  /** The event at which a write becomes visible to every core. */
  function GlobalEvent(p: Program, i: nat): Event
    requires InRange(p, i)
  {
    if p.steps[i].kind == Rmw then Exec(i) else Commit(i)
  }

  /** The last write matching `q` that became global among the first `k` events. */
  ghost function LastGlobal(p: Program, v: Valuation, es: seq<Event>, k: nat, q: Query): nat
    requires Schedule(p, es) && k <= |es|
  {
    if k == 0 then 0
    else
      assert es[k - 1] in es;
      var i := es[k - 1].i;
      if es[k - 1] == GlobalEvent(p, i) && Matches(p, v, q, i) then i else LastGlobal(p, v, es, k - 1, q)
  }

  ghost predicate GlobalBefore(p: Program, es: seq<Event>, i: nat, k: nat)
    requires InRange(p, i)
  {
    GlobalEvent(p, i) in es && Pos(es, GlobalEvent(p, i)) < k
  }

  lemma {:induction false} LastGlobalSpec(p: Program, v: Valuation, es: seq<Event>, k: nat, q: Query)
    requires Schedule(p, es) && k <= |es|
    ensures var w := LastGlobal(p, v, es, k, q);
            && (w != 0 ==> Matches(p, v, q, w) && InRange(p, w) && GlobalBefore(p, es, w, k))
            && forall x: nat :: InRange(p, x) && Matches(p, v, q, x) && GlobalBefore(p, es, x, k) ==>
                 w != 0 && Pos(es, GlobalEvent(p, x)) <= Pos(es, GlobalEvent(p, w))
  {
    if k > 0 {
      PosOf(p, es, k - 1);
      LastGlobalSpec(p, v, es, k - 1, q);
    }
  }

  /** The memory holds, at each location, the last global write to it. */
  lemma {:induction false} MemIsLastGlobal(p: Program, v: Valuation, es: seq<Event>, k: nat, l: Loc)
    requires Schedule(p, es) && k <= |es|
    ensures StateAt(p, v, es, k).mem(l) == Written(v, LastGlobal(p, v, es, k, At(l)), l)
  {
    if k > 0 {
      MemIsLastGlobal(p, v, es, k - 1, l);
      PosOf(p, es, k - 1);
    }
  }

  // ----- what the buffers hold -----

  ghost predicate Buffered(p: Program, es: seq<Event>, k: nat, x: nat) {
    PureWrite(p, x) && Pos(es, Exec(x)) < k <= Pos(es, Commit(x))
  }

  /** Each buffer holds exactly the core's executed and uncommitted writes, oldest first. */
  ghost predicate BufferOk(p: Program, es: seq<Event>, k: nat, st: State, c: nat) {
    && (forall x: nat :: x in Buf(st, c) <==> Buffered(p, es, k, x) && p.steps[x].core == c)
    && (forall a, b :: 0 <= a < b < |Buf(st, c)| ==> Pos(es, Exec(Buf(st, c)[a])) < Pos(es, Exec(Buf(st, c)[b])))
  }

  ghost predicate StateOk(p: Program, es: seq<Event>, k: nat, st: State) {
    && (forall i: nat :: i in st.done <==> InRange(p, i) && Pos(es, Exec(i)) < k)
    && (forall c: nat :: BufferOk(p, es, k, st, c))
    && (forall x: nat :: PureWrite(p, x) && Pos(es, Commit(x)) < k ==> Pos(es, Exec(x)) < Pos(es, Commit(x)))
  }

  lemma {:induction false} PosDistinct(p: Program, es: seq<Event>, e: Event, f: Event)
    requires Schedule(p, es) && IsEvent(p, e) && IsEvent(p, f) && e != f
    ensures Pos(es, e) != Pos(es, f)
  {
  }

  lemma {:induction false} ExecStep(p: Program, v: Valuation, es: seq<Event>, k: nat, st: State, c: nat)
    requires Schedule(p, es) && k < |es| && es[k].Exec? && StateOk(p, es, k, st)
    requires InRange(p, es[k].i)
    ensures BufferOk(p, es, k + 1, Next(p, v, st, es[k]), c)
  {
    var i := es[k].i;
    PosOf(p, es, k);
    assert BufferOk(p, es, k, st, c);
    var old', new' := Buf(st, c), Buf(Next(p, v, st, es[k]), c);
    forall x: nat | PureWrite(p, x)
      ensures Buffered(p, es, k + 1, x) <==> Buffered(p, es, k, x) || x == i
    {
      PosDistinct(p, es, Commit(x), Exec(i));
      if x != i { PosDistinct(p, es, Exec(x), Exec(i)); }
    }
    if PureWrite(p, i) && p.steps[i].core == c {
      assert new' == old' + [i];
      forall a | 0 <= a < |old'| ensures Pos(es, Exec(old'[a])) < Pos(es, Exec(i)) {
        assert old'[a] in old';
      }
    } else {
      assert new' == old';
    }
  }

  lemma {:induction false} CommitStep(p: Program, v: Valuation, es: seq<Event>, k: nat, st: State, c: nat)
    requires Schedule(p, es) && k < |es| && es[k].Commit? && StateOk(p, es, k, st)
    requires InRange(p, es[k].i) && Enabled(p, v, st, es[k])
    ensures BufferOk(p, es, k + 1, Next(p, v, st, es[k]), c)
  {
    var i := es[k].i;
    PosOf(p, es, k);
    assert BufferOk(p, es, k, st, c);
    assert BufferOk(p, es, k, st, p.steps[i].core);
    var old', new' := Buf(st, c), Buf(Next(p, v, st, es[k]), c);
    forall x: nat | PureWrite(p, x)
      ensures Buffered(p, es, k + 1, x) <==> Buffered(p, es, k, x) && x != i
    {
      PosDistinct(p, es, Exec(x), Commit(i));
      if x != i { PosDistinct(p, es, Commit(x), Commit(i)); }
    }
    if p.steps[i].core == c {
      assert old' == [i] + new';
      forall a | 0 <= a < |new'| ensures Pos(es, Exec(i)) < Pos(es, Exec(new'[a])) {
        assert new'[a] == old'[a + 1];
      }
    } else {
      assert new' == old';
    }
  }

  /** While every event was enabled, the state is what the schedule says it is. */
  lemma {:induction false} StateIsOk(p: Program, v: Valuation, es: seq<Event>, k: nat)
    requires Schedule(p, es) && k <= |es|
    requires EnabledBefore(p, v, es, k)
    ensures StateOk(p, es, k, StateAt(p, v, es, k))
  {
    if k > 0 {
      StateIsOk(p, v, es, k - 1);
      assert EnabledAt(p, v, es, k - 1);
      PosOf(p, es, k - 1);
      var st := StateAt(p, v, es, k - 1);
      forall c: nat
        ensures BufferOk(p, es, k, StateAt(p, v, es, k), c)
      {
        if es[k - 1].Exec? { ExecStep(p, v, es, k - 1, st, c); } else { CommitStep(p, v, es, k - 1, st, c); }
      }
      forall i: nat
        ensures i in StateAt(p, v, es, k).done <==> InRange(p, i) && Pos(es, Exec(i)) < k
      {
        if InRange(p, i) && Exec(i) != es[k - 1] { PosDistinct(p, es, Exec(i), es[k - 1]); }
      }
      forall x: nat | PureWrite(p, x) && Pos(es, Commit(x)) < k
        ensures Pos(es, Exec(x)) < Pos(es, Commit(x))
      {
        if Commit(x) == es[k - 1] {
          assert BufferOk(p, es, k - 1, st, p.steps[x].core);
          assert x in Buf(st, p.steps[x].core);
        } else {
          PosDistinct(p, es, Commit(x), es[k - 1]);
        }
      }
    }
  }

  // ----- the machine's state depends on no read -----

  /** The same decodes, stores and initial memory; what is read, and where, may differ. */
  ghost predicate SameWrites(v: Valuation, v': Valuation) {
    v'.decode == v.decode && v'.waddr == v.waddr && v'.wval == v.wval && v'.init == v.init
  }

  lemma {:induction false} SameYoungest(p: Program, v: Valuation, v': Valuation, buf: seq<nat>, l: Loc)
    requires SameWrites(v, v')
    ensures Youngest(p, v', buf, At(l)) == Youngest(p, v, buf, At(l))
  {
    if buf != [] {
      SameYoungest(p, v, v', buf[..|buf| - 1], l);
    }
  }

  lemma {:induction false} SameState(p: Program, v: Valuation, v': Valuation, es: seq<Event>, k: nat)
    requires Schedule(p, es) && k <= |es| && SameWrites(v, v')
    ensures StateAt(p, v', es, k).buf == StateAt(p, v, es, k).buf && StateAt(p, v', es, k).done == StateAt(p, v, es, k).done
    ensures forall l :: StateAt(p, v', es, k).mem(l) == StateAt(p, v, es, k).mem(l)
  {
    if k > 0 {
      SameState(p, v, v', es, k - 1);
      PosOf(p, es, k - 1);
    }
  }

  lemma {:induction false} SameLookup(p: Program, v: Valuation, v': Valuation, es: seq<Event>, k: nat, c: nat, l: Loc)
    requires Schedule(p, es) && k <= |es| && SameWrites(v, v')
    ensures Lookup(p, v', StateAt(p, v', es, k), c, l) == Lookup(p, v, StateAt(p, v, es, k), c, l)
  {
    SameState(p, v, v', es, k);
    SameYoungest(p, v, v', Buf(StateAt(p, v, es, k), c), l);
  }
}
