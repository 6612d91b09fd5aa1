/** What a read returns, said over the loads and states of a step alone: under the axioms, in a run of
    the store-buffer machine and in a sequential run. */
module ReadValues {
  import opened Traces
  import opened TsoAxioms
  import opened LocalState
  import SB = StoreBuffer
  import TM = TsoMachine
  import Sq = Sequential

  /** A step that loads from a memory. */
  ghost predicate LoadsFrom(p: Program, s: Var, r: nat) {
    1 <= r < |p.steps| && s in p.mems && s in p.steps[r].loads
  }

  /** A step that reads a state that is no memory. */
  ghost predicate ReadsState(p: Program, s: Var, r: nat) {
    1 <= r < |p.steps| && s !in p.mems && s in p.steps[r].uses
  }

  /** A step that uses a memory without loading from it. */
  ghost predicate UsesOnly(p: Program, s: Var, r: nat) {
    1 <= r < |p.steps| && s in p.mems && s !in p.steps[r].loads
  }

  /** The word `r` loads is the initial one at its address, or the one `w` has stored there. */
  ghost predicate LoadsWord(p: Program, v: Valuation, s: Var, r: nat, w: nat) {
    if w == 0 then v.rval(r, s) == v.init(s, v.raddr(r, s))
    else && w < |p.steps| && s in p.steps[w].updates && v.decode(w)
         && v.waddr(w, s) == v.raddr(r, s) && v.rval(r, s) == v.wval(w, s)
  }

  ghost predicate ReadsValue(p: Program, v: Valuation, s: Var, r: nat, w: nat) {
    if w == 0 then v.rval(r, s) == v.init(s, 0)
    else w < |p.steps| && s in p.steps[w].updates && v.decode(w) && v.rval(r, s) == v.wval(w, s)
  }

  // ----- under the axioms -----

  lemma {:induction false} LoadMeaning(m: Model, p: Program, v: Valuation, t: Times, s: Var, r: nat, w: nat)
    requires Wf(p) && Sized(p, t) && LoadsFrom(p, s, r) && ReadsFrom(m, p, v, t, s, r, w)
    ensures LoadsWord(p, v, s, r, w)
  {
    assert Reads(p, s, r);
  }

  lemma {:induction false} StateMeaning(m: Model, p: Program, v: Valuation, t: Times, s: Var, r: nat, w: nat)
    requires Wf(p) && Sized(p, t) && ReadsState(p, s, r) && ReadsFrom(m, p, v, t, s, r, w)
    ensures ReadsValue(p, v, s, r, w)
  {
  }

  ghost predicate StoresAt(p: Program, v: Valuation, s: Var, x: nat, a: int) {
    x < |p.steps| && s in p.steps[x].updates && v.decode(x) && v.waddr(x, s) == a
  }

  /** Conversely a write that is decoded, stores the loaded word at the loaded address, comes before
      and is followed by no other decoded write to that address before the load is its source. */
  lemma {:induction false} LoadSource(m: Model, p: Program, v: Valuation, t: Times, s: Var, r: nat, w: nat)
    requires Wf(p) && Sized(p, t) && LoadsFrom(p, s, r) && s in p.shared && w != r && LoadsWord(p, v, s, r, w) && Rf(m, p, t, w, r)
    requires forall x: nat :: x != w && x != r && x != 0 && StoresAt(p, v, s, x, v.raddr(r, s)) ==> Co(m, p, t, x, w) || Fr(m, p, t, r, x)
    requires w != 0 ==> Co(m, p, t, 0, w)
    ensures ReadsFrom(m, p, v, t, s, r, w)
  {
    assert Reads(p, s, r);
    forall x: nat ensures NotBetween(m, p, v, t, s, r, w, x) {
      if Writes(p, s, x) && x != w && x != r && SameAddress(p, v, s, x, r) && Decoded(v, x) && x == 0 {
        assert w != 0;
      }
    }
  }

  /** The valuations differ at most in what is read, and where, by uses of a memory without a load. */
  ghost predicate SameButUses(p: Program, v: Valuation, v': Valuation) {
    && v'.decode == v.decode && v'.waddr == v.waddr && v'.wval == v.wval && v'.init == v.init && v'.fin == v.fin
    && forall r, s :: (s in p.shared && UsesOnly(p, s, r)) || (v'.rval(r, s) == v.rval(r, s) && v'.raddr(r, s) == v.raddr(r, s))
  }

  lemma {:induction false} UseReadsFrom(m: Model, p: Program, v: Valuation, v': Valuation, t: Times, s: Var, r: nat, w: nat)
    requires Sized(p, t) && r < |p.steps| && Reads(p, s, r) && SameButUses(p, v, v')
    ensures ReadsFrom(m, p, v', t, s, r, w) <==> ReadsFrom(m, p, v, t, s, r, w)
  {
    assert forall x: nat :: SameAddress(p, v', s, x, r) <==> SameAddress(p, v, s, x, r);
    assert SameData(p, v', s, w, r) <==> SameData(p, v, s, w, r);
    if Writes(p, s, w) {
      forall x: nat ensures NotBetween(m, p, v', t, s, r, w, x) <==> NotBetween(m, p, v, t, s, r, w, x) {
      }
    }
  }

  /** The axioms leave such uses free. */
  lemma {:induction false} UsesAreFree(m: Model, p: Program, v: Valuation, v': Valuation, t: Times)
    requires Sized(p, t) && SameButUses(p, v, v')
    ensures ReadAxiom(m, p, v', t) <==> ReadAxiom(m, p, v, t)
  {
    forall s, r: nat | s in p.shared && Reads(p, s, r)
      ensures (exists w: nat :: ReadsFrom(m, p, v', t, s, r, w)) <==> (exists w: nat :: ReadsFrom(m, p, v, t, s, r, w))
    {
      forall w: nat ensures ReadsFrom(m, p, v', t, s, r, w) <==> ReadsFrom(m, p, v, t, s, r, w) {
        UseReadsFrom(m, p, v, v', t, s, r, w);
      }
    }
  }

  // ----- in a run of the store-buffer machine -----

  lemma {:induction false} LoadInRun(p: Program, v: Valuation, es: seq<SB.Event>, s: Var, r: nat) returns (w: nat)
    requires Wf(p) && SB.Run(p, v, es) && s in p.shared && LoadsFrom(p, s, r)
    ensures LoadsWord(p, v, s, r, w)
    ensures SB.IsEvent(p, SB.Exec(r))
    ensures v.rval(r, s) == SB.Lookup(p, v, SB.StateAt(p, v, es, SB.Pos(es, SB.Exec(r))), p.steps[r].core, Loc(s, v.raddr(r, s)))
  {
    assert Reads(p, s, r);
    TM.SourceIsVisible(p, v, es, s, r);
    TM.RunState(p, v, es, SB.Exec(r));
    w := TM.Source(p, v, es, SB.Pos(es, SB.Exec(r)), s, r);
  }

  lemma {:induction false} StateInRun(p: Program, v: Valuation, es: seq<SB.Event>, s: Var, r: nat) returns (w: nat)
    requires Wf(p) && SB.Run(p, v, es) && s in p.shared && ReadsState(p, s, r)
    ensures ReadsValue(p, v, s, r, w)
    ensures SB.IsEvent(p, SB.Exec(r))
    ensures v.rval(r, s) == SB.Lookup(p, v, SB.StateAt(p, v, es, SB.Pos(es, SB.Exec(r))), p.steps[r].core, Loc(s, 0))
  {
    TM.SourceIsVisible(p, v, es, s, r);
    TM.RunState(p, v, es, SB.Exec(r));
    w := TM.Source(p, v, es, SB.Pos(es, SB.Exec(r)), s, r);
  }

  /** The machine leaves such uses free too. */
  lemma {:induction false} UsesAreFreeInRun(p: Program, v: Valuation, v': Valuation, es: seq<SB.Event>)
    requires SameButUses(p, v, v')
    ensures SB.Run(p, v, es) ==> SB.Run(p, v', es)
  {
    if SB.Run(p, v, es) {
      forall k: nat | k < |es| ensures SB.EnabledAt(p, v', es, k) {
        assert SB.EnabledAt(p, v, es, k);
        StillEnabled(p, v, v', es, k);
      }
    }
  }

  lemma {:induction false} StillEnabled(p: Program, v: Valuation, v': Valuation, es: seq<SB.Event>, k: nat)
    requires SameButUses(p, v, v') && SB.Schedule(p, es) && k < |es| && SB.EnabledAt(p, v, es, k)
    ensures SB.EnabledAt(p, v', es, k)
  {
    SB.PosOf(p, es, k);
    SB.SameState(p, v, v', es, k);
    if es[k].Exec? {
      var i := es[k].i;
      forall s | s in p.shared && Observes(p, s, i)
        ensures v'.rval(i, s) == SB.Lookup(p, v', SB.StateAt(p, v', es, k), p.steps[i].core, ReadLoc(p, v', s, i))
      {
        SB.SameLookup(p, v, v', es, k, p.steps[i].core, ReadLoc(p, v, s, i));
      }
    }
  }

  // ----- in a sequential run -----

  lemma {:induction false} LoadInScRun(p: Program, v: Valuation, cs: Sq.Cores, os: seq<nat>, s: Var, k: nat) returns (w: nat)
    requires Wf(p) && Sq.WfCores(p, cs) && Sq.ScRun(p, v, cs, os) && k < |os| && s in p.shared && LoadsFrom(p, s, os[k])
    ensures LoadsWord(p, v, s, os[k], w)
    ensures v.rval(os[k], s) == Sq.MemAt(p, v, os, k)(Loc(s, v.raddr(os[k], s)))
  {
    assert Reads(p, s, os[k]);
    Sq.MemIsLastWrite(p, v, os, k, s, os[k]);
    Sq.LastWriteSpec(p, v, os, k, s, os[k]);
    w := Sq.LastWrite(p, v, os, k, s, os[k]);
  }

  lemma {:induction false} StateInScRun(p: Program, v: Valuation, cs: Sq.Cores, os: seq<nat>, s: Var, k: nat) returns (w: nat)
    requires Wf(p) && Sq.WfCores(p, cs) && Sq.ScRun(p, v, cs, os) && k < |os| && s in p.shared && ReadsState(p, s, os[k])
    ensures ReadsValue(p, v, s, os[k], w)
    ensures v.rval(os[k], s) == Sq.MemAt(p, v, os, k)(Loc(s, 0))
  {
    Sq.MemIsLastWrite(p, v, os, k, s, os[k]);
    Sq.LastWriteSpec(p, v, os, k, s, os[k]);
    w := Sq.LastWrite(p, v, os, k, s, os[k]);
  }

  lemma {:induction false} UsesAreFreeInScRun(p: Program, v: Valuation, v': Valuation, os: seq<nat>)
    requires SameButUses(p, v, v') && IsTrace(p, os)
    ensures Sq.SharedReadsOk(p, v, os) ==> Sq.SharedReadsOk(p, v', os)
  {
    if Sq.SharedReadsOk(p, v, os) {
      forall k: nat, s | k < |os| && s in p.shared && Observes(p, s, os[k])
        ensures v'.rval(os[k], s) == Sq.MemAt(p, v', os, k)(ReadLoc(p, v', s, os[k]))
      {
        SameMem(p, v, v', os, k, ReadLoc(p, v, s, os[k]));
      }
    }
  }

  lemma {:induction false} SameMem(p: Program, v: Valuation, v': Valuation, os: seq<nat>, k: nat, l: Loc)
    requires SameButUses(p, v, v') && k <= |os|
    ensures Sq.MemAt(p, v', os, k)(l) == Sq.MemAt(p, v, os, k)(l)
  {
    if k > 0 {
      SameMem(p, v, v', os, k - 1, l);
    }
  }
}
