/** Sequential consistency: the SC axioms with the ordered local-state constraints are the runs
    of the steps one by one on a single memory holding shared and private state. */
module Sequential {
  import opened Traces
  import opened LocalState

  ghost predicate ScAxioms(p: Program, v: Valuation, t: Times) {
    Sized(p, t) && Positive(SC, p, t) && ReadAxiom(SC, p, v, t)
  }

  /** The per-core traces and private states the model keeps beside the program. */
  datatype Cores = Cores(traces: map<nat, seq<nat>>, privs: map<nat, set<Var>>)

  /** The trace lists the core's steps in program order. */
  ghost predicate TraceOf(p: Program, c: nat, tr: seq<nat>) {
    && IsTrace(p, tr)
    && (forall i: nat :: InRange(p, i) && p.steps[i].core == c ==> i in tr)
    && (forall k :: 0 <= k < |tr| ==> p.steps[tr[k]].core == c)
    && (forall j, k :: 0 <= j < k < |tr| ==> Po(p, tr[j], tr[k]))
  }

  /** A private state is updated on one core only. */
  ghost predicate Owns(p: Program, c: nat, s: Var) {
    s !in p.shared && forall i: nat :: Updates(p, s, i) ==> p.steps[i].core == c
  }

  ghost predicate WfCores(p: Program, cs: Cores) {
    && cs.traces.Keys == cs.privs.Keys
    && (forall c :: c in cs.traces ==> TraceOf(p, c, cs.traces[c]))
    && (forall c, s :: c in cs.traces && s in cs.privs[c] ==> Owns(p, c, s))
  }

  ghost predicate LocalConstraints(p: Program, v: Valuation, cs: Cores)
    requires WfCores(p, cs)
  {
    forall c :: c in cs.traces ==> OrderedLocal(p, v, cs.traces[c], cs.privs[c])
  }

  ghost predicate Keeps(p: Program, v: Valuation, cs: Cores)
    requires WfCores(p, cs)
  {
    forall c :: c in cs.traces ==> KeepsUndecoded(p, v.decode, cs.traces[c], cs.privs[c])
  }

  // ----- the machine -----

  predicate WritesCell(p: Program, v: Valuation, i: nat, l: Loc) {
    Updates(p, l.s, i) && v.decode(i) && (if l.s in p.shared then WriteLoc(p, v, l.s, i) == l else l.a == 0)
  }

  function MemAt(p: Program, v: Valuation, os: seq<nat>, k: nat): Loc -> int
    requires k <= |os|
  {
    if k == 0 then (l: Loc) => v.init(l.s, l.a)
    else
      var before := MemAt(p, v, os, k - 1);
      (l: Loc) => if WritesCell(p, v, os[k - 1], l) then v.wval(os[k - 1], l.s) else before(l)
  }

  /** All steps, once each, in an order that respects program order. */
  ghost predicate Interleaving(p: Program, os: seq<nat>) {
    && IsTrace(p, os)
    && (forall i: nat :: InRange(p, i) ==> i in os)
    && (forall j, k :: 0 <= j < k < |os| ==> !Po(p, os[k], os[j]))
  }

  ghost predicate SharedReadsOk(p: Program, v: Valuation, os: seq<nat>) {
    forall k: nat, s :: k < |os| && s in p.shared && Observes(p, s, os[k]) ==>
      v.rval(os[k], s) == MemAt(p, v, os, k)(ReadLoc(p, v, s, os[k]))
  }

  /** Private reads and final values of one core's states are what the memory holds. */
  ghost predicate CoreAgrees(p: Program, v: Valuation, c: nat, privs: set<Var>, os: seq<nat>)
    requires IsTrace(p, os)
  {
    && (forall k: nat, s :: k < |os| && p.steps[os[k]].core == c && s in privs && Reads(p, s, os[k]) ==>
          v.rval(os[k], s) == MemAt(p, v, os, k)(Loc(s, 0)))
    && (forall s :: s in privs ==> v.fin(s) == MemAt(p, v, os, |os|)(Loc(s, 0)))
  }

  ghost predicate PrivateReadsOk(p: Program, v: Valuation, cs: Cores, os: seq<nat>)
    requires WfCores(p, cs) && IsTrace(p, os)
  {
    forall c :: c in cs.traces ==> CoreAgrees(p, v, c, cs.privs[c], os)
  }

  ghost predicate ScRun(p: Program, v: Valuation, cs: Cores, os: seq<nat>)
    requires WfCores(p, cs)
  {
    Interleaving(p, os) && SharedReadsOk(p, v, os) && PrivateReadsOk(p, v, cs, os)
  }

  // ----- shared state -----

  predicate Hits(p: Program, v: Valuation, s: Var, r: nat, w: nat) {
    InRange(p, w) && Writes(p, s, w) && v.decode(w) && SameAddress(p, v, s, w, r)
  }

  /** The last matching write among the first `k` steps, 0 for the initial memory. */
  function LastWrite(p: Program, v: Valuation, os: seq<nat>, k: nat, s: Var, r: nat): nat
    requires k <= |os|
  {
    if k == 0 then 0
    else if Hits(p, v, s, r, os[k - 1]) then os[k - 1]
    else LastWrite(p, v, os, k - 1, s, r)
  }

  lemma {:induction false} LastWriteSpec(p: Program, v: Valuation, os: seq<nat>, k: nat, s: Var, r: nat)
    requires IsTrace(p, os) && k <= |os|
    ensures var w := LastWrite(p, v, os, k, s, r);
            && (w != 0 ==> Hits(p, v, s, r, w) && w in os && Index(os, w) < k)
            && forall j: nat :: j < k && Hits(p, v, s, r, os[j]) ==> w != 0 && j <= Index(os, w)
  {
    if k > 0 {
      LastWriteSpec(p, v, os, k - 1, s, r);
      assert Index(os, os[k - 1]) == k - 1;
    }
  }

  lemma {:induction false} MemIsLastWrite(p: Program, v: Valuation, os: seq<nat>, k: nat, s: Var, r: nat)
    requires Wf(p) && IsTrace(p, os) && k <= |os| && s in p.shared && Observes(p, s, r)
    ensures MemAt(p, v, os, k)(ReadLoc(p, v, s, r)) == Written(v, LastWrite(p, v, os, k, s, r), ReadLoc(p, v, s, r))
  {
    if k > 0 {
      MemIsLastWrite(p, v, os, k - 1, s, r);
    }
  }

  /** The order extends the timestamps; ties in any order. */
  ghost predicate Extends(p: Program, t: Times, os: seq<nat>) {
    && Sized(p, t) && IsTrace(p, os) && (forall i: nat :: InRange(p, i) ==> i in os)
    && forall j, k :: 0 <= j < |os| && 0 <= k < |os| && t.ts[os[j]] < t.ts[os[k]] ==> j < k
  }

  lemma {:induction false} ReadIsLastWrite(p: Program, v: Valuation, t: Times, os: seq<nat>, k: nat, s: Var, w: nat)
    requires Wf(p) && ScAxioms(p, v, t) && Extends(p, t, os) && k < |os| && s in p.shared
    requires Reads(p, s, os[k]) && ReadsFrom(SC, p, v, t, s, os[k], w)
    ensures w == LastWrite(p, v, os, k, s, os[k])
  {
    var r := os[k];
    LastWriteSpec(p, v, os, k, s, r);
    var l := LastWrite(p, v, os, k, s, r);
    assert NotBetween(SC, p, v, t, s, r, w, l);
    if w != 0 { assert os[Index(os, w)] == w; }
    if l != 0 { assert os[Index(os, l)] == l; }
  }

  lemma {:induction false} SharedReadsFollow(p: Program, v: Valuation, t: Times, os: seq<nat>)
    requires Wf(p) && ScAxioms(p, v, t) && Extends(p, t, os)
    ensures SharedReadsOk(p, v, os)
  {
    forall k: nat, s | k < |os| && s in p.shared && Observes(p, s, os[k])
      ensures v.rval(os[k], s) == MemAt(p, v, os, k)(ReadLoc(p, v, s, os[k]))
    {
      var w: nat :| ReadsFrom(SC, p, v, t, s, os[k], w);
      ReadIsLastWrite(p, v, t, os, k, s, w);
      MemIsLastWrite(p, v, os, k, s, os[k]);
      LastWriteSpec(p, v, os, k, s, os[k]);
    }
  }

  /** Timestamps that follow the order strictly. */
  ghost predicate Follows(p: Program, t: Times, os: seq<nat>) {
    && Sized(p, t) && IsTrace(p, os) && (forall i: nat :: InRange(p, i) ==> i in os)
    && (forall j, k :: 0 <= j < k < |os| ==> t.ts[os[j]] < t.ts[os[k]])
    && (forall k :: 0 <= k < |os| ==> t.ts[os[k]] > 0)
  }

  lemma {:induction false} RunReads(p: Program, v: Valuation, t: Times, os: seq<nat>, s: Var, k: nat)
    requires Wf(p) && Follows(p, t, os) && SharedReadsOk(p, v, os)
    requires k < |os| && s in p.shared && Reads(p, s, os[k])
    ensures ReadsFrom(SC, p, v, t, s, os[k], LastWrite(p, v, os, k, s, os[k]))
  {
    var r := os[k];
    var w := LastWrite(p, v, os, k, s, r);
    LastWriteSpec(p, v, os, k, s, r);
    if Observes(p, s, r) { MemIsLastWrite(p, v, os, k, s, r); }
    forall x: nat ensures NotBetween(SC, p, v, t, s, r, w, x) {
      if InRange(p, x) { assert os[Index(os, x)] == x; }
    }
  }

  lemma {:induction false} RunGivesScAxioms(p: Program, v: Valuation, t: Times, os: seq<nat>)
    requires Wf(p) && Follows(p, t, os) && SharedReadsOk(p, v, os)
    ensures ScAxioms(p, v, t)
  {
    forall i: nat | InRange(p, i) ensures t.ts[i] > 0 {
      assert os[Index(os, i)] == i;
    }
    forall s, r: nat | s in p.shared && Reads(p, s, r) ensures exists w: nat :: ReadsFrom(SC, p, v, t, s, r, w) {
      assert os[Index(os, r)] == r;
      RunReads(p, v, t, os, s, Index(os, r));
    }
  }

  // ----- private state -----

  /** How many of the first `k` steps are on core `c`. */
  function Count(p: Program, os: seq<nat>, k: nat, c: nat): nat
    requires IsTrace(p, os) && k <= |os|
  {
    if k == 0 then 0 else Count(p, os, k - 1, c) + if p.steps[os[k - 1]].core == c then 1 else 0
  }

  /** After `k` steps of an interleaving, a prefix of the core's trace has been taken. */
  ghost predicate PrefixTaken(p: Program, c: nat, tr: seq<nat>, os: seq<nat>, k: nat)
    requires IsTrace(p, os) && k <= |os|
  {
    && Count(p, os, k, c) <= |tr|
    && forall a: nat :: a < |tr| ==> (Index(os, tr[a]) < k <==> a < Count(p, os, k, c))
  }

  lemma {:induction false} NextOnCore(p: Program, c: nat, tr: seq<nat>, os: seq<nat>, k: nat)
    requires TraceOf(p, c, tr) && Interleaving(p, os) && k < |os| && PrefixTaken(p, c, tr, os, k)
    requires p.steps[os[k]].core == c
    ensures Count(p, os, k, c) < |tr| && tr[Count(p, os, k, c)] == os[k]
  {
    var n := Count(p, os, k, c);
    var a := Index(tr, os[k]);
    assert tr[a] == os[k] && n <= a;
    assert tr[n] in os && os[Index(os, tr[n])] == tr[n];
  }

  /** An interleaving takes each core's steps in the order of its trace. */
  lemma {:induction false} CoreStepsInOrder(p: Program, c: nat, tr: seq<nat>, os: seq<nat>, k: nat)
    requires TraceOf(p, c, tr) && Interleaving(p, os) && k <= |os|
    ensures PrefixTaken(p, c, tr, os, k)
  {
    if k > 0 {
      CoreStepsInOrder(p, c, tr, os, k - 1);
      if p.steps[os[k - 1]].core == c {
        NextOnCore(p, c, tr, os, k - 1);
      }
      forall a: nat | a < |tr| ensures Index(os, tr[a]) < k <==> a < Count(p, os, k, c) {
        assert InRange(p, tr[a]) && tr[a] in os;
        assert os[Index(os, tr[a])] == tr[a];
      }
    }
  }

  lemma {:induction false} StepTaken(p: Program, c: nat, tr: seq<nat>, os: seq<nat>, k: nat)
    requires TraceOf(p, c, tr) && Interleaving(p, os) && k < |os| && p.steps[os[k]].core == c
    ensures Count(p, os, k, c) < |tr| && tr[Count(p, os, k, c)] == os[k]
  {
    CoreStepsInOrder(p, c, tr, os, k);
    NextOnCore(p, c, tr, os, k);
  }

  /** The private cells hold what the owning core's own run holds. */
  lemma {:induction false} PrivateCell(p: Program, v: Valuation, c: nat, tr: seq<nat>, os: seq<nat>, k: nat, s: Var)
    requires TraceOf(p, c, tr) && Owns(p, c, s) && Interleaving(p, os) && k <= |os|
    ensures Count(p, os, k, c) <= |tr|
    ensures MemAt(p, v, os, k)(Loc(s, 0)) == SeqVal(p, v, tr, Count(p, os, k, c), s)
  {
    if k > 0 {
      PrivateCell(p, v, c, tr, os, k - 1, s);
      if p.steps[os[k - 1]].core == c {
        StepTaken(p, c, tr, os, k - 1);
      }
      assert WritesCell(p, v, os[k - 1], Loc(s, 0)) <==> Updates(p, s, os[k - 1]) && v.decode(os[k - 1]);
    }
  }

  lemma {:induction false} AllCounted(p: Program, c: nat, tr: seq<nat>, os: seq<nat>)
    requires TraceOf(p, c, tr) && Interleaving(p, os)
    ensures Count(p, os, |os|, c) == |tr|
  {
    CoreStepsInOrder(p, c, tr, os, |os|);
    assert |tr| > 0 ==> tr[|tr| - 1] in os;
  }

  lemma {:induction false} CountOf(p: Program, c: nat, tr: seq<nat>, os: seq<nat>, a: nat)
    requires TraceOf(p, c, tr) && Interleaving(p, os) && a < |tr|
    ensures tr[a] in os && Count(p, os, Index(os, tr[a]), c) == a
  {
    assert InRange(p, tr[a]) && tr[a] in os;
    StepTaken(p, c, tr, os, Index(os, tr[a]));
  }

  lemma {:induction false} CoreIsLocal(p: Program, v: Valuation, c: nat, tr: seq<nat>, privs: set<Var>, os: seq<nat>)
    requires TraceOf(p, c, tr) && Interleaving(p, os) && forall s :: s in privs ==> Owns(p, c, s)
    ensures CoreAgrees(p, v, c, privs, os) <==> LocalRun(p, v, tr, privs)
  {
    AllCounted(p, c, tr, os);
    forall s | s in privs ensures MemAt(p, v, os, |os|)(Loc(s, 0)) == SeqVal(p, v, tr, |tr|, s) {
      PrivateCell(p, v, c, tr, os, |os|, s);
    }
    if CoreAgrees(p, v, c, privs, os) {
      forall a: nat, s | a < |tr| && s in privs && Reads(p, s, tr[a]) ensures v.rval(tr[a], s) == SeqVal(p, v, tr, a, s) {
        CountOf(p, c, tr, os, a);
        PrivateCell(p, v, c, tr, os, Index(os, tr[a]), s);
        assert os[Index(os, tr[a])] == tr[a];
      }
    }
    if LocalRun(p, v, tr, privs) {
      forall k: nat, s | k < |os| && p.steps[os[k]].core == c && s in privs && Reads(p, s, os[k])
        ensures v.rval(os[k], s) == MemAt(p, v, os, k)(Loc(s, 0))
      {
        StepTaken(p, c, tr, os, k);
        PrivateCell(p, v, c, tr, os, k, s);
      }
    }
  }

  /** Private reads and final values agree with the memory of the interleaving exactly when each
      core, run on its own, gives them. */
  lemma {:induction false} PrivateIsLocal(p: Program, v: Valuation, cs: Cores, os: seq<nat>)
    requires WfCores(p, cs) && Interleaving(p, os)
    ensures PrivateReadsOk(p, v, cs, os) <==>
              forall c :: c in cs.traces ==> LocalRun(p, v, cs.traces[c], cs.privs[c])
  {
    forall c | c in cs.traces
      ensures CoreAgrees(p, v, c, cs.privs[c], os) <==> LocalRun(p, v, cs.traces[c], cs.privs[c])
    {
      CoreIsLocal(p, v, c, cs.traces[c], cs.privs[c], os);
    }
  }

  // ----- the two directions -----

  /** A solution of the SC axioms and the ordered local-state constraints is a run of the steps
      one by one, along any order that extends its timestamps. */
  lemma {:induction false} SolutionIsScRun(p: Program, v: Valuation, t: Times, cs: Cores, os: seq<nat>)
    requires Wf(p) && WfCores(p, cs) && Keeps(p, v, cs)
    requires ScAxioms(p, v, t) && Ordered(p, t) && LocalConstraints(p, v, cs)
    requires Extends(p, t, os)
    ensures ScRun(p, v, cs, os)
  {
    forall j, k | 0 <= j < k < |os| ensures !Po(p, os[k], os[j]) {
      assert !(t.ts[os[k]] < t.ts[os[j]]);
    }
    SharedReadsFollow(p, v, t, os);
    forall c | c in cs.traces ensures LocalRun(p, v, cs.traces[c], cs.privs[c]) {
      OrderedIsRun(p, v, cs.traces[c], cs.privs[c]);
    }
    PrivateIsLocal(p, v, cs, os);
  }

  /** Every run of the steps one by one is a solution, under any timestamps that follow it. */
  lemma {:induction false} ScRunIsSolution(p: Program, v: Valuation, t: Times, cs: Cores, os: seq<nat>)
    requires Wf(p) && WfCores(p, cs) && Keeps(p, v, cs)
    requires ScRun(p, v, cs, os) && Follows(p, t, os)
    ensures ScAxioms(p, v, t) && Ordered(p, t) && LocalConstraints(p, v, cs)
  {
    RunGivesScAxioms(p, v, t, os);
    forall i: nat, j: nat | Po(p, i, j) ensures t.ts[i] < t.ts[j] {
      assert os[Index(os, i)] == i && os[Index(os, j)] == j;
    }
    PrivateIsLocal(p, v, cs, os);
    forall c | c in cs.traces ensures OrderedLocal(p, v, cs.traces[c], cs.privs[c]) {
      OrderedIsRun(p, v, cs.traces[c], cs.privs[c]);
    }
  }

  // ----- behaviours: times and interleavings hidden -----

  ghost predicate ByTime(p: Program, t: Times, os: seq<nat>) {
    Sized(p, t) && IsTrace(p, os) && forall j, k :: 0 <= j < k < |os| ==> t.ts[os[j]] <= t.ts[os[k]]
  }

  lemma {:induction false} Insert(p: Program, t: Times, os: seq<nat>, i: nat) returns (r: seq<nat>)
    requires ByTime(p, t, os) && InRange(p, i) && i !in os
    ensures ByTime(p, t, r)
    ensures forall x :: x in r <==> x in os || x == i
  {
    if os == [] || t.ts[i] <= t.ts[os[0]] {
      r := [i] + os;
    } else {
      assert ByTime(p, t, os[1..]);
      assert forall x :: x in os <==> x == os[0] || x in os[1..];
      var rest := Insert(p, t, os[1..], i);
      r := [os[0]] + rest;
      forall j, k | 0 <= j < k < |r| ensures r[j] != r[k] && t.ts[r[j]] <= t.ts[r[k]] {
        assert r[k] == rest[k - 1] && r[k] in rest;
        if r[k] in os[1..] {
          var m :| 0 <= m < |os[1..]| && os[1..][m] == r[k];
          assert os[1..][m] == os[m + 1];
        }
      }
    }
  }

  lemma {:induction false} SortSteps(p: Program, t: Times, n: nat) returns (os: seq<nat>)
    requires Sized(p, t) && 1 <= n <= |p.steps|
    ensures ByTime(p, t, os) && forall i :: i in os <==> 1 <= i < n
  {
    if n == 1 {
      os := [];
    } else {
      os := SortSteps(p, t, n - 1);
      os := Insert(p, t, os, n - 1);
    }
  }

  /** Some interleaving extends any timestamps. */
  lemma {:induction false} InterleavingExists(p: Program, t: Times) returns (os: seq<nat>)
    requires Wf(p) && Sized(p, t)
    ensures Extends(p, t, os)
  {
    os := SortSteps(p, t, |p.steps|);
  }

  /** The timestamps that count positions in an interleaving. */
  ghost function Clock(p: Program, os: seq<nat>): (t: Times)
    ensures Sized(p, t)
  {
    Times(seq(|p.steps|, (i: nat) => Index(os, i) + 1), seq(|p.steps|, (i: nat) => 0))
  }

  lemma {:induction false} ClockFollows(p: Program, os: seq<nat>)
    requires Interleaving(p, os)
    ensures Follows(p, Clock(p, os), os)
  {
    forall k | 0 <= k < |os| ensures Clock(p, os).ts[os[k]] == k + 1 {
      assert os[Index(os, os[k])] == os[k];
    }
  }

  ghost predicate AxiomBehaviour(p: Program, v: Valuation, cs: Cores)
    requires WfCores(p, cs)
  {
    LocalConstraints(p, v, cs) && exists t :: ScAxioms(p, v, t) && Ordered(p, t)
  }

  ghost predicate MachineBehaviour(p: Program, v: Valuation, cs: Cores)
    requires WfCores(p, cs)
  {
    exists os :: ScRun(p, v, cs, os)
  }

  /** The SC axioms with ordered cores and local states describe exactly the sequential machine. */
  lemma {:induction false} ScIsSequential(p: Program, v: Valuation, cs: Cores)
    requires Wf(p) && WfCores(p, cs) && Keeps(p, v, cs)
    ensures AxiomBehaviour(p, v, cs) <==> MachineBehaviour(p, v, cs)
  {
    if AxiomBehaviour(p, v, cs) {
      var t :| ScAxioms(p, v, t) && Ordered(p, t);
      var os := InterleavingExists(p, t);
      SolutionIsScRun(p, v, t, cs, os);
    }
    if MachineBehaviour(p, v, cs) {
      var os :| ScRun(p, v, cs, os);
      ClockFollows(p, os);
      ScRunIsSolution(p, v, Clock(p, os), cs, os);
    }
  }
}
