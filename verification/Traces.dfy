/** Trace steps of a multi-core program, the values and timestamps a solution of the
    constraints gives them, and the read axiom shared by the two memory models.

    Steps are numbered; step 0 is the global initial step, which writes every shared state
    at time 0 and is its own global facet. */
module Traces {

  type Var = string

  datatype Kind = Init | Plain | Fence | Rmw | Final

  /** One trace step as the program fixes it.  `loads` are the memory states for which the
      instruction contains a LOAD; a STORE alone puts its memory in `uses` but not in `loads`. */
  datatype Step = Step(kind: Kind, core: nat, pos: nat, uses: set<Var>, loads: set<Var>, updates: set<Var>)

  datatype Program = Program(steps: seq<Step>, shared: seq<Var>, mems: set<Var>)

  /** What a solution assigns to the expressions of the steps: decode, and for each state the
      address and value read and written.  `init` is the state before the first step, `fin` the
      private state after the last. */
  datatype Valuation = Valuation(
    decode: nat -> bool,
    raddr: (nat, Var) -> int,
    rval: (nat, Var) -> int,
    waddr: (nat, Var) -> int,
    wval: (nat, Var) -> int,
    init: (Var, int) -> int,
    fin: Var -> int)

  /** The timestamp of each step and of its global facet. */
  datatype Times = Times(ts: seq<int>, gts: seq<int>)

  datatype Model = SC | TSO

  predicate InRange(p: Program, i: nat) {
    1 <= i < |p.steps|
  }

  predicate SharedWriter(p: Program, i: nat) {
    i < |p.steps| && exists s :: s in p.shared && s in p.steps[i].updates
  }

  /** The shape every registered program has: one initial step writing all shared states on a
      core of its own (shared only with a final step), distinct positions on a core, LOADs only
      of memory states, read-modify-writes that do write, and a final step that writes nothing. */
  ghost predicate Wf(p: Program) {
    && |p.steps| > 0
    && p.steps[0].kind == Init
    && (forall s :: s in p.shared ==> s in p.steps[0].updates)
    && (forall i: nat :: InRange(p, i) ==>
          && p.steps[i].kind != Init
          && p.steps[i].loads <= p.steps[i].uses * p.mems
          && (p.steps[i].kind == Rmw ==> SharedWriter(p, i))
          && (p.steps[i].kind == Final ==> p.steps[i].updates == {})
          && (p.steps[i].kind == Final <==> p.steps[i].core == p.steps[0].core))
    && (forall i: nat, j: nat :: (InRange(p, i) && InRange(p, j) && i != j && p.steps[i].core == p.steps[j].core) ==>
          p.steps[i].pos != p.steps[j].pos)
  }

  predicate Sized(p: Program, t: Times) {
    |t.ts| == |t.gts| == |p.steps|
  }

  function Stamp(p: Program, t: Times, i: nat): int
    requires Sized(p, t) && i < |p.steps|
  {
    if i == 0 then 0 else t.ts[i]
  }

  function Global(p: Program, t: Times, i: nat): int
    requires Sized(p, t) && i < |p.steps|
  {
    if i == 0 then 0 else t.gts[i]
  }

  predicate SameCore(p: Program, i: nat, j: nat)
    requires i < |p.steps| && j < |p.steps|
  {
    p.steps[i].core == p.steps[j].core
  }

  predicate Writes(p: Program, s: Var, i: nat) {
    i < |p.steps| && s in p.steps[i].updates
  }

  predicate Reads(p: Program, s: Var, i: nat) {
    InRange(p, i) && s in p.steps[i].uses
  }

  /** Only these reads see a value: a read of a memory without a LOAD matches any address. */
  predicate Observes(p: Program, s: Var, r: nat) {
    Reads(p, s, r) && (s in p.mems ==> s in p.steps[r].loads)
  }

  predicate Decoded(v: Valuation, i: nat) {
    i == 0 || v.decode(i)
  }

  predicate SameAddress(p: Program, v: Valuation, s: Var, w: nat, r: nat) {
    s in p.mems && w != 0 && Observes(p, s, r) ==> v.waddr(w, s) == v.raddr(r, s)
  }

  predicate SameData(p: Program, v: Valuation, s: Var, w: nat, r: nat) {
    if s !in p.mems then
      (if w == 0 then v.init(s, 0) else v.wval(w, s)) == v.rval(r, s)
    else if !Observes(p, s, r) then
      true
    else if w == 0 then
      v.init(s, v.raddr(r, s)) == v.rval(r, s)
    else
      v.waddr(w, s) == v.raddr(r, s) ==> v.wval(w, s) == v.rval(r, s)
  }

  // ----- the three relations the axioms are built from -----

  predicate Rf(m: Model, p: Program, t: Times, w: nat, r: nat)
    requires Sized(p, t) && w < |p.steps| && r < |p.steps|
  {
    if m == SC || SameCore(p, w, r) then Stamp(p, t, w) < Stamp(p, t, r) else Global(p, t, w) < Stamp(p, t, r)
  }

  predicate Fr(m: Model, p: Program, t: Times, r: nat, w: nat)
    requires Sized(p, t) && w < |p.steps| && r < |p.steps|
  {
    if m == SC || SameCore(p, r, w) then Stamp(p, t, r) < Stamp(p, t, w) else Stamp(p, t, r) < Global(p, t, w)
  }

  predicate Co(m: Model, p: Program, t: Times, w1: nat, w2: nat)
    requires Sized(p, t) && w1 < |p.steps| && w2 < |p.steps|
  {
    if m == SC || SameCore(p, w1, w2) then Stamp(p, t, w1) < Stamp(p, t, w2) else Global(p, t, w1) < Global(p, t, w2)
  }

  /** No other decoded write `w2` to the address comes between `w` and the read `r`. */
  ghost predicate NotBetween(m: Model, p: Program, v: Valuation, t: Times, s: Var, r: nat, w: nat, w2: nat)
    requires Sized(p, t) && w < |p.steps| && r < |p.steps|
  {
    Writes(p, s, w2) && w2 != w && w2 != r && SameAddress(p, v, s, w2, r) && Decoded(v, w2) ==>
      Co(m, p, t, w2, w) || Fr(m, p, t, r, w2)
  }

  ghost predicate ReadsFrom(m: Model, p: Program, v: Valuation, t: Times, s: Var, r: nat, w: nat)
    requires Sized(p, t) && r < |p.steps|
  {
    && Writes(p, s, w) && w != r
    && SameAddress(p, v, s, w, r) && SameData(p, v, s, w, r) && Decoded(v, w)
    && Rf(m, p, t, w, r)
    && forall w2: nat :: NotBetween(m, p, v, t, s, r, w, w2)
  }

  /** RF_CO_FR: every read of every shared state reads from some write. */
  ghost predicate ReadAxiom(m: Model, p: Program, v: Valuation, t: Times)
    requires Sized(p, t)
  {
    forall s, r: nat :: s in p.shared && Reads(p, s, r) ==> exists w: nat :: ReadsFrom(m, p, v, t, s, r, w)
  }

  /** The bounds the step constructors add: every step, and every facet of a shared write,
      comes after time 0. */
  ghost predicate Positive(m: Model, p: Program, t: Times)
    requires Sized(p, t)
  {
    forall i: nat :: InRange(p, i) ==> t.ts[i] > 0 && (m == TSO && SharedWriter(p, i) ==> t.gts[i] > 0)
  }

  // ----- program order -----

  /** Program order on each core; a final step comes after every other step. */
  predicate Po(p: Program, i: nat, j: nat) {
    && InRange(p, i) && InRange(p, j)
    && ((SameCore(p, i, j) && p.steps[i].pos < p.steps[j].pos)
        || (p.steps[j].kind == Final && p.steps[i].kind != Final))
  }

  ghost predicate Ordered(p: Program, t: Times)
    requires Sized(p, t)
  {
    forall i: nat, j: nat :: Po(p, i, j) ==> t.ts[i] < t.ts[j]
  }

  // ----- locations -----

  datatype Loc = Loc(s: Var, a: int)

  /** A state that is not a memory is a single location. */
  function ReadLoc(p: Program, v: Valuation, s: Var, r: nat): Loc {
    Loc(s, if s in p.mems then v.raddr(r, s) else 0)
  }

  function WriteLoc(p: Program, v: Valuation, s: Var, w: nat): Loc {
    Loc(s, if s in p.mems then v.waddr(w, s) else 0)
  }

  predicate WritesLoc(p: Program, v: Valuation, w: nat, l: Loc) {
    InRange(p, w) && Writes(p, l.s, w) && v.decode(w) && WriteLoc(p, v, l.s, w) == l
  }

  /** The value write `w` leaves at `l`; step 0 stands for the initial memory. */
  function Written(v: Valuation, w: nat, l: Loc): int {
    if w == 0 then v.init(l.s, l.a) else v.wval(w, l.s)
  }
}
