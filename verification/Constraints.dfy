/** The constraints the memory models collect, and what it means for values and timestamps to
    satisfy them. */
module Constraints {
  import opened Traces

  datatype Clock = StampOf(i: nat) | FacetOf(i: nat)

  /** Values of private states: at a step, at the end, the update of a step, and
      ITE(decode, update, state) at a step.  Step 0 gives the initial value. */
  datatype Term = StateAt(i: nat, s: Var) | FinalState(s: Var) | UpdateOf(i: nat, s: Var) | Conditional(i: nat, s: Var)

  datatype Constr =
    | Truth(value: bool)
    | After0(c: Clock)
    | Before(a: Clock, b: Clock)
    | Sync(a: Clock, b: Clock)
    | AddressMatch(s: Var, writer: nat, reader: nat)
    | DataMatch(s: Var, writer: nat, reader: nat)
    | DecodeOf(i: nat)
    | Equal(x: Term, y: Term)
    | And(l: Constr, r: Constr)
    | Or(l: Constr, r: Constr)
    | Implies(l: Constr, r: Constr)

  function ClockValue(p: Program, t: Times, c: Clock): int
    requires Sized(p, t)
  {
    if c.i >= |p.steps| then 0
    else if c.StampOf? then Stamp(p, t, c.i) else Global(p, t, c.i)
  }

  function TermValue(v: Valuation, x: Term): int {
    match x
    case StateAt(i, s) => v.rval(i, s)
    case FinalState(s) => v.fin(s)
    case UpdateOf(i, s) => if i == 0 then v.init(s, 0) else v.wval(i, s)
    case Conditional(i, s) => if i == 0 then v.init(s, 0) else if v.decode(i) then v.wval(i, s) else v.rval(i, s)
  }

  predicate Holds(p: Program, v: Valuation, t: Times, c: Constr)
    requires Sized(p, t)
  {
    match c
    case Truth(b) => b
    case After0(c) => ClockValue(p, t, c) > 0
    case Before(a, b) => ClockValue(p, t, a) < ClockValue(p, t, b)
    case Sync(a, b) => ClockValue(p, t, a) == ClockValue(p, t, b)
    case AddressMatch(s, w, r) => SameAddress(p, v, s, w, r)
    case DataMatch(s, w, r) => SameData(p, v, s, w, r)
    case DecodeOf(i) => Decoded(v, i)
    case Equal(x, y) => TermValue(v, x) == TermValue(v, y)
    case And(l, r) => Holds(p, v, t, l) && Holds(p, v, t, r)
    case Or(l, r) => Holds(p, v, t, l) || Holds(p, v, t, r)
    case Implies(l, r) => Holds(p, v, t, l) ==> Holds(p, v, t, r)
  }

  ghost predicate AllHold(p: Program, v: Valuation, t: Times, cs: seq<Constr>)
    requires Sized(p, t)
  {
    forall k :: 0 <= k < |cs| ==> Holds(p, v, t, cs[k])
  }

  ghost predicate AnyHolds(p: Program, v: Valuation, t: Times, cs: seq<Constr>)
    requires Sized(p, t)
  {
    exists k :: 0 <= k < |cs| && Holds(p, v, t, cs[k])
  }

  /** The conjunction of a list, true when it is empty. */
  method ForallList(l: seq<Constr>) returns (ret: Constr)
    ensures forall p, v, t :: Sized(p, t) ==> (Holds(p, v, t, ret) <==> AllHold(p, v, t, l))
  {
    if |l| == 0 {
      return Truth(true);
    }
    ret := l[0];
    for i := 1 to |l|
      invariant forall p, v, t :: Sized(p, t) ==> (Holds(p, v, t, ret) <==> AllHold(p, v, t, l[..i]))
    {
      assert l[..i + 1] == l[..i] + [l[i]];
      ret := And(ret, l[i]);
    }
    assert l[..|l|] == l;
  }

  /** The disjunction of a list, false when it is empty. */
  method ExistsList(l: seq<Constr>) returns (ret: Constr)
    ensures forall p, v, t :: Sized(p, t) ==> (Holds(p, v, t, ret) <==> AnyHolds(p, v, t, l))
  {
    if |l| == 0 {
      return Truth(false);
    }
    ret := l[0];
    for i := 1 to |l|
      invariant forall p, v, t :: Sized(p, t) ==> (Holds(p, v, t, ret) <==> AnyHolds(p, v, t, l[..i]))
    {
      assert l[..i + 1] == l[..i] + [l[i]];
      ret := Or(ret, l[i]);
    }
    assert l[..|l|] == l;
  }

  lemma {:induction false} AllHoldAppend(p: Program, v: Valuation, t: Times, cs: seq<Constr>, ds: seq<Constr>)
    requires Sized(p, t)
    ensures AllHold(p, v, t, cs + ds) <==> AllHold(p, v, t, cs) && AllHold(p, v, t, ds)
  {
    if AllHold(p, v, t, cs + ds) {
      forall k | 0 <= k < |cs| ensures Holds(p, v, t, cs[k]) { assert (cs + ds)[k] == cs[k]; }
      forall k | 0 <= k < |ds| ensures Holds(p, v, t, ds[k]) { assert (cs + ds)[|cs| + k] == ds[k]; }
    }
  }

  lemma {:induction false} AnyHoldsAppend(p: Program, v: Valuation, t: Times, cs: seq<Constr>, d: Constr)
    requires Sized(p, t)
    ensures AnyHolds(p, v, t, cs + [d]) <==> AnyHolds(p, v, t, cs) || Holds(p, v, t, d)
  {
    if AnyHolds(p, v, t, cs) {
      var k :| 0 <= k < |cs| && Holds(p, v, t, cs[k]);
      assert (cs + [d])[k] == cs[k];
    }
    assert (cs + [d])[|cs|] == d;
  }

  lemma {:induction false} AllHoldAppendOne(p: Program, v: Valuation, t: Times, cs: seq<Constr>, d: Constr)
    requires Sized(p, t)
    ensures AllHold(p, v, t, cs + [d]) <==> AllHold(p, v, t, cs) && Holds(p, v, t, d)
  {
    AllHoldAppend(p, v, t, cs, [d]);
    assert AllHold(p, v, t, [d]) <==> Holds(p, v, t, [d][0]);
  }
}
