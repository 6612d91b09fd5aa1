/** The constraint builders of the two memory models: steps are registered core by core, then the
    axioms are turned into constraints by loops over the registered lists. */
module MemoryModels {
  import opened Traces
  import opened TsoAxioms
  import opened Constraints

  predicate SharedReader(p: Program, i: nat) {
    InRange(p, i) && exists s :: s in p.shared && s in p.steps[i].uses
  }

  function Noted(l: seq<nat>, i: nat, member: bool): (r: seq<nat>)
    ensures forall x :: x in r <==> x in l || (member && x == i)
  {
    if member then l + [i] else l
  }

  function WfeGlobal(i: nat): Clock {
    if i == 0 then StampOf(i) else FacetOf(i)
  }

  function HappensBefore(a: nat, b: nat): Constr {
    Before(StampOf(a), StampOf(b))
  }

  function RfConstr(m: Model, p: Program, w: nat, r: nat): Constr
    requires w < |p.steps| && r < |p.steps|
  {
    if m == SC || SameCore(p, w, r) then HappensBefore(w, r) else Before(WfeGlobal(w), StampOf(r))
  }

  function FrConstr(m: Model, p: Program, r: nat, w: nat): Constr
    requires w < |p.steps| && r < |p.steps|
  {
    if m == SC || SameCore(p, r, w) then HappensBefore(r, w) else Before(StampOf(r), WfeGlobal(w))
  }

  function CoConstr(m: Model, p: Program, w1: nat, w2: nat): Constr
    requires w1 < |p.steps| && w2 < |p.steps|
  {
    if m == SC || SameCore(p, w1, w2) then HappensBefore(w1, w2) else Before(WfeGlobal(w1), WfeGlobal(w2))
  }

  function BetweenConstr(m: Model, p: Program, s: Var, r: nat, w: nat, w2: nat): Constr
    requires r < |p.steps| && w < |p.steps| && w2 < |p.steps|
  {
    Implies(And(AddressMatch(s, w2, r), DecodeOf(w2)), Or(CoConstr(m, p, w2, w), FrConstr(m, p, r, w2)))
  }

  function SourceConstr(m: Model, p: Program, s: Var, r: nat, w: nat): Constr
    requires r < |p.steps| && w < |p.steps|
  {
    And(And(And(AddressMatch(s, w, r), DataMatch(s, w, r)), DecodeOf(w)), RfConstr(m, p, w, r))
  }

  lemma {:induction false} OrderMeaning(m: Model, p: Program, v: Valuation, t: Times, x: nat, y: nat)
    requires Sized(p, t) && x < |p.steps| && y < |p.steps|
    ensures Holds(p, v, t, RfConstr(m, p, x, y)) <==> Rf(m, p, t, x, y)
    ensures Holds(p, v, t, FrConstr(m, p, x, y)) <==> Fr(m, p, t, x, y)
    ensures Holds(p, v, t, CoConstr(m, p, x, y)) <==> Co(m, p, t, x, y)
  {
  }

  lemma {:induction false} BetweenMeaning(m: Model, p: Program, v: Valuation, t: Times, s: Var, r: nat, w: nat, w2: nat)
    requires Sized(p, t) && r < |p.steps| && w < |p.steps| && w2 < |p.steps|
    requires Writes(p, s, w2) && w2 != w && w2 != r
    ensures Holds(p, v, t, BetweenConstr(m, p, s, r, w, w2)) <==> NotBetween(m, p, v, t, s, r, w, w2)
  {
    OrderMeaning(m, p, v, t, w2, w);
    OrderMeaning(m, p, v, t, r, w2);
    var hit := And(AddressMatch(s, w2, r), DecodeOf(w2));
    assert Holds(p, v, t, hit) <==> SameAddress(p, v, s, w2, r) && Decoded(v, w2);
    assert Holds(p, v, t, Or(CoConstr(m, p, w2, w), FrConstr(m, p, r, w2))) <==>
             Co(m, p, t, w2, w) || Fr(m, p, t, r, w2);
  }

  lemma {:induction false} SourceMeaning(m: Model, p: Program, v: Valuation, t: Times, s: Var, r: nat, w: nat)
    requires Sized(p, t) && r < |p.steps| && w < |p.steps|
    ensures Holds(p, v, t, SourceConstr(m, p, s, r, w)) <==>
              SameAddress(p, v, s, w, r) && SameData(p, v, s, w, r) && Decoded(v, w) && Rf(m, p, t, w, r)
  {
    OrderMeaning(m, p, v, t, w, r);
    var data := And(AddressMatch(s, w, r), DataMatch(s, w, r));
    assert Holds(p, v, t, data) <==> SameAddress(p, v, s, w, r) && SameData(p, v, s, w, r);
    assert Holds(p, v, t, And(data, DecodeOf(w))) <==> Holds(p, v, t, data) && Decoded(v, w);
  }

  predicate StorePair(p: Program, t: Times, w1: nat, w2: nat)
    requires Sized(p, t)
  {
    SharedWriter(p, w1) && SharedWriter(p, w2) && w1 != w2 && SameCore(p, w1, w2) && Stamp(p, t, w1) < Stamp(p, t, w2) ==>
      Global(p, t, w1) < Global(p, t, w2)
  }

  predicate FencePair(p: Program, t: Times, f: nat, w: nat)
    requires Sized(p, t)
  {
    InRange(p, f) && p.steps[f].kind == Fence && SharedWriter(p, w) && SameCore(p, w, f) && Stamp(p, t, w) < t.ts[f] ==>
      Global(p, t, w) < t.ts[f]
  }

  /** The lists of registered steps and the constraints collected so far. */
  class MemoryModel {
    const p: Program
    const m: Model
    var writeList: seq<nat>
    var readList: seq<nat>
    var fenceList: seq<nat>
    var rmwList: seq<nat>
    var pureWriteList: seq<nat>
    var constr: seq<Constr>
    ghost var registered: set<nat>

    ghost predicate Valid()
      reads this
    {
      && (forall i: nat :: i in registered ==> i < |p.steps|)
      && (forall i: nat :: i in writeList <==> i in registered && SharedWriter(p, i))
      && (forall i: nat :: i in readList <==> i in registered && SharedReader(p, i))
      && (forall i: nat :: i in fenceList <==> i in registered && p.steps[i].kind == Fence)
      && (forall i: nat :: i in rmwList <==> i in registered && p.steps[i].kind == Rmw)
    }

    /** Every step is registered and the pure writes are settled. */
    ghost predicate Finished()
      reads this
    {
      && Valid()
      && (forall i: nat :: i in registered <==> i < |p.steps|)
      && (forall i: nat :: i in pureWriteList <==> PureWrite(p, i))
    }

    constructor (p: Program, m: Model)
      requires Wf(p)
      ensures Valid() && this.p == p && this.m == m && registered == {} && constr == []
    {
      this.p, this.m := p, m;
      writeList, readList, fenceList, rmwList, pureWriteList := [], [], [], [], [];
      constr, registered := [], {};
    }

    /** Registering a step bounds its timestamp, and the facet of a shared write. */
    method RegisterStep(i: nat)
      requires Valid() && InRange(p, i)
      modifies this
      ensures Valid() && registered == old(registered) + {i}
      ensures constr == old(constr) + RegisterBounds(p, m, i)
    {
      constr := constr + [After0(StampOf(i))];
      if SharedWriter(p, i) && m == TSO {
        constr := constr + [After0(FacetOf(i))];
      }
      writeList := Noted(writeList, i, SharedWriter(p, i));
      readList := Noted(readList, i, SharedReader(p, i));
      fenceList := Noted(fenceList, i, p.steps[i].kind == Fence);
      rmwList := Noted(rmwList, i, p.steps[i].kind == Rmw);
      registered := registered + {i};
    }

    /** The initial step joins the writers after the pure writes are settled. */
    method FinishRegisterSteps()
      requires Wf(p) && Valid() && forall i: nat :: i in registered <==> InRange(p, i) && p.steps[i].kind != Final
      modifies this
      ensures Valid() && constr == old(constr) && forall i: nat :: i in pureWriteList <==> PureWrite(p, i)
      ensures forall i: nat :: i in registered <==> i < |p.steps| && p.steps[i].kind != Final
    {
      pureWriteList := [];
      for k := 0 to |writeList|
        invariant Valid() && registered == old(registered) && constr == old(constr) && writeList == old(writeList)
        invariant forall i: nat :: i in pureWriteList <==> i in writeList[..k] && i !in rmwList
      {
        if writeList[k] !in rmwList {
          pureWriteList := pureWriteList + [writeList[k]];
        }
      }
      registered := registered + {0};
      writeList := Noted(writeList, 0, SharedWriter(p, 0));
      assert forall i: nat :: PureWrite(p, i) ==> i in old(writeList) && i !in rmwList;
    }

    /** The final step only reads, after every registered step. */
    method SetFinalProperty(final: nat)
      requires Wf(p) && Valid() && InRange(p, final) && p.steps[final].kind == Final && final !in registered
      requires forall i: nat :: i in registered <==> i < |p.steps| && i != final
      requires forall i: nat :: i in pureWriteList <==> PureWrite(p, i)
      modifies this
      ensures Finished()
      ensures forall v, t :: Sized(p, t) ==>
                (AllHold(p, v, t, constr) <==>
                 AllHold(p, v, t, old(constr)) && forall i: nat :: i < |p.steps| && i != final ==> Stamp(p, t, i) < Stamp(p, t, final))
    {
      for i := 0 to |p.steps|
        invariant Valid() && registered == old(registered) && pureWriteList == old(pureWriteList)
        invariant writeList == old(writeList) && fenceList == old(fenceList) && rmwList == old(rmwList)
        invariant forall v, t :: Sized(p, t) ==>
                    (AllHold(p, v, t, constr) <==>
                     AllHold(p, v, t, old(constr)) && forall j: nat :: j < i && j != final ==> Stamp(p, t, j) < Stamp(p, t, final))
      {
        if i != final {
          var c := HappensBefore(i, final);
          forall v, t | Sized(p, t) ensures AllHold(p, v, t, constr + [c]) <==> AllHold(p, v, t, constr) && Holds(p, v, t, c) {
            AllHoldAppendOne(p, v, t, constr, c);
          }
          constr := constr + [c];
        }
      }
      readList := Noted(readList, final, SharedReader(p, final));
      registered := registered + {final};
    }

    // ----- RF_CO_FR -----

    method BetweenConstrs(s: Var, r: nat, w: nat) returns (l: seq<Constr>)
      requires Finished() && s in p.shared && Reads(p, s, r) && Writes(p, s, w)
      ensures forall v, t :: Sized(p, t) ==>
                (AllHold(p, v, t, l) <==> forall w2: nat :: NotBetween(m, p, v, t, s, r, w, w2))
    {
      l := [];
      for k := 0 to |writeList|
        invariant forall v, t :: Sized(p, t) ==>
                    (AllHold(p, v, t, l) <==> forall j :: 0 <= j < k ==> NotBetween(m, p, v, t, s, r, w, writeList[j]))
      {
        var w2 := writeList[k];
        assert w2 in writeList;
        if w2 == w || w2 == r || s !in p.steps[w2].updates {
          continue;
        }
        var c := BetweenConstr(m, p, s, r, w, w2);
        forall v, t | Sized(p, t)
          ensures AllHold(p, v, t, l + [c]) <==> AllHold(p, v, t, l) && NotBetween(m, p, v, t, s, r, w, w2)
        {
          BetweenMeaning(m, p, v, t, s, r, w, w2);
          AllHoldAppendOne(p, v, t, l, c);
        }
        l := l + [c];
      }
      forall w2: nat | Writes(p, s, w2) ensures w2 in writeList {
        assert SharedWriter(p, w2);
      }
    }

    method ReadConstr(s: Var, r: nat) returns (c: Constr)
      requires Finished() && s in p.shared && Reads(p, s, r)
      ensures forall v, t :: Sized(p, t) ==>
                (Holds(p, v, t, c) <==> exists w: nat :: ReadsFrom(m, p, v, t, s, r, w))
    {
      var l: seq<Constr> := [];
      for k := 0 to |writeList|
        invariant forall v, t :: Sized(p, t) ==>
                    (AnyHolds(p, v, t, l) <==> exists j :: 0 <= j < k && ReadsFrom(m, p, v, t, s, r, writeList[j]))
      {
        var w := writeList[k];
        assert w in writeList;
        if w == r || s !in p.steps[w].updates {
          continue;
        }
        var others := BetweenConstrs(s, r, w);
        var between := ForallList(others);
        var e := And(SourceConstr(m, p, s, r, w), between);
        forall v, t | Sized(p, t)
          ensures AnyHolds(p, v, t, l + [e]) <==> AnyHolds(p, v, t, l) || ReadsFrom(m, p, v, t, s, r, w)
        {
          SourceMeaning(m, p, v, t, s, r, w);
          AnyHoldsAppend(p, v, t, l, e);
        }
        l := l + [e];
      }
      c := ExistsList(l);
      forall w: nat | Writes(p, s, w) ensures w in writeList {
        assert SharedWriter(p, w);
      }
    }

    method StateReadsConstr(s: Var) returns (c: Constr)
      requires Finished() && s in p.shared
      ensures forall v, t :: Sized(p, t) ==>
                (Holds(p, v, t, c) <==> forall r: nat :: Reads(p, s, r) ==> exists w: nat :: ReadsFrom(m, p, v, t, s, r, w))
    {
      var l: seq<Constr> := [];
      for k := 0 to |readList|
        invariant forall v, t :: Sized(p, t) ==>
                    (AllHold(p, v, t, l) <==>
                     forall j :: 0 <= j < k && Reads(p, s, readList[j]) ==> exists w: nat :: ReadsFrom(m, p, v, t, s, readList[j], w))
      {
        var r := readList[k];
        assert r in readList;
        if s !in p.steps[r].uses {
          continue;
        }
        var e := ReadConstr(s, r);
        forall v, t | Sized(p, t) ensures AllHold(p, v, t, l + [e]) <==> AllHold(p, v, t, l) && Holds(p, v, t, e) {
          AllHoldAppendOne(p, v, t, l, e);
        }
        l := l + [e];
      }
      c := ForallList(l);
      forall r: nat | Reads(p, s, r) ensures r in readList {
        assert SharedReader(p, r);
      }
    }

    method ReadAxiomConstr() returns (c: Constr)
      requires Finished()
      ensures forall v, t :: Sized(p, t) ==> (Holds(p, v, t, c) <==> ReadAxiom(m, p, v, t))
    {
      var l: seq<Constr> := [];
      for k := 0 to |p.shared|
        invariant forall v, t :: Sized(p, t) ==>
                    (AllHold(p, v, t, l) <==>
                     forall j, r: nat :: 0 <= j < k && Reads(p, p.shared[j], r) ==>
                       exists w: nat :: ReadsFrom(m, p, v, t, p.shared[j], r, w))
      {
        var e := StateReadsConstr(p.shared[k]);
        forall v, t | Sized(p, t) ensures AllHold(p, v, t, l + [e]) <==> AllHold(p, v, t, l) && Holds(p, v, t, e) {
          AllHoldAppendOne(p, v, t, l, e);
        }
        l := l + [e];
      }
      c := ForallList(l);
    }

    // ----- the order axioms of TSO -----

    method FacetOrderConstr() returns (c: Constr)
      requires Finished()
      ensures forall v, t :: Sized(p, t) ==> (Holds(p, v, t, c) <==> FacetOrder(p, t))
    {
      var l: seq<Constr> := [];
      for k := 0 to |pureWriteList|
        invariant forall v, t :: Sized(p, t) ==>
                    (AllHold(p, v, t, l) <==>
                     forall j :: 0 <= j < k && PureWrite(p, pureWriteList[j]) ==> t.ts[pureWriteList[j]] < t.gts[pureWriteList[j]])
      {
        var w := pureWriteList[k];
        assert w in pureWriteList;
        var e := Before(StampOf(w), WfeGlobal(w));
        forall v, t | Sized(p, t) ensures AllHold(p, v, t, l + [e]) <==> AllHold(p, v, t, l) && t.ts[w] < t.gts[w] {
          AllHoldAppendOne(p, v, t, l, e);
        }
        l := l + [e];
      }
      c := ForallList(l);
    }

    method StoresAfterConstr(w1: nat) returns (c: Constr)
      requires Finished() && SharedWriter(p, w1)
      ensures forall v, t :: Sized(p, t) ==> (Holds(p, v, t, c) <==> forall w2: nat :: StorePair(p, t, w1, w2))
    {
      var l: seq<Constr> := [];
      for k := 0 to |writeList|
        invariant forall v, t :: Sized(p, t) ==>
                    (AllHold(p, v, t, l) <==> forall j :: 0 <= j < k ==> StorePair(p, t, w1, writeList[j]))
      {
        var w2 := writeList[k];
        assert w2 in writeList;
        if w2 == w1 || !SameCore(p, w1, w2) {
          continue;
        }
        var e := Implies(HappensBefore(w1, w2), Before(WfeGlobal(w1), WfeGlobal(w2)));
        forall v, t | Sized(p, t) ensures AllHold(p, v, t, l + [e]) <==> AllHold(p, v, t, l) && StorePair(p, t, w1, w2) {
          AllHoldAppendOne(p, v, t, l, e);
        }
        l := l + [e];
      }
      c := ForallList(l);
    }

    method StoreOrderConstr() returns (c: Constr)
      requires Finished()
      ensures forall v, t :: Sized(p, t) ==> (Holds(p, v, t, c) <==> StoreOrder(p, t))
    {
      var l: seq<Constr> := [];
      for k := 0 to |writeList|
        invariant forall v, t :: Sized(p, t) ==>
                    (AllHold(p, v, t, l) <==> forall j, w2: nat :: 0 <= j < k ==> StorePair(p, t, writeList[j], w2))
      {
        assert writeList[k] in writeList;
        var e := StoresAfterConstr(writeList[k]);
        forall v, t | Sized(p, t) ensures AllHold(p, v, t, l + [e]) <==> AllHold(p, v, t, l) && Holds(p, v, t, e) {
          AllHoldAppendOne(p, v, t, l, e);
        }
        l := l + [e];
      }
      c := ForallList(l);
      forall v, t | Sized(p, t) ensures Holds(p, v, t, c) <==> StoreOrder(p, t) {
        if Holds(p, v, t, c) {
          forall w1: nat, w2: nat | SharedWriter(p, w1) && SharedWriter(p, w2) && w1 != w2 && SameCore(p, w1, w2)
                                    && Stamp(p, t, w1) < Stamp(p, t, w2)
            ensures Global(p, t, w1) < Global(p, t, w2)
          {
            var j :| 0 <= j < |writeList| && writeList[j] == w1;
            assert StorePair(p, t, writeList[j], w2);
          }
        }
        if StoreOrder(p, t) {
          forall j, w2: nat | 0 <= j < |writeList| ensures StorePair(p, t, writeList[j], w2) {
          }
        }
      }
    }

    method FenceConstr(f: nat) returns (c: Constr)
      requires Finished() && InRange(p, f) && p.steps[f].kind == Fence
      ensures forall v, t :: Sized(p, t) ==> (Holds(p, v, t, c) <==> forall w: nat :: FencePair(p, t, f, w))
    {
      var l: seq<Constr> := [];
      for k := 0 to |writeList|
        invariant forall v, t :: Sized(p, t) ==>
                    (AllHold(p, v, t, l) <==> forall j :: 0 <= j < k ==> FencePair(p, t, f, writeList[j]))
      {
        var w := writeList[k];
        assert w in writeList;
        if !SameCore(p, w, f) {
          continue;
        }
        var e := Implies(HappensBefore(w, f), Before(WfeGlobal(w), StampOf(f)));
        forall v, t | Sized(p, t) ensures AllHold(p, v, t, l + [e]) <==> AllHold(p, v, t, l) && FencePair(p, t, f, w) {
          AllHoldAppendOne(p, v, t, l, e);
        }
        l := l + [e];
      }
      c := ForallList(l);
    }

    method FenceOrderConstr() returns (c: Constr)
      requires Finished() && Wf(p)
      ensures forall v, t :: Sized(p, t) ==> (Holds(p, v, t, c) <==> FenceOrder(p, t))
    {
      var l: seq<Constr> := [];
      for k := 0 to |fenceList|
        invariant forall v, t :: Sized(p, t) ==>
                    (AllHold(p, v, t, l) <==> forall j, w: nat :: 0 <= j < k ==> FencePair(p, t, fenceList[j], w))
      {
        assert fenceList[k] in fenceList;
        var e := FenceConstr(fenceList[k]);
        forall v, t | Sized(p, t) ensures AllHold(p, v, t, l + [e]) <==> AllHold(p, v, t, l) && Holds(p, v, t, e) {
          AllHoldAppendOne(p, v, t, l, e);
        }
        l := l + [e];
      }
      c := ForallList(l);
      forall v, t | Sized(p, t) ensures Holds(p, v, t, c) <==> FenceOrder(p, t) {
        if Holds(p, v, t, c) {
          forall f: nat, w: nat | InRange(p, f) && p.steps[f].kind == Fence && SharedWriter(p, w) && SameCore(p, w, f)
                                  && Stamp(p, t, w) < t.ts[f]
            ensures Global(p, t, w) < t.ts[f]
          {
            var j :| 0 <= j < |fenceList| && fenceList[j] == f;
            assert FencePair(p, t, fenceList[j], w);
          }
        }
        if FenceOrder(p, t) {
          forall j, w: nat | 0 <= j < |fenceList| ensures FencePair(p, t, fenceList[j], w) {
          }
        }
      }
    }

    method RmwSyncConstr() returns (c: Constr)
      requires Finished() && Wf(p)
      ensures forall v, t :: Sized(p, t) ==> (Holds(p, v, t, c) <==> RmwSync(p, t))
    {
      var l: seq<Constr> := [];
      for k := 0 to |rmwList|
        invariant forall v, t :: Sized(p, t) ==>
                    (AllHold(p, v, t, l) <==>
                     forall j :: 0 <= j < k && InRange(p, rmwList[j]) ==> t.ts[rmwList[j]] == t.gts[rmwList[j]])
      {
        var i := rmwList[k];
        assert i in rmwList;
        var e := Sync(StampOf(i), WfeGlobal(i));
        forall v, t | Sized(p, t) ensures AllHold(p, v, t, l + [e]) <==> AllHold(p, v, t, l) && t.ts[i] == t.gts[i] {
          AllHoldAppendOne(p, v, t, l, e);
        }
        l := l + [e];
      }
      c := ForallList(l);
    }

    /** The axioms of the model join the constraints. */
    method ApplyAxioms()
      requires Finished() && Wf(p)
      modifies this`constr
      ensures Finished()
      ensures forall v, t :: Sized(p, t) ==>
                (AllHold(p, v, t, constr) <==> AllHold(p, v, t, old(constr)) && AxiomsOf(m, p, v, t))
    {
      var read := ReadAxiomConstr();
      var added := [read];
      if m == TSO {
        var facet := FacetOrderConstr();
        var store := StoreOrderConstr();
        var fence := FenceOrderConstr();
        var rmw := RmwSyncConstr();
        added := [read, facet, store, fence, rmw];
        forall v, t | Sized(p, t) ensures AllHold(p, v, t, added) <==> AxiomsOf(m, p, v, t) {
          assert AllHold(p, v, t, added) <==>
                   Holds(p, v, t, added[0]) && Holds(p, v, t, added[1]) && Holds(p, v, t, added[2])
                   && Holds(p, v, t, added[3]) && Holds(p, v, t, added[4]);
        }
      } else {
        forall v, t | Sized(p, t) ensures AllHold(p, v, t, added) <==> AxiomsOf(m, p, v, t) {
          assert AllHold(p, v, t, added) <==> Holds(p, v, t, added[0]);
        }
      }
      forall v, t | Sized(p, t)
        ensures AllHold(p, v, t, constr + added) <==> AllHold(p, v, t, constr) && AllHold(p, v, t, added)
      {
        AllHoldAppend(p, v, t, constr, added);
      }
      constr := constr + added;
    }
  }

  ghost predicate AxiomsOf(m: Model, p: Program, v: Valuation, t: Times)
    requires Sized(p, t)
  {
    ReadAxiom(m, p, v, t) && (m == TSO ==> FacetOrder(p, t) && StoreOrder(p, t) && FenceOrder(p, t) && RmwSync(p, t))
  }

  function RegisterBounds(p: Program, m: Model, i: nat): seq<Constr> {
    [After0(StampOf(i))] + if m == TSO && SharedWriter(p, i) then [After0(FacetOf(i))] else []
  }
}
