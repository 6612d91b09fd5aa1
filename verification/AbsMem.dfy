/** The depth-one abstract memory: one shared, never written base, and for each of two sides the
    first word it wrote. */
module AbsMem {
  import opened WordWrites

  /** One side's entry: whether it holds a word, and where and which. */
  datatype Entry = Entry(full: bool, addr: int, data: int)

  datatype Regs = Regs(on: bool, vlg: Entry, ila: Entry)

  /** One side's wires in one cycle; `rand` is what an idle read shows. */
  datatype Port = Port(raddr: int, ren: bool, waddr: int, wdata: int, wen: bool, rand: int)

  datatype Inputs = Inputs(rst: bool, issue: bool, compare: bool, vlg: Port, ila: Port)

  type Base = int -> int

  /** What a side sees at an address. */
  function Overlay(e: Entry, mem: Base, a: int): int {
    if e.full && e.addr == a then e.data else mem(a)
  }

  /** Reads and writes count only while the comparison is off and the instruction is under way. */
  predicate Active(r: Regs, i: Inputs) {
    !i.compare && r.on
  }

  function Capture(e: Entry, p: Port, active: bool, rst: bool): Entry {
    if rst then e.(full := false)
    else if !e.full && p.wen && active then Entry(true, p.waddr, p.wdata)
    else e
  }

  function Tick(avoidIssue: bool, r: Regs, i: Inputs): Regs {
    Regs(if i.rst then avoidIssue else r.on || i.issue,
         Capture(r.vlg, i.vlg, Active(r, i), i.rst), Capture(r.ila, i.ila, Active(r, i), i.rst))
  }

  class D1Model {
    const mem: Base
    const avoidIssue: bool
    var startAndOn: bool
    var vlgE: bool
    var vlgA: int
    var vlgD: int
    var ilaE: bool
    var ilaA: int
    var ilaD: int

    /** Registers start with whatever they hold; a reset clears the entries. */
    constructor (mem: Base, avoidIssue: bool, r: Regs)
      ensures this.mem == mem && this.avoidIssue == avoidIssue && Now() == r
    {
      this.mem, this.avoidIssue, startAndOn := mem, avoidIssue, r.on;
      vlgE, vlgA, vlgD := r.vlg.full, r.vlg.addr, r.vlg.data;
      ilaE, ilaA, ilaD := r.ila.full, r.ila.addr, r.ila.data;
    }

    function Now(): Regs
      reads this
    {
      Regs(startAndOn, Entry(vlgE, vlgA, vlgD), Entry(ilaE, ilaA, ilaD))
    }

    method Clock(i: Inputs)
      modifies this
      ensures Now() == Tick(avoidIssue, old(Now()), i)
    {
      var vlgWen := i.vlg.wen && !i.compare && startAndOn;
      var ilaWen := i.ila.wen && !i.compare && startAndOn;
      if i.rst {
        startAndOn := avoidIssue;
      } else if i.issue {
        startAndOn := true;
      }
      if i.rst {
        vlgE := false;
      } else if !vlgE && vlgWen {
        vlgE, vlgA, vlgD := true, i.vlg.waddr, i.vlg.wdata;
      }
      if i.rst {
        ilaE := false;
      } else if !ilaE && ilaWen {
        ilaE, ilaA, ilaD := true, i.ila.waddr, i.ila.wdata;
      }
    }

    /** An active read returns the word its side sees. */
    function VlgRdata(i: Inputs): (d: int)
      reads this
      ensures d == if i.vlg.ren && Active(Now(), i) then Overlay(Now().vlg, mem, i.vlg.raddr) else i.vlg.rand
    {
      if i.vlg.ren && !i.compare && startAndOn then
        if vlgE && vlgA == i.vlg.raddr then vlgD else mem(i.vlg.raddr)
      else i.vlg.rand
    }

    function IlaRdata(i: Inputs): (d: int)
      reads this
      ensures d == if i.ila.ren && Active(Now(), i) then Overlay(Now().ila, mem, i.ila.raddr) else i.ila.rand
    {
      if i.ila.ren && !i.compare && startAndOn then
        if ilaE && ilaA == i.ila.raddr then ilaD else mem(i.ila.raddr)
      else i.ila.rand
    }

    predicate VlgMatchIla()
      reads this
    {
      if vlgE then if ilaE && ilaA == vlgA then ilaD == vlgD else vlgD == mem(vlgA)
      else true
    }

    predicate IlaMatchVlg()
      reads this
    {
      if ilaE then if vlgE && ilaA == vlgA then ilaD == vlgD else ilaD == mem(ilaA)
      else true
    }

    predicate Equal(i: Inputs)
      reads this
    {
      i.compare && IlaMatchVlg() && VlgMatchIla()
    }

    /** `equal` says that the two sides see the same word at every address. */
    lemma {:induction false} EqualIsAgreement(i: Inputs)
      ensures Equal(i) <==> i.compare && forall a :: Overlay(Now().vlg, mem, a) == Overlay(Now().ila, mem, a)
    {
      assert Overlay(Now().vlg, mem, vlgA) == Overlay(Now().ila, mem, vlgA) ==> VlgMatchIla();
      assert Overlay(Now().vlg, mem, ilaA) == Overlay(Now().ila, mem, ilaA) ==> IlaMatchVlg();
    }
  }

  function After(avoidIssue: bool, r: Regs, ins: seq<Inputs>): Regs {
    if ins == [] then r else Tick(avoidIssue, After(avoidIssue, r, ins[..|ins| - 1]), ins[|ins| - 1])
  }

  /** Cycle `k` resets and no later one does. */
  ghost predicate LastReset(ins: seq<Inputs>, k: nat) {
    k < |ins| && ins[k].rst && forall j :: k < j < |ins| ==> !ins[j].rst
  }

  ghost predicate IssuedFrom(ins: seq<Inputs>, k: nat) {
    exists j :: k <= j < |ins| && ins[j].issue
  }

  /** The instruction is under way exactly when it has been issued since the last reset, or that reset
      left it so; without a reset, as the registers started. */
  lemma {:induction false} OnSinceReset(avoidIssue: bool, r: Regs, ins: seq<Inputs>)
    ensures forall k: nat :: LastReset(ins, k) ==> (After(avoidIssue, r, ins).on <==> avoidIssue || IssuedFrom(ins, k + 1))
    ensures (forall k :: 0 <= k < |ins| ==> !ins[k].rst) ==> (After(avoidIssue, r, ins).on <==> r.on || IssuedFrom(ins, 0))
  {
    if ins != [] {
      var n := |ins| - 1;
      OnSinceReset(avoidIssue, r, ins[..n]);
      forall k: nat | LastReset(ins, k) ensures After(avoidIssue, r, ins).on <==> avoidIssue || IssuedFrom(ins, k + 1) {
        if k < n {
          assert LastReset(ins[..n], k);
          IssuedLater(ins, k + 1);
        }
      }
      IssuedLater(ins, 0);
    }
  }

  lemma {:induction false} IssuedLater(ins: seq<Inputs>, k: nat)
    requires k < |ins|
    ensures IssuedFrom(ins, k) <==> IssuedFrom(ins[..|ins| - 1], k) || ins[|ins| - 1].issue
  {
    var front := ins[..|ins| - 1];
    if j :| k <= j < |front| && front[j].issue {
      assert ins[j].issue;
    }
    if j :| k <= j < |ins| && ins[j].issue {
      assert j < |front| ==> front[j].issue;
    }
    if ins[|ins| - 1].issue {
      assert k <= |ins| - 1 < |ins|;
    }
  }

  /** The effective writes of a side since the last reset. */
  function Writes(avoidIssue: bool, r: Regs, ins: seq<Inputs>, vlg: bool): seq<Hit> {
    if ins == [] then []
    else
      var front, last := ins[..|ins| - 1], ins[|ins| - 1];
      var before := Writes(avoidIssue, r, front, vlg);
      var p := if vlg then last.vlg else last.ila;
      if last.rst then []
      else if p.wen && !last.compare && After(avoidIssue, r, front).on then before + [Hit(p.waddr, p.wdata)]
      else before
  }

  function EntryOf(r: Regs, vlg: bool): Entry {
    if vlg then r.vlg else r.ila
  }

  /** The word at an address after a list of writes. */
  function Replayed(ws: seq<Hit>, mem: Base, a: int): int {
    if ws == [] then mem(a)
    else if ws[|ws| - 1].addr == a then ws[|ws| - 1].data
    else Replayed(ws[..|ws| - 1], mem, a)
  }

  /** In every state reachable from one with empty entries, an entry holds the first effective
      write since the last reset, if there was one. */
  lemma {:induction false} EntryIsFirstWrite(avoidIssue: bool, r: Regs, ins: seq<Inputs>, vlg: bool)
    requires !EntryOf(r, vlg).full
    ensures var ws, e := Writes(avoidIssue, r, ins, vlg), EntryOf(After(avoidIssue, r, ins), vlg);
      (e.full <==> ws != []) && (e.full ==> ws[0] == Hit(e.addr, e.data))
  {
    if ins != [] {
      EntryIsFirstWrite(avoidIssue, r, ins[..|ins| - 1], vlg);
    }
  }

  ghost predicate LastTo(ws: seq<Hit>, j: nat) {
    j < |ws| && forall k :: j < k < |ws| ==> ws[k].addr != ws[j].addr
  }

  lemma {:induction false} ReplayedAt(ws: seq<Hit>, mem: Base, a: int)
    ensures (forall k :: 0 <= k < |ws| ==> ws[k].addr != a) ==> Replayed(ws, mem, a) == mem(a)
    ensures forall j: nat :: LastTo(ws, j) && ws[j].addr == a ==> Replayed(ws, mem, a) == ws[j].data
    ensures (forall k :: 0 <= k < |ws| ==> ws[k].addr != a) || exists j: nat :: LastTo(ws, j) && ws[j].addr == a
  {
    if ws != [] {
      var front := ws[..|ws| - 1];
      ReplayedAt(front, mem, a);
      if ws[|ws| - 1].addr == a {
        assert LastTo(ws, |ws| - 1);
      } else {
        forall j: nat | LastTo(ws, j) && ws[j].addr == a ensures LastTo(front, j) {
        }
        if j: nat :| LastTo(front, j) && front[j].addr == a {
          assert LastTo(ws, j);
        }
      }
    }
  }

  /** Every address ends with what the first write alone would have left there. */
  ghost predicate FirstWriteSuffices(ws: seq<Hit>, mem: Base) {
    forall j: nat :: LastTo(ws, j) ==> ws[j].data == if ws[j].addr == ws[0].addr then ws[0].data else mem(ws[j].addr)
  }

  /** A side sees the memory its writes have made exactly when the first of them made all the
      difference; so whenever there was at most one. */
  lemma {:induction false} OverlayIsReplay(avoidIssue: bool, r: Regs, ins: seq<Inputs>, vlg: bool, mem: Base)
    requires !EntryOf(r, vlg).full
    ensures var ws, e := Writes(avoidIssue, r, ins, vlg), EntryOf(After(avoidIssue, r, ins), vlg);
      && ((forall a :: Overlay(e, mem, a) == Replayed(ws, mem, a)) <==> FirstWriteSuffices(ws, mem))
      && (|ws| <= 1 ==> forall a :: Overlay(e, mem, a) == Replayed(ws, mem, a))
  {
    var ws, e := Writes(avoidIssue, r, ins, vlg), EntryOf(After(avoidIssue, r, ins), vlg);
    EntryIsFirstWrite(avoidIssue, r, ins, vlg);
    if FirstWriteSuffices(ws, mem) {
      forall a ensures Overlay(e, mem, a) == Replayed(ws, mem, a) {
        ReplayedAt(ws, mem, a);
      }
    }
    if forall a :: Overlay(e, mem, a) == Replayed(ws, mem, a) {
      forall j: nat | LastTo(ws, j) ensures ws[j].data == if ws[j].addr == ws[0].addr then ws[0].data else mem(ws[j].addr) {
        ReplayedAt(ws, mem, ws[j].addr);
        assert Overlay(e, mem, ws[j].addr) == Replayed(ws, mem, ws[j].addr);
      }
    }
  }

  /** So `equal` compares the memories the two sides have made, address by address. */
  lemma {:induction false} EqualComparesRuns(m: D1Model, r: Regs, ins: seq<Inputs>, i: Inputs)
    requires m.Now() == After(m.avoidIssue, r, ins) && !r.vlg.full && !r.ila.full
    requires FirstWriteSuffices(Writes(m.avoidIssue, r, ins, true), m.mem) && FirstWriteSuffices(Writes(m.avoidIssue, r, ins, false), m.mem)
    ensures var vlg, ila := Writes(m.avoidIssue, r, ins, true), Writes(m.avoidIssue, r, ins, false);
      m.Equal(i) <==> (i.compare && forall a :: Replayed(vlg, m.mem, a) == Replayed(ila, m.mem, a))
  {
    m.EqualIsAgreement(i);
    OverlayIsReplay(m.avoidIssue, r, ins, true, m.mem);
    OverlayIsReplay(m.avoidIssue, r, ins, false, m.mem);
    var vlg, ila := Writes(m.avoidIssue, r, ins, true), Writes(m.avoidIssue, r, ins, false);
    forall a
      ensures Overlay(m.Now().vlg, m.mem, a) == Replayed(vlg, m.mem, a)
      ensures Overlay(m.Now().ila, m.mem, a) == Replayed(ila, m.mem, a)
    {
      assert m.Now().vlg == EntryOf(After(m.avoidIssue, r, ins), true) && m.Now().ila == EntryOf(After(m.avoidIssue, r, ins), false);
    }
    if forall a :: Replayed(vlg, m.mem, a) == Replayed(ila, m.mem, a) {
      forall a ensures Overlay(m.Now().vlg, m.mem, a) == Overlay(m.Now().ila, m.mem, a) {
        assert Replayed(vlg, m.mem, a) == Replayed(ila, m.mem, a);
      }
    }
    if forall a :: Overlay(m.Now().vlg, m.mem, a) == Overlay(m.Now().ila, m.mem, a) {
      forall a ensures Replayed(vlg, m.mem, a) == Replayed(ila, m.mem, a) {
        assert Overlay(m.Now().vlg, m.mem, a) == Overlay(m.Now().ila, m.mem, a);
      }
    }
  }
}
