/** In the generated code no place is computed twice. */
module IlatorOnce {
  import opened Expressions
  import opened Rewriters
  import opened IlatorCode
  import opened IlatorMeaning
  import opened IlatorUpdate
  import opened IlatorLoads

  ghost predicate Used(p: Place, lut: map<Expr, Place>) {
    exists e :: e in lut && lut[e] == p
  }

  ghost predicate Numbered(lut: map<Expr, Place>) {
    forall e :: e in lut ==> PlaceFor(e, lut[e], |lut|)
  }

  ghost predicate Computes(stmts: seq<Stmt>, i: int, p: Place) {
    0 <= i < |stmts| && Sets(stmts[i]) && stmts[i].dst == p
  }

  ghost predicate Sets(st: Stmt) {
    st.Compute? || st.LoadTmp?
  }

  /** Places are computed once, into entries of the table that were not there at the start. */
  ghost predicate Once(c: Code, start: map<Expr, Place>) {
    && Numbered(c.lut)
    && (forall e :: e in start ==> e in c.lut && c.lut[e] == start[e])
    && (forall i, p :: Computes(c.stmts, i, p) ==> Used(p, c.lut) && !Used(p, start))
    && forall i, j, p :: Computes(c.stmts, i, p) && Computes(c.stmts, j, p) ==> i == j
  }

  lemma {:induction false} UsedStays(q: Place, lut: map<Expr, Place>, e: Expr, p: Place)
    requires Used(q, lut) && e !in lut
    ensures Used(q, lut[e := p])
  {
    var x :| x in lut && lut[x] == q;
    assert lut[e := p][x] == q;
  }

  lemma {:induction false} OnceStart(lut: map<Expr, Place>)
    requires Numbered(lut)
    ensures Once(Fresh(lut), lut)
  {
  }

  lemma {:induction false} EntryOnce(e: Expr, c: Code, start: map<Expr, Place>, p: Place)
    requires Once(c, start) && e !in c.lut && PlaceFor(e, p, |c.lut| + 1)
    ensures Once(c.(lut := c.lut[e := p]), start)
  {
    forall i, q | Computes(c.stmts, i, q) ensures Used(q, c.lut[e := p]) {
      UsedStays(q, c.lut, e, p);
    }
  }

  /** Adding a statement that computes nothing, or a place no entry has. */
  lemma {:induction false} StmtOnce(c: Code, d: Code, st: Stmt, start: map<Expr, Place>)
    requires Once(c.(lut := d.lut), start) && d.stmts == c.stmts + [st]
    requires Sets(st) ==> Used(st.dst, d.lut) && !Used(st.dst, start) && forall i :: !Computes(c.stmts, i, st.dst)
    ensures Once(d, start)
  {
    forall i, p | Computes(d.stmts, i, p) ensures if i < |c.stmts| then Computes(c.stmts, i, p) else Sets(st) && p == st.dst {
    }
  }

  lemma {:induction false} NodeOnce(e: Expr, c: Code, start: map<Expr, Place>)
    requires Once(c, start)
    ensures Once(Node(e, c), start)
  {
    if e !in c.lut {
      var d := Node(e, c);
      if e.op.Var? {
        EntryOnce(e, c, start, Field(e.op.name, e.op.varSort));
      } else if MemOp(e) {
        StmtOnce(c, d, d.stmts[|c.stmts|], start);
      } else {
        var p := Target(e, c.lut);
        EntryOnce(e, c, start, p);
        assert d.lut[e] == p;
        StmtOnce(c, d, d.stmts[|c.stmts|], start);
      }
    }
  }

  /** Rendering computes each place once. */
  lemma {:induction false} RenderOnce(e: Expr, c: Code, start: map<Expr, Place>)
    requires Once(c, start)
    ensures Once(Render(e, c), start)
    decreases e, |e.args| + 1
  {
    if e !in c.lut {
      RenderArgsOnce(e, |e.args|, c, start);
      NodeOnce(e, RenderArgs(e, |e.args|, c), start);
    }
  }

  lemma {:induction false} RenderArgsOnce(e: Expr, n: nat, c: Code, start: map<Expr, Place>)
    requires Once(c, start) && n <= |e.args|
    ensures Once(RenderArgs(e, n, c), start)
    decreases e, n
  {
    if n > 0 {
      RenderArgsOnce(e, n - 1, c, start);
      RenderOnce(e.args[n - 1], RenderArgs(e, n - 1, c), start);
    }
  }

  lemma {:induction false} MemRenderOnce(e: Expr, c: Code, start: map<Expr, Place>)
    requires Once(c, start)
    ensures Once(MemRender(e, c), start)
    decreases e, |e.args| + 1
  {
    if MemOp(e) && e.op == Ite {
      NodeOnce(e, c, start);
    } else {
      MemRenderArgsOnce(e, |e.args|, c, start);
      NodeOnce(e, MemRenderArgs(e, |e.args|, c), start);
    }
  }

  lemma {:induction false} MemRenderArgsOnce(e: Expr, n: nat, c: Code, start: map<Expr, Place>)
    requires Once(c, start) && n <= |e.args|
    ensures Once(MemRenderArgs(e, n, c), start)
    decreases e, n
  {
    if n > 0 {
      MemRenderArgsOnce(e, n - 1, c, start);
      MemRenderOnce(e.args[n - 1], MemRenderArgs(e, n - 1, c), start);
    }
  }

  /** So does the function of a memory: a branch computes nothing the part before it has. */
  lemma {:induction false} BodyOnce(e: Expr) returns (before: Code, yes: Code, no: Code)
    requires MemOp(e) && (e.op == Ite ==> |e.args| == 3)
    ensures Once(before, map[])
    ensures e.op == Ite ==>
      && Body(e) == before.stmts + [Branch(At(e.args[0], before.lut), yes.stmts, no.stmts)]
      && Once(yes, before.lut) && Once(no, before.lut)
    ensures e.op != Ite ==> Body(e) == before.stmts
  {
    var none := Fresh(map[]);
    if e.op == Ite {
      before := Render(e.args[0], none);
      RenderOnce(e.args[0], none, map[]);
      yes, no := MemRender(e.args[1], Fresh(before.lut)), MemRender(e.args[2], Fresh(before.lut));
      MemRenderOnce(e.args[1], Fresh(before.lut), before.lut);
      MemRenderOnce(e.args[2], Fresh(before.lut), before.lut);
    } else {
      before, yes, no := MemRender(e, none), none, none;
      MemRenderOnce(e, none, map[]);
    }
  }

  /** And so does the first part of an update function. */
  lemma {:induction false} PrepareOnce(us: seq<Update>, n: nat)
    requires n <= |us| && forall j :: 0 <= j < |us| && IsMemory(us[j]) ==> MemOp(us[j].next)
    ensures Once(Prepare(us, n), map[])
  {
    if n == 0 {
      OnceStart(map[]);
    } else {
      PrepareOnce(us, n - 1);
      PrepareHolds(us, n - 1);
      PrepareUnfolds(us, n);
      if IsMemory(us[n - 1]) {
        SeenMemory(us, n - 1);
      }
      PrepareOneOnce(us[n - 1], Prepare(us, n - 1));
    }
  }

  lemma {:induction false} PrepareOneOnce(u: Update, c: Code)
    requires Once(c, map[]) && (IsMemory(u) ==> MemOp(u.next))
    ensures (IsMemory(u) && u.next in c.lut) || Once(PrepareOne(u.next, c), map[])
  {
    var e, d := u.next, PrepareOne(u.next, c);
    if IsMemory(u) {
      if e !in c.lut {
        EntryOnce(e, c, map[], Local(|c.lut|));
        StmtOnce(c, d, NewMemory(Local(|c.lut|), e), map[]);
      }
    } else {
      RenderOnce(e, c, map[]);
      StmtOnce(Render(e, c), d, Hold(At(e, d.lut)), map[]);
    }
  }
}
