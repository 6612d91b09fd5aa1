/** The generator: it extends the buffer and the table of a function and registers the memory
    functions it calls. */
module Ilators {
  import opened Expressions
  import opened Rewriters
  import opened IlatorCode
  import opened IlatorMeaning
  import opened IlatorUpdate
  import opened IlatorLoads

  ghost predicate LoadsFromOp(e: Expr) {
    e.op == Load && |e.args| > 0 && e.args[0].op.IsOp()
  }

  /** Somewhere below there is a load whose memory is an operator. */
  predicate HasLoadFromStore(e: Expr) {
    || (e.op == Load && |e.args| > 0 && e.args[0].op.IsOp())
    || exists i :: 0 <= i < |e.args| && HasLoadFromStore(e.args[i])
  }

  lemma {:induction false} LoadIsFound(e: Expr)
    ensures HasLoadFromStore(e) <==> exists k :: Within(k, e) && LoadsFromOp(k)
  {
    forall i | 0 <= i < |e.args| ensures HasLoadFromStore(e.args[i]) <==> exists k :: Within(k, e.args[i]) && LoadsFromOp(k) {
      LoadIsFound(e.args[i]);
    }
    if LoadsFromOp(e) {
      assert Within(e, e);
    }
  }

  /** No memory update made of stores and conditionals is refused. */
  lemma {:induction false} TreesAreAccepted(e: Expr)
    requires Part(e) && WellSorted(e)
    ensures !HasLoadFromStore(e)
  {
    forall i | 0 <= i < |e.args| ensures !HasLoadFromStore(e.args[i]) {
      PartsOfPart(e, i);
      TreesAreAccepted(e.args[i]);
    }
    if e.op == Load {
      assert Plain(e) && Plain(e.args[0]) && SortOf(e.args[0]).MemSort?;
    }
  }

  /** The conditionals of a store tree, each of which becomes a function of its own. */
  ghost function Calls(e: Expr): set<Expr> {
    match e.op
    case Store => if |e.args| == 3 then Calls(e.args[0]) else {}
    case Ite => if |e.args| == 3 && MemOp(e) then {e} + Calls(e.args[1]) + Calls(e.args[2]) else {}
    case _ => {}
  }

  ghost function CallsUpTo(e: Expr, n: nat): set<Expr>
    requires n <= |e.args|
  {
    if n == 0 then {} else CallsUpTo(e, n - 1) + Calls(e.args[n - 1])
  }

  lemma {:induction false} PlainCallsNothing(e: Expr)
    requires Plain(e)
    ensures Calls(e) == {}
  {
    if e.op == Store && |e.args| == 3 {
      PlainCallsNothing(e.args[0]);
    }
  }

  /** The conditionals of a tree are its own and those of its arguments. */
  lemma {:induction false} CallsOfTree(e: Expr)
    requires StoreTree(e)
    ensures Calls(e) == CallsUpTo(e, |e.args|) + if MemOp(e) && !IsStore(e) then {e} else {}
  {
    if e.op == Ite || e.op == Store {
      assert CallsUpTo(e, 3) == CallsUpTo(e, 2) + Calls(e.args[2]);
      assert CallsUpTo(e, 2) == CallsUpTo(e, 1) + Calls(e.args[1]);
      assert CallsUpTo(e, 1) == CallsUpTo(e, 0) + Calls(e.args[0]);
      if e.op == Store {
        PlainCallsNothing(e.args[1]);
        PlainCallsNothing(e.args[2]);
      } else {
        PlainCallsNothing(e.args[0]);
      }
    }
  }

  /** What the code for an expression may be: a value, or a memory made of stores. */
  ghost predicate Part(e: Expr) {
    Plain(e) || StoreTree(e)
  }

  lemma {:induction false} PartsOfPart(e: Expr, i: nat)
    requires Part(e) && i < |e.args|
    ensures Part(e.args[i])
  {
  }

  lemma {:induction false} PartCalls(e: Expr, c: Code)
    requires Part(e) && NoMemory(c.lut)
    ensures Calls(e) == CallsUpTo(e, |e.args|) + if e !in c.lut && MemOp(e) && !IsStore(e) then {e} else {}
  {
    if StoreTree(e) {
      CallsOfTree(e);
    } else {
      PlainCallsNothing(e);
      PlainArgsCallNothing(e, |e.args|);
    }
  }

  lemma {:induction false} PlainArgsCallNothing(e: Expr, n: nat)
    requires Plain(e) && n <= |e.args|
    ensures CallsUpTo(e, n) == {}
  {
    if n > 0 {
      PlainArgsCallNothing(e, n - 1);
      PlainCallsNothing(e.args[n - 1]);
    }
  }

  /** Every registered function and every function below it is registered. */
  ghost predicate Closed(registered: set<Expr>) {
    forall e :: e in registered ==> StoreTree(e) && MemOp(e) && Calls(e) <= registered
  }

  /** Every function a piece of code calls. */
  ghost function Called(stmts: seq<Stmt>): set<Expr> {
    if stmts == [] then {}
    else
      Called(stmts[..|stmts| - 1]) +
      match stmts[|stmts| - 1]
      case CallUpdate(e) => {e}
      case NewMemory(_, e) => {e}
      case Branch(_, yes, no) => Called(yes) + Called(no)
      case _ => {}
  }

  /** The memories that have a placeholder. */
  ghost function HeldIn(lut: map<Expr, Place>): set<Expr> {
    set x | x in lut && MemOp(x)
  }

  lemma {:induction false} ArgIsHeld(e: Expr, i: nat, c: Code)
    requires i < |e.args| && Renderable(e, HeldIn(c.lut))
    ensures var d := RenderArgs(e, i, c); e.args[i] in d.lut || Renderable(e.args[i], HeldIn(d.lut))
  {
    RenderArgsGrow(e, i, c);
    assert HeldIn(RenderArgs(e, i, c).lut) == HeldIn(c.lut);
  }

  /** A memory update is accepted if it loads from no operator, any other always. */
  ghost predicate Accepted(u: Update) {
    IsMemory(u) ==> forall k :: Within(k, u.next) ==> !LoadsFromOp(k)
  }

  lemma {:induction false} AcceptedIff(u: Update)
    ensures Accepted(u) <==> !(IsMemory(u) && HasLoadFromStore(u.next))
  {
    LoadIsFound(u.next);
  }

  ghost predicate AcceptedUpTo(us: seq<Update>, n: nat, registered: set<Expr>) {
    forall j :: 0 <= j < n && j < |us| ==> Accepted(us[j]) && (IsMemory(us[j]) ==> us[j].next in registered)
  }

  ghost predicate VisitedAre(us: seq<Update>, n: nat, visited: set<Expr>) {
    forall e :: e in visited <==> exists j :: 0 <= j < n && j < |us| && us[j].next == e
  }

  lemma {:induction false} VisitedMore(us: seq<Update>, n: nat, visited: set<Expr>)
    requires n < |us| && VisitedAre(us, n, visited)
    ensures VisitedAre(us, n + 1, visited + {us[n].next})
    ensures us[n].next in visited <==> Seen(us, n, us[n].next)
  {
    forall e ensures e in visited + {us[n].next} <==> exists j :: 0 <= j < n + 1 && j < |us| && us[j].next == e {
      if e in visited {
        var j :| 0 <= j < n && j < |us| && us[j].next == e;
        assert 0 <= j < n + 1;
      }
    }
  }

  lemma {:induction false} OneMoreAccepted(us: seq<Update>, n: nat, registered: set<Expr>, more: set<Expr>)
    requires n < |us| && AcceptedUpTo(us, n, registered) && registered <= more && Accepted(us[n])
    requires IsMemory(us[n]) ==> us[n].next in more
    ensures AcceptedUpTo(us, n + 1, more)
  {
  }

  lemma {:induction false} SeenIsAccepted(us: seq<Update>, n: nat, registered: set<Expr>)
    requires n < |us| && Seen(us, n, us[n].next) && AcceptedUpTo(us, n, registered)
    ensures AcceptedUpTo(us, n + 1, registered)
  {
    var j :| 0 <= j < n && us[j].next == us[n].next;
    assert Accepted(us[j]);
  }

  ghost predicate AllDeclared(lut: map<Expr, Place>, globals: set<Expr>, consts: set<Expr>) {
    forall e :: e in lut ==> (e.op.MemConst? ==> e in consts) && (lut[e].Global? ==> e in globals)
  }

  /** So for the tables of a memory function and of its two branches. */
  ghost predicate BodyDeclared(e: Expr, globals: set<Expr>, consts: set<Expr>) {
    if e.op == Ite && |e.args| == 3 then
      var cond := Render(e.args[0], Fresh(map[])).lut;
      && AllDeclared(cond, globals, consts)
      && AllDeclared(MemRender(e.args[1], Fresh(cond)).lut, globals, consts)
      && AllDeclared(MemRender(e.args[2], Fresh(cond)).lut, globals, consts)
    else AllDeclared(MemRender(e, Fresh(map[])).lut, globals, consts)
  }

  ghost predicate BodiesDeclared(es: set<Expr>, globals: set<Expr>, consts: set<Expr>) {
    forall e :: e in es ==> BodyDeclared(e, globals, consts)
  }

  lemma {:induction false} StillDeclared(e: Expr, globals: set<Expr>, consts: set<Expr>, globals2: set<Expr>, consts2: set<Expr>)
    requires BodyDeclared(e, globals, consts) && globals <= globals2 && consts <= consts2
    ensures BodyDeclared(e, globals2, consts2)
  {
  }

  lemma {:induction false} OneMoreDeclared(es: set<Expr>, e: Expr, globals: set<Expr>, consts: set<Expr>, globals2: set<Expr>, consts2: set<Expr>)
    requires BodiesDeclared(es, globals, consts) && globals <= globals2 && consts <= consts2 && BodyDeclared(e, globals2, consts2)
    ensures BodiesDeclared(es + {e}, globals2, consts2)
  {
    forall x | x in es ensures BodyDeclared(x, globals2, consts2) {
      StillDeclared(x, globals, consts, globals2, consts2);
    }
  }

  lemma {:induction false} NodeDeclared(e: Expr, c: Code, globals: set<Expr>, consts: set<Expr>)
    requires AllDeclared(c.lut, globals, consts)
    ensures AllDeclared(Node(e, c).lut, globals + if e !in c.lut && IsConcat(e) && !MemOp(e) then {e} else {},
                        consts + if e !in c.lut && e.op.MemConst? then {e} else {})
  {
  }

  class Ilator {
    var memoryUpdates: set<Expr>
    var globalVars: set<Expr>
    var constMems: set<Expr>

    constructor ()
      ensures memoryUpdates == {} && globalVars == {} && constMems == {}
    {
      memoryUpdates, globalVars, constMems := {}, {}, {};
    }

    method DfsVar(e: Expr, lut: map<Expr, Place>) returns (after: map<Expr, Place>)
      requires e.op.Var?
      ensures after == lut[e := Field(e.op.name, e.op.varSort)]
    {
      after := lut[e := Field(e.op.name, e.op.varSort)];
    }

    method DfsConst(e: Expr, c: Code) returns (d: Code)
      requires e !in c.lut && e.op.IsConst()
      modifies this`constMems
      ensures d == Node(e, c)
      ensures constMems == old(constMems) + if e.op.MemConst? then {e} else {}
    {
      var local := Local(|c.lut|);
      if e.op.MemConst? {
        constMems := constMems + {e};
      }
      d := Code(c.stmts + [ValueOf(e, c.lut)], c.lut[e := local], c.found && AllIn(e.args, c.lut));
    }

    method DfsOpMemory(e: Expr, c: Code) returns (d: Code)
      requires e !in c.lut && MemOp(e)
      modifies this`memoryUpdates
      ensures d == Node(e, c)
      ensures memoryUpdates == old(memoryUpdates) + if IsStore(e) then {} else {e}
    {
      if IsStore(e) {
        var found := c.found && AllIn(e.args[1..], c.lut);
        d := Code(c.stmts + [StoreTmp(At(e.args[1], c.lut), At(e.args[2], c.lut))], c.lut, found);
      } else {
        memoryUpdates := memoryUpdates + {e};
        d := c.(stmts := c.stmts + [CallUpdate(e)]);
      }
    }

    /** A concatenation is computed into a global variable, anything else into a new local. */
    method DfsOpSpecial(e: Expr, c: Code) returns (d: Code)
      requires e !in c.lut && e.op.IsOp() && !MemOp(e)
      modifies this`globalVars
      ensures d == Node(e, c)
      ensures globalVars == old(globalVars) + if IsConcat(e) then {e} else {}
    {
      var lut := c.lut[e := Local(|c.lut|)];
      if IsConcat(e) {
        lut := lut[e := Global(e)];
        globalVars := globalVars + {e};
      }
      var st := if FromPlaceholder(e) then LoadTmp(lut[e], At(e.args[0], c.lut), At(e.args[1], c.lut))
        else Compute(lut[e], e.op, Places(e.args, c.lut), SortOf(e));
      d := Code(c.stmts + [st], lut, c.found && AllIn(e.args, c.lut));
    }

    /** What the table refers to has a declaration: the constant memories and the global variables. */
    ghost predicate Declared(lut: map<Expr, Place>)
      reads this
    {
      AllDeclared(lut, globalVars, constMems)
    }

    /** Declarations are only added, and cover what a table has gained. */
    twostate predicate Declares(before: map<Expr, Place>, after: map<Expr, Place>)
      reads this
    {
      && old(globalVars) <= globalVars && old(constMems) <= constMems
      && (old(Declared(before)) ==> Declared(after))
    }

    method DfsExpr(e: Expr, c: Code) returns (d: Code)
      modifies this
      ensures d == Node(e, c) && Declares(c.lut, d.lut)
      ensures constMems == old(constMems) + if e !in c.lut && e.op.MemConst? then {e} else {}
      ensures globalVars == old(globalVars) + if e !in c.lut && IsConcat(e) && !MemOp(e) then {e} else {}
      ensures memoryUpdates == old(memoryUpdates) + if e !in c.lut && MemOp(e) && !IsStore(e) then {e} else {}
    {
      if Declared(c.lut) {
        NodeDeclared(e, c, globalVars, constMems);
      }
      d := c;
      if e !in c.lut {
        if e.op.Var? {
          var lut := DfsVar(e, c.lut);
          d := c.(lut := lut);
        } else if e.op.IsConst() {
          d := DfsConst(e, c);
        } else if MemOp(e) {
          d := DfsOpMemory(e, c);
        } else {
          d := DfsOpSpecial(e, c);
        }
      }
    }

    /** Render an expression; nothing is registered for one that loads from placeholders only, and
        for a store tree exactly its conditionals. */
    method RenderExpr(e: Expr, c: Code) returns (d: Code)
      modifies this
      ensures d == Render(e, c) && old(memoryUpdates) <= memoryUpdates && Declares(c.lut, d.lut)
      ensures e in c.lut || Renderable(e, HeldIn(c.lut)) ==> memoryUpdates == old(memoryUpdates)
      ensures Part(e) && NoMemory(c.lut) ==> memoryUpdates == old(memoryUpdates) + Calls(e) && NoMemory(d.lut)
      decreases e
    {
      if e in c.lut {
        if Part(e) && NoMemory(c.lut) {
          PlainCallsNothing(e);
        }
        return c;
      }
      d := c;
      for i := 0 to |e.args|
        invariant d == RenderArgs(e, i, c) && old(memoryUpdates) <= memoryUpdates && Declares(c.lut, d.lut)
        invariant Renderable(e, HeldIn(c.lut)) ==> memoryUpdates == old(memoryUpdates)
        invariant Part(e) && NoMemory(c.lut) ==> memoryUpdates == old(memoryUpdates) + CallsUpTo(e, i) && NoMemory(d.lut)
      {
        if Part(e) {
          PartsOfPart(e, i);
        }
        if Renderable(e, HeldIn(c.lut)) {
          ArgIsHeld(e, i, c);
        }
        d := RenderExpr(e.args[i], d);
      }
      if Part(e) && NoMemory(c.lut) {
        PartCalls(e, d);
      }
      d := DfsExpr(e, d);
    }

    /** Render the body of a memory function; a conditional below it is only called. */
    method RenderMemUpdate(e: Expr, c: Code) returns (d: Code)
      modifies this
      ensures d == MemRender(e, c)
      ensures old(memoryUpdates) <= memoryUpdates && Declares(c.lut, d.lut)
      ensures Part(e) && NoMemory(c.lut) ==> memoryUpdates <= old(memoryUpdates) + Calls(e) && NoMemory(d.lut)
      decreases e
    {
      if Part(e) && NoMemory(c.lut) {
        PartCalls(e, c);
      }
      if MemOp(e) && e.op == Ite {
        d := DfsExpr(e, c);
        return;
      }
      d := c;
      for i := 0 to |e.args|
        invariant d == MemRenderArgs(e, i, c)
        invariant old(memoryUpdates) <= memoryUpdates && Declares(c.lut, d.lut)
        invariant Part(e) && NoMemory(c.lut) ==> memoryUpdates <= old(memoryUpdates) + CallsUpTo(e, i) && NoMemory(d.lut)
      {
        if Part(e) {
          PartsOfPart(e, i);
        }
        d := RenderMemUpdate(e.args[i], d);
      }
      if Part(e) && NoMemory(c.lut) {
        PartCalls(e, d);
      }
      d := DfsExpr(e, d);
    }

    /** The update function of an instruction, or a refusal when a memory update loads from a
        memory operator.  Rendering each memory update once more into a buffer that is dropped
        registers the conditionals inside it. */
    method GenerateInstrContent(us: seq<Update>) returns (ok: bool, stmts: seq<Stmt>)
      modifies this
      ensures ok <==> forall j :: 0 <= j < |us| ==> Accepted(us[j])
      ensures ok ==> stmts == UpdateCode(us) && Declared(Prepare(us, |us|).lut)
      ensures old(memoryUpdates) <= memoryUpdates
      ensures ok ==> forall j :: 0 <= j < |us| && IsMemory(us[j]) ==> us[j].next in memoryUpdates
      ensures AllSupported(us) && old(Closed(memoryUpdates)) ==> Closed(memoryUpdates)
    {
      var c := Fresh(map[]);
      var visited: set<Expr> := {};
      stmts := [];
      for i := 0 to |us|
        invariant c == Prepare(us, i) && VisitedAre(us, i, visited) && Declares(map[], c.lut)
        invariant old(memoryUpdates) <= memoryUpdates && AcceptedUpTo(us, i, memoryUpdates)
        invariant AllSupported(us) && old(Closed(memoryUpdates)) ==> Closed(memoryUpdates)
      {
        ok, c := VisitUpdate(us, i, c, visited);
        if !ok {
          return;
        }
        visited := visited + {us[i].next};
      }
      stmts := GenerateCommits(us, c.lut);
      ok := true;
      stmts := c.stmts + stmts;
    }

    /** One update: passed over if its next value has been prepared, refused, or prepared. */
    method VisitUpdate(us: seq<Update>, i: nat, c: Code, visited: set<Expr>) returns (ok: bool, d: Code)
      requires i < |us| && c == Prepare(us, i) && VisitedAre(us, i, visited) && AcceptedUpTo(us, i, memoryUpdates)
      modifies this
      ensures ok <==> Accepted(us[i])
      ensures Declares(c.lut, d.lut)
      ensures ok ==> d == Prepare(us, i + 1) && VisitedAre(us, i + 1, visited + {us[i].next}) && AcceptedUpTo(us, i + 1, memoryUpdates)
      ensures old(memoryUpdates) <= memoryUpdates
      ensures AllSupported(us) && old(Closed(memoryUpdates)) ==> Closed(memoryUpdates)
    {
      VisitedMore(us, i, visited);
      AcceptedIff(us[i]);
      d := c;
      if us[i].next in visited {
        SeenIsAccepted(us, i, memoryUpdates);
        ok := true;
      } else if IsMemory(us[i]) && HasLoadFromStore(us[i].next) {
        ok := false;
      } else {
        if AllSupported(us) {
          HeldAreMemories(us, i);
        }
        ok := true;
        ghost var before := memoryUpdates;
        d := PrepareUpdate(us[i], c);
        OneMoreAccepted(us, i, before, memoryUpdates);
      }
    }

    method GenerateCommits(us: seq<Update>, lut: map<Expr, Place>) returns (stmts: seq<Stmt>)
      ensures stmts == Commits(us, |us|, lut)
    {
      stmts := [];
      for i := 0 to |us|
        invariant stmts == Commits(us, i, lut)
      {
        stmts := stmts + [CommitOne(us[i], lut)];
      }
    }

    method PrepareUpdate(u: Update, c: Code) returns (d: Code)
      modifies this
      ensures d == PrepareOne(u.next, c) && Declares(c.lut, d.lut)
      ensures old(memoryUpdates) <= memoryUpdates
      ensures IsMemory(u) ==> u.next in memoryUpdates
      ensures Supported(u, HeldIn(c.lut)) && old(Closed(memoryUpdates)) ==> Closed(memoryUpdates)
    {
      var e := u.next;
      if !SortOf(e).MemSort? {
        d := RenderExpr(e, c);
        d := d.(stmts := d.stmts + [Hold(At(e, d.lut))]);
      } else {
        d := Code(c.stmts + [NewMemory(Local(|c.lut|), e)], c.lut[e := Local(|c.lut|)], c.found);
        ghost var before := memoryUpdates;
        memoryUpdates := memoryUpdates + {e};
        var dropped := RenderExpr(e, Fresh(map[]));
        assert e.op.MemConst? ==> e in dropped.lut;
        if Supported(u, HeldIn(c.lut)) && old(Closed(memoryUpdates)) {
          StillClosed(before, e);
        }
      }
    }

    /** One function for each registered memory update; generating them registers nothing new. */
    method GenerateMemoryUpdate() returns (functions: map<Expr, seq<Stmt>>)
      requires Closed(memoryUpdates)
      modifies this
      ensures memoryUpdates == old(memoryUpdates)
      ensures functions.Keys == memoryUpdates
      ensures forall e :: e in functions ==> functions[e] == Body(e) && Called(functions[e]) <= functions.Keys
      ensures BodiesDeclared(functions.Keys, globalVars, constMems)
    {
      functions := map[];
      var todo := memoryUpdates;
      while todo != {}
        invariant memoryUpdates == old(memoryUpdates) && todo <= memoryUpdates
        invariant functions.Keys == memoryUpdates - todo
        invariant forall e :: e in functions ==> functions[e] == Body(e)
        invariant BodiesDeclared(functions.Keys, globalVars, constMems)
      {
        var e :| e in todo;
        ghost var globals, consts := globalVars, constMems;
        var body := GenerateBody(e);
        OneMoreDeclared(functions.Keys, e, globals, consts, globalVars, constMems);
        functions := functions[e := body];
        todo := todo - {e};
      }
      forall e | e in functions ensures Called(functions[e]) <= functions.Keys {
        BodyCalls(e);
      }
    }

    method GenerateBody(e: Expr) returns (body: seq<Stmt>)
      requires Closed(memoryUpdates) && e in memoryUpdates
      modifies this
      ensures memoryUpdates == old(memoryUpdates) && body == Body(e)
      ensures old(globalVars) <= globalVars && old(constMems) <= constMems && BodyDeclared(e, globalVars, constMems)
    {
      var empty := Fresh(map[]);
      if IsStore(e) {
        var c := RenderMemUpdate(e, empty);
        body := c.stmts;
      } else {
        PlainIsRenderable(e.args[0], HeldIn(empty.lut));
        var cond := RenderExpr(e.args[0], empty);
        var yes := RenderMemUpdate(e.args[1], Fresh(cond.lut));
        var no := RenderMemUpdate(e.args[2], Fresh(cond.lut));
        body := cond.stmts + [Branch(At(e.args[0], cond.lut), yes.stmts, no.stmts)];
      }
    }
  }

  lemma {:induction false} HeldAreMemories(us: seq<Update>, n: nat)
    requires n < |us| && AllSupported(us)
    ensures HeldIn(Prepare(us, n).lut) == Memories(us, n) && Supported(us[n], Memories(us, n))
  {
    PrepareHolds(us, n);
  }

  /** What a conditional below a tree calls, the tree calls too. */
  lemma {:induction false} CallsAreTrees(e: Expr)
    requires StoreTree(e)
    ensures forall x :: x in Calls(e) ==> StoreTree(x) && MemOp(x) && Calls(x) <= Calls(e)
  {
    match e.op
    case Store => CallsAreTrees(e.args[0]);
    case Ite =>
      CallsAreTrees(e.args[1]);
      CallsAreTrees(e.args[2]);
    case _ =>
  }

  lemma {:induction false} StillClosed(before: set<Expr>, e: Expr)
    requires Closed(before) && StoreTree(e) && MemOp(e)
    ensures Closed(before + {e} + Calls(e))
  {
    CallsAreTrees(e);
  }

  lemma {:induction false} NodeCalls(e: Expr, c: Code)
    ensures Called(Node(e, c).stmts) <= Called(c.stmts) + if MemOp(e) && !IsStore(e) then {e} else {}
  {
    var d := Node(e, c);
    if d.stmts != c.stmts {
      assert d.stmts[..|d.stmts| - 1] == c.stmts;
    }
  }

  lemma {:induction false} SmallerStill(a: set<Expr>, b: set<Expr>, c: set<Expr>)
    requires a <= b <= c
    ensures a <= c
  {
  }

  lemma {:induction false} RenderCalls(e: Expr, c: Code)
    requires Plain(e)
    ensures Called(Render(e, c).stmts) <= Called(c.stmts)
    decreases e, |e.args| + 1
  {
    if e !in c.lut {
      RenderArgsCalls(e, |e.args|, c);
      NodeCalls(e, RenderArgs(e, |e.args|, c));
    }
  }

  lemma {:induction false} RenderArgsCalls(e: Expr, n: nat, c: Code)
    requires Plain(e) && n <= |e.args|
    ensures Called(RenderArgs(e, n, c).stmts) <= Called(c.stmts)
    decreases e, n
  {
    if n > 0 {
      var d, a := RenderArgs(e, n - 1, c), e.args[n - 1];
      RenderArgsCalls(e, n - 1, c);
      RenderCalls(a, d);
      SmallerStill(Called(Render(a, d).stmts), Called(d.stmts), Called(c.stmts));
    }
  }

  lemma {:induction false} MemRenderCalls(e: Expr, c: Code)
    requires Part(e)
    ensures Called(MemRender(e, c).stmts) <= Called(c.stmts) + Calls(e)
    decreases e, |e.args| + 1
  {
    PartCalls(e, Fresh(map[]));
    if MemOp(e) && e.op == Ite {
      NodeCalls(e, c);
    } else {
      MemRenderArgsCalls(e, |e.args|, c);
      NodeCalls(e, MemRenderArgs(e, |e.args|, c));
    }
  }

  lemma {:induction false} MemRenderArgsCalls(e: Expr, n: nat, c: Code)
    requires Part(e) && n <= |e.args|
    ensures Called(MemRenderArgs(e, n, c).stmts) <= Called(c.stmts) + CallsUpTo(e, n)
    decreases e, n
  {
    if n > 0 {
      PartsOfPart(e, n - 1);
      MemRenderArgsCalls(e, n - 1, c);
      MemRenderNextCalls(e, n, MemRenderArgs(e, n - 1, c), Called(c.stmts));
    }
  }

  lemma {:induction false} MemRenderNextCalls(e: Expr, n: nat, d: Code, before: set<Expr>)
    requires Part(e) && 0 < n <= |e.args| && Called(d.stmts) <= before + CallsUpTo(e, n - 1)
    ensures Called(MemRender(e.args[n - 1], d).stmts) <= before + CallsUpTo(e, n)
    decreases e, n, 0
  {
    PartsOfPart(e, n - 1);
    MemRenderCalls(e.args[n - 1], d);
  }

  /** The body of a function calls conditionals of its tree only. */
  lemma {:induction false} BodyCalls(e: Expr)
    requires StoreTree(e) && MemOp(e)
    ensures Called(Body(e)) <= Calls(e)
  {
    var none := Fresh(map[]);
    if e.op == Ite {
      var cond := Render(e.args[0], none);
      var rest := Fresh(cond.lut);
      RenderCalls(e.args[0], none);
      MemRenderCalls(e.args[1], rest);
      MemRenderCalls(e.args[2], rest);
    } else {
      MemRenderCalls(e, none);
    }
  }
}
