/** The table of uninterpreted functions in the portable form: written once for each application, read
    into one function for each number. */
module PortableFuncs {
  import opened Expressions

  /** A function with the number its symbol received when it was built. */
  datatype Func = Func(id: nat, name: string, out: Sort, args: seq<Sort>)

  /** The same function up to its number. */
  ghost predicate LikeFunc(g: Func, f: Func) {
    g.name == f.name && g.out == f.out && g.args == f.args
  }

  /** Functions with one number are one function. */
  ghost predicate OneEach(fs: seq<Func>) {
    forall i, j :: 0 <= i < |fs| && 0 <= j < |fs| && fs[i].id == fs[j].id ==> fs[i] == fs[j]
  }

  function IdsOf(fs: seq<Func>): set<nat> {
    set f | f in fs :: f.id
  }

  /** The serializer looks a function up in an index of those it has written, but enters none. */
  class FuncSer {
    var funcIdIdx: map<nat, nat>
    var funcArr: seq<Func>

    constructor ()
      ensures Valid() && funcIdIdx == map[] && funcArr == []
    {
      funcIdIdx, funcArr := map[], [];
    }

    ghost predicate Valid()
      reads this
    {
      forall i :: i in funcIdIdx ==> funcIdIdx[i] < |funcArr| && funcArr[funcIdIdx[i]].id == i
    }

    method SerFunc(f: Func) returns (j: Func)
      requires Valid()
      modifies this`funcArr
      ensures Valid() && j.id == f.id
      ensures if f.id in funcIdIdx then funcArr == old(funcArr) else funcArr == old(funcArr) + [f] && j == f
    {
      if f.id in funcIdIdx {
        return funcArr[funcIdIdx[f.id]];
      }
      j := f;
      funcArr := funcArr + [j];
    }

    /** Since the index stays empty, every application writes its function again. */
    method SerFuncs(fs: seq<Func>)
      requires Valid() && funcIdIdx == map[]
      modifies this`funcArr
      ensures Valid() && funcArr == old(funcArr) + fs
    {
      for i := 0 to |fs|
        invariant Valid() && funcArr == old(funcArr) + fs[..i]
      {
        var _ := SerFunc(fs[i]);
      }
      assert fs[..|fs|] == fs;
    }
  }

  /** The deserializer builds a function the first time it meets a number. */
  class FuncDes {
    var idFunc: map<nat, Func>
    var next: nat

    constructor (next: nat)
      ensures Valid() && idFunc == map[] && this.next == next
    {
      idFunc, this.next := map[], next;
    }

    /** No function has been built for two numbers, and none after the next one. */
    ghost predicate Valid()
      reads this
    {
      && (forall i :: i in idFunc ==> idFunc[i].id < next)
      && forall i, j :: i in idFunc && j in idFunc && i != j ==> idFunc[i].id != idFunc[j].id
    }

    method DesFunc(j: Func) returns (f: Func)
      requires Valid()
      modifies this
      ensures Valid() && idFunc.Keys == old(idFunc).Keys + {j.id} && f == idFunc[j.id]
      ensures j.id in old(idFunc) ==> idFunc == old(idFunc) && next == old(next)
      ensures j.id !in old(idFunc) ==> LikeFunc(f, j) && idFunc == old(idFunc)[j.id := f] && next == old(next) + 1
    {
      if j.id in idFunc {
        return idFunc[j.id];
      }
      f := Func(next, j.name, j.out, j.args);
      next := next + 1;
      idFunc := idFunc[j.id := f];
    }

    /** Reading an array, with repetitions, builds exactly one function for each number in it, like
        the one written. */
    method DesFuncs(arr: seq<Func>)
      requires Valid() && idFunc == map[] && OneEach(arr)
      modifies this
      ensures Valid() && idFunc.Keys == IdsOf(arr) && next == old(next) + |IdsOf(arr)|
      ensures forall f :: f in arr ==> Has(idFunc, f)
    {
      for i := 0 to |arr|
        invariant Valid() && Built(arr, i, idFunc) && next == old(next) + |idFunc|
      {
        DesNext(arr, i);
      }
      assert arr[..|arr|] == arr;
      assert |idFunc| == |idFunc.Keys|;
    }

    method DesNext(arr: seq<Func>, i: nat)
      requires Valid() && OneEach(arr) && i < |arr| && Built(arr, i, idFunc)
      modifies this
      ensures Valid() && Built(arr, i + 1, idFunc) && next - |idFunc| == old(next) - old(|idFunc|)
    {
      ghost var before := idFunc;
      IdsMore(arr, i);
      if arr[i].id in idFunc {
        KnownFunc(arr, i);
      }
      var f := DesFunc(arr[i]);
      SizeOf(idFunc, before, arr[i].id);
    }
  }

  /** The functions of the first entries have been built. */
  ghost predicate Built(arr: seq<Func>, n: nat, idFunc: map<nat, Func>) {
    n <= |arr| && idFunc.Keys == IdsOf(arr[..n]) && forall k :: 0 <= k < n ==> Has(idFunc, arr[k])
  }

  ghost predicate Has(idFunc: map<nat, Func>, f: Func) {
    f.id in idFunc && LikeFunc(idFunc[f.id], f)
  }

  lemma {:induction false} IdsMore(arr: seq<Func>, n: nat)
    requires n < |arr|
    ensures IdsOf(arr[..n + 1]) == IdsOf(arr[..n]) + {arr[n].id}
  {
    assert arr[..n + 1] == arr[..n] + [arr[n]];
    forall i | i in IdsOf(arr[..n]) + {arr[n].id} ensures i in IdsOf(arr[..n + 1]) {
      var f :| f in arr[..n] + [arr[n]] && f.id == i;
    }
  }

  lemma {:induction false} KnownFunc(arr: seq<Func>, i: nat)
    requires i < |arr| && OneEach(arr) && arr[i].id in IdsOf(arr[..i])
    ensures exists k :: 0 <= k < i && arr[k] == arr[i]
  {
    var f :| f in arr[..i] && f.id == arr[i].id;
    var k :| 0 <= k < i && arr[..i][k] == f;
    assert arr[k].id == arr[i].id;
  }

  lemma {:induction false} SizeOf(after: map<nat, Func>, before: map<nat, Func>, id: nat)
    requires after.Keys == before.Keys + {id}
    ensures |after| == if id in before then |before| else |before| + 1
  {
    assert |after| == |after.Keys| && |before| == |before.Keys|;
    if id in before {
      assert after.Keys == before.Keys;
    }
  }

  /** Writing the functions of all applications and reading them back gives each application a function
      like its own, and two applications the same one exactly if they had the same. */
  method RoundTripFuncs(fs: seq<Func>, next: nat) returns (table: map<nat, Func>)
    requires OneEach(fs)
    ensures table.Keys == IdsOf(fs)
    ensures forall f :: f in fs ==> Has(table, f)
    ensures forall f, g :: f in fs && g in fs ==> (table[f.id].id == table[g.id].id <==> f == g)
  {
    var ser := new FuncSer();
    ser.SerFuncs(fs);
    assert ser.funcArr == fs;
    var des := new FuncDes(next);
    des.DesFuncs(ser.funcArr);
    table := des.idFunc;
    forall f, g | f in fs && g in fs ensures table[f.id].id == table[g.id].id <==> f == g {
      var i :| 0 <= i < |fs| && fs[i] == f;
      var j :| 0 <= j < |fs| && fs[j] == g;
      assert fs[i].id == fs[j].id ==> fs[i] == fs[j];
    }
  }
}
