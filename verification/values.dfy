/** The values that EEL registers, argument slots and containers hold. */
module Values {

  datatype Option<+T> = None | Some(value: T)

  /** The part of a function object that the VM consults when it calls the function.
      `parent` is the function it is declared inside, and `need` is the number of enclosing
      functions whose variables it, or any function nested in it, may reach as upvalues.
      `defaults` has the values of optional arguments that are not passed. */
  datatype Function = Function(
    id: nat,
    native: bool,
    results: bool,
    reqargs: nat,
    optargs: nat,
    tupargs: nat,
    framesize: nat,
    cleansize: nat,
    parent: Option<Function>,
    need: nat,
    defaults: seq<Option<int>>)

  /** What the compiler guarantees about a function: byte-sized limits, and an enclosing
      function for every level of upvalues that it declares a need for. */
  predicate WellFormedFunction(f: Function) {
    && f.framesize <= 255 && f.cleansize <= 255
    && (f.native ==> f.need == 0)
    && (f.need > 0 ==>
          && f.parent.Some?
          && !f.parent.value.native
          && f.need - 1 <= f.parent.value.need
          && WellFormedFunction(f.parent.value))
  }

  /** `get_optarg_default`. */
  function DefaultOf(f: Function, arg: nat): Option<int> {
    var n := arg - f.reqargs;
    if 0 <= n < f.optargs && n < |f.defaults| then f.defaults[n] else None
  }

  /** The n-th lexical ancestor of `f`. */
  function Ancestor(f: Function, n: nat): (r: Option<Function>)
    ensures WellFormedFunction(f) && n <= f.need ==>
              r.Some? && WellFormedFunction(r.value) && f.need - n <= r.value.need
    ensures WellFormedFunction(f) && 0 < n <= f.need ==> !r.value.native
    decreases n
  {
    if n == 0 then Some(f)
    else if f.parent.None? then None
    else Ancestor(f.parent.value, n - 1)
  }

  /** Objects are numbered in order of creation; a number is never used again. */
  type Obj = nat

  /** `Scalar` stands for boolean values and class ids, which are numbers with another tag. `Callable`
      refers to a function object, which its module keeps alive. */
  datatype Value =
    | Nil
    | Integer(i: int)
    | Real(x: real)
    | Scalar(tag: nat, bits: int)
    | Callable(f: Function)
    | Ref(o: Obj)

  /** How many of the values are strong references to `o`. */
  function Count(vs: seq<Value>, o: Obj): nat {
    if vs == [] then 0 else Is(vs[0], o) + Count(vs[1..], o)
  }

  function Is(v: Value, o: Obj): nat {
    if v == Ref(o) then 1 else 0
  }

  /** The two lists hold the same references, each the same number of times. */
  ghost predicate SameRefs(a: seq<Value>, b: seq<Value>) {
    forall o: Obj :: Count(a, o) == Count(b, o)
  }

  function AsRefs(os: seq<Obj>): (r: seq<Value>)
    ensures |r| == |os|
    ensures forall i :: 0 <= i < |os| ==> r[i] == Ref(os[i])
  {
    if os == [] then [] else [Ref(os[0])] + AsRefs(os[1..])
  }

  lemma {:induction false} CountAppend(a: seq<Value>, b: seq<Value>, o: Obj)
    ensures Count(a + b, o) == Count(a, o) + Count(b, o)
  {
    if a == [] {
      assert a + b == b;
    } else {
      CountAppend(a[1..], b, o);
      assert (a + b)[1..] == a[1..] + b;
    }
  }

  lemma CountAppendAll(a: seq<Value>, b: seq<Value>)
    ensures forall o: Obj :: Count(a + b, o) == Count(a, o) + Count(b, o)
  {
    forall o: Obj { CountAppend(a, b, o); }
  }

  lemma CountPush(a: seq<Value>, v: Value)
    ensures forall o: Obj :: Count(a + [v], o) == Count(a, o) + Is(v, o)
  {
    forall o: Obj ensures Count(a + [v], o) == Count(a, o) + Is(v, o) {
      CountAppend(a, [v], o);
      assert Count([v], o) == Is(v, o) + Count([v][1..], o);
    }
  }

  lemma {:induction false} CountUpdate(vs: seq<Value>, i: nat, v: Value, o: Obj)
    requires i < |vs|
    ensures Count(vs[i := v], o) + Is(vs[i], o) == Count(vs, o) + Is(v, o)
  {
    if i > 0 {
      CountUpdate(vs[1..], i - 1, v, o);
      assert vs[i := v][1..] == vs[1..][i - 1 := v];
    } else {
      assert vs[i := v][1..] == vs[1..];
    }
  }

  lemma {:induction false} CountPositive(vs: seq<Value>, o: Obj)
    ensures Count(vs, o) > 0 <==> Ref(o) in vs
  {
    if vs != [] {
      CountPositive(vs[1..], o);
    }
  }

  lemma AsRefsAppend(a: seq<Obj>, b: seq<Obj>)
    ensures AsRefs(a + b) == AsRefs(a) + AsRefs(b)
  {
    assert AsRefs(a + b) == AsRefs(a) + AsRefs(b);
  }

  lemma CountCons(v: Value, vs: seq<Value>, o: Obj)
    ensures Count([v] + vs, o) == Is(v, o) + Count(vs, o)
  {
    assert ([v] + vs)[1..] == vs;
  }

  lemma CountAsRefsCons(o: Obj, os: seq<Obj>)
    ensures forall x: Obj :: Count(AsRefs([o] + os), x) == Is(Ref(o), x) + Count(AsRefs(os), x)
  {
    assert AsRefs([o] + os) == [Ref(o)] + AsRefs(os);
    forall x: Obj ensures Count(AsRefs([o] + os), x) == Is(Ref(o), x) + Count(AsRefs(os), x) {
      CountCons(Ref(o), AsRefs(os), x);
    }
  }

  lemma CountUpdateAll(vs: seq<Value>, i: nat, v: Value)
    requires i < |vs|
    ensures forall o: Obj :: Count(vs[i := v], o) + Is(vs[i], o) == Count(vs, o) + Is(v, o)
  {
    forall o: Obj ensures Count(vs[i := v], o) + Is(vs[i], o) == Count(vs, o) + Is(v, o) {
      CountUpdate(vs, i, v, o);
    }
  }

  lemma CountRemove(vs: seq<Value>, i: nat, o: Obj)
    requires i < |vs|
    ensures Count(vs[..i] + vs[i + 1..], o) + Is(vs[i], o) == Count(vs, o)
  {
    CountAppend(vs[..i], vs[i + 1..], o);
    CountAppend(vs[..i], vs[i..], o);
    assert vs[..i] + vs[i..] == vs && vs[i..][1..] == vs[i + 1..];
  }

  lemma {:induction false} CountAsRefs(os: seq<Obj>, o: Obj)
    ensures Count(AsRefs(os), o) > 0 <==> o in os
  {
    if os != [] {
      CountAsRefs(os[1..], o);
      assert AsRefs(os)[1..] == AsRefs(os[1..]);
    }
  }
}
