/** What becomes of containers and weak references together when a reference is given up: an object
    that has lost its last owner disowns its own slots, one after the other, and after that the weak
    references to it are cleared (`eel_v_disown_nz`, `eel_o__dispose`, `eel_o__destruct` and the
    destructors of arrays and tables). */
module NestedDestruction {
  import opened Values
  import opened WeakReferences
  import opened SlotAccounting

  /** The slots of each container. */
  type Contents = map<Obj, seq<Addr>>

  function SlotsOf(contents: Contents, o: Obj): seq<Addr> {
    if o in contents then contents[o] else []
  }

  /** What is still to be done: a slot is disowned and given up, or the weak references to an object
      are cleared. */
  datatype Task = Drop(a: Addr) | Clear(o: Obj)

  function Drops(slots: seq<Addr>): (r: seq<Task>)
    ensures |r| == |slots| && forall i :: 0 <= i < |slots| ==> r[i] == Task.Drop(slots[i])
  {
    seq(|slots|, i requires 0 <= i < |slots| => Task.Drop(slots[i]))
  }

  /** The destruction of an object. */
  function Destruct(contents: Contents, o: Obj): seq<Task> {
    Drops(SlotsOf(contents, o)) + [Clear(o)]
  }

  /** One slot is disowned and given up. If that was the last owner of an object then its destruction
      is next. */
  function DropSlot(v: View, contents: Contents, a: Addr): (View, seq<Task>)
    requires a in v.content
  {
    var rest := v.content - {a};
    match v.content[a]
    case IStrong(o) =>
      if Rc(v, o) == 0 then (v.(content := rest), [])
      else (View(rest, v.rc[o := Rc(v, o) - 1]), if Rc(v, o) == 1 then Destruct(contents, o) else [])
    case _ => (v.(content := rest), [])
  }

  function Perform(v: View, contents: Contents, tasks: seq<Task>): (r: View)
    ensures r.content.Keys <= v.content.Keys
    decreases |v.content|, |tasks|
  {
    if tasks == [] then v
    else
      match tasks[0]
      case Drop(a) =>
        if a !in v.content then Perform(v, contents, tasks[1..])
        else
          var (v1, more) := DropSlot(v, contents, a);
          OneLess(v, contents, a);
          Perform(v1, contents, more + tasks[1..])
      case Clear(o) =>
        SameSize(v.content, Killed(v.content, o));
        Perform(v.(content := Killed(v.content, o)), contents, tasks[1..])
  }

  lemma OneLess(v: View, contents: Contents, a: Addr)
    requires a in v.content
    ensures |DropSlot(v, contents, a).0.content| < |v.content|
  {
    var rest := v.content - {a};
    assert rest.Keys == v.content.Keys - {a};
    assert |rest| == |rest.Keys| && |v.content| == |v.content.Keys|;
  }

  lemma SameSize(m: map<Addr, Item>, m': map<Addr, Item>)
    requires m.Keys == m'.Keys
    ensures |m| == |m'|
  {
    assert |m| == |m.Keys| && |m'| == |m'.Keys|;
  }

  lemma {:induction false} PerformAppend(v: View, contents: Contents, p: seq<Task>, q: seq<Task>)
    ensures Perform(v, contents, p + q) == Perform(Perform(v, contents, p), contents, q)
    decreases |v.content|, |p|
  {
    hide DropSlot;
    if p == [] {
      assert p + q == q;
    } else {
      assert (p + q)[1..] == p[1..] + q;
      match p[0]
      case Drop(a) =>
        if a !in v.content {
          PerformAppend(v, contents, p[1..], q);
        } else {
          var (v1, more) := DropSlot(v, contents, a);
          OneLess(v, contents, a);
          PerformAppend(v1, contents, more + p[1..], q);
          assert more + (p[1..] + q) == (more + p[1..]) + q;
        }
      case Clear(o) =>
        SameSize(v.content, Killed(v.content, o));
        PerformAppend(v.(content := Killed(v.content, o)), contents, p[1..], q);
    }
  }

  // ---------------------------------------------------------------------------------------
  // The invariant
  // ---------------------------------------------------------------------------------------

  /** No reference count is too low: it is the number of slots that own the object, and of its owners
      elsewhere. */
  ghost predicate Counted(v: View) {
    forall o: Obj :: OtherOwners(v, o) >= 0
  }

  /** The owners elsewhere are the same. */
  ghost predicate SameOthers(v: View, w: View) {
    forall o: Obj :: OtherOwners(w, o) == OtherOwners(v, o)
  }

  lemma SameOthersOn(u: View, v: View, w: View)
    requires SameOthers(u, v) && SameOthers(v, w)
    ensures SameOthers(u, w)
  {
    hide OtherOwners;
  }

  /** No weak reference outlives its object, once what is to be done is done. */
  ghost predicate NoneDangling(v: View, tasks: seq<Task>) {
    forall a :: a in v.content && v.content[a].IWeak? ==> Rc(v, v.content[a].o) > 0 || Clear(v.content[a].o) in tasks
  }

  /** Containers do not share slots. Those of live ones are in use, and none of those of dead ones is,
      once what is to be done is done. */
  ghost predicate Housed(v: View, contents: Contents, tasks: seq<Task>) {
    && (forall o, a :: o in contents && a in contents[o] && Rc(v, o) > 0 ==>
          a in v.content && Task.Drop(a) !in tasks)
    && (forall o, a :: o in contents && a in contents[o] && Rc(v, o) == 0 && a in v.content ==> Task.Drop(a) in tasks)
  }

  ghost predicate Apart(contents: Contents) {
    && (forall o, p, a :: o in contents && p in contents && a in contents[o] && a in contents[p] ==> o == p)
    && (forall o :: o in contents ==> NoRepeats(contents[o]))
  }

  predicate NoRepeats(slots: seq<Addr>) {
    forall i, j :: 0 <= i < j < |slots| ==> slots[i] != slots[j]
  }

  /** Slots that are to be given up are in use, and listed once. Only dead objects are cleared. */
  ghost predicate TasksOk(v: View, tasks: seq<Task>) {
    && (forall t :: t in tasks && t.Drop? ==> t.a in v.content)
    && (forall t :: t in tasks && t.Clear? ==> Rc(v, t.o) == 0)
    && (forall i, j :: 0 <= i < j < |tasks| && tasks[i].Drop? ==> tasks[i] != tasks[j])
  }

  ghost predicate NestedOk(v: View, contents: Contents, tasks: seq<Task>) {
    Apart(contents) && Counted(v) && NoneDangling(v, tasks) && Housed(v, contents, tasks) && TasksOk(v, tasks)
  }

  // ---------------------------------------------------------------------------------------
  // Every step keeps it
  // ---------------------------------------------------------------------------------------

  lemma DropCounts(v: View, contents: Contents, a: Addr)
    requires Counted(v) && a in v.content
    ensures Counted(DropSlot(v, contents, a).0) && SameOthers(v, DropSlot(v, contents, a).0)
    ensures v.content[a].IStrong? ==> Rc(v, v.content[a].o) > 0
  {
    var v1 := DropSlot(v, contents, a).0;
    if v.content[a].IStrong? {
      assert OtherOwners(v, v.content[a].o) >= 0 && a in Owners(v.content, v.content[a].o);
    }
    forall o: Obj ensures OtherOwners(v1, o) == OtherOwners(v, o) { OwnersDrop(v.content, a, o); }
  }

  lemma DropOk(v: View, contents: Contents, a: Addr, rest: seq<Task>)
    requires NestedOk(v, contents, [Task.Drop(a)] + rest)
    ensures a in v.content && NestedOk(DropSlot(v, contents, a).0, contents, DropSlot(v, contents, a).1 + rest)
    ensures SameOthers(v, DropSlot(v, contents, a).0)
  {
    hide Counted, SameOthers;
    var tasks := [Task.Drop(a)] + rest;
    assert tasks[0] in tasks;
    DropCounts(v, contents, a);
    var (v1, more) := DropSlot(v, contents, a);
    assert Task.Drop(a) !in rest by { assert forall j :: 0 <= j < |rest| ==> tasks[j + 1] == rest[j]; }
    DropDangling(v, contents, a, rest);
    DropHoused(v, contents, a, rest);
    DropTasks(v, contents, a, rest);
  }

  lemma DropDangling(v: View, contents: Contents, a: Addr, rest: seq<Task>)
    requires a in v.content && NoneDangling(v, [Task.Drop(a)] + rest)
    ensures NoneDangling(DropSlot(v, contents, a).0, DropSlot(v, contents, a).1 + rest)
  {
    var (v1, more) := DropSlot(v, contents, a);
    forall b | b in v1.content && v1.content[b].IWeak?
      ensures Rc(v1, v1.content[b].o) > 0 || Clear(v1.content[b].o) in more + rest
    {
      var o := v1.content[b].o;
      assert v.content[b] == v1.content[b];
      if v.content[a] == IStrong(o) && Rc(v, o) == 1 {
        assert more[|more| - 1] == Clear(o) && (more + rest)[|more| - 1] == Clear(o);
      } else if Rc(v, o) == 0 {
        assert Clear(o) in [Task.Drop(a)] + rest && Clear(o) in rest;
      }
    }
  }

  /** The item refers to a container that has the slot. */
  predicate Holds(contents: Contents, i: Item, a: Addr) {
    i.IStrong? && a in SlotsOf(contents, i.o)
  }

  /** What is to be done next is the destruction of the object that has lost its last owner, if there
      is one. */
  lemma NextTasks(v: View, contents: Contents, a: Addr)
    requires a in v.content
    ensures var more := DropSlot(v, contents, a).1;
      && (more != [] ==> v.content[a].IStrong? && Rc(v, v.content[a].o) == 1)
      && (forall t :: t in more && t.Drop? ==> Holds(contents, v.content[a], t.a))
      && (forall t :: t in more && t.Clear? ==> v.content[a] == IStrong(t.o))
  {
  }

  lemma DropHoused(v: View, contents: Contents, a: Addr, rest: seq<Task>)
    requires a in v.content && Apart(contents) && Housed(v, contents, [Task.Drop(a)] + rest) && Task.Drop(a) !in rest
    requires v.content[a].IStrong? ==> Rc(v, v.content[a].o) > 0
    ensures Housed(DropSlot(v, contents, a).0, contents, DropSlot(v, contents, a).1 + rest)
  {
    var (v1, more) := DropSlot(v, contents, a);
    var tasks := [Task.Drop(a)] + rest;
    NextTasks(v, contents, a);
    forall o, b | o in contents && b in contents[o] && Rc(v1, o) > 0
      ensures b in v1.content && Task.Drop(b) !in more + rest
    {
      assert Rc(v, o) > 0 && Task.Drop(b) !in tasks;
      assert tasks[0] == Task.Drop(a) && b != a && Task.Drop(b) !in rest;
      assert Task.Drop(b) in more ==> Holds(contents, v.content[a], b);
    }
    forall o, b | o in contents && b in contents[o] && Rc(v1, o) == 0 && b in v1.content
      ensures Task.Drop(b) in more + rest
    {
      if Rc(v, o) == 0 {
        assert Task.Drop(b) in tasks && b != a;
        assert Task.Drop(b) in rest;
      } else {
        var i :| 0 <= i < |contents[o]| && contents[o][i] == b;
        assert more[i] == Task.Drop(b);
        assert (more + rest)[i] == Task.Drop(b);
      }
    }
  }

  lemma DropTasks(v: View, contents: Contents, a: Addr, rest: seq<Task>)
    requires a in v.content && Apart(contents) && Task.Drop(a) !in rest
    requires Housed(v, contents, [Task.Drop(a)] + rest) && TasksOk(v, [Task.Drop(a)] + rest)
    ensures TasksOk(DropSlot(v, contents, a).0, DropSlot(v, contents, a).1 + rest)
  {
    hide Housed, Apart, TasksOk, DropSlot, NoRepeats;
    var tasks := [Task.Drop(a)] + rest;
    RestOk(v, Task.Drop(a), rest);
    assert tasks[0] in tasks;
    forall t | t in rest ensures t in tasks { LaterTask(Task.Drop(a), rest, t); }
    FreshTasks(v, contents, a, tasks);
    var (v1, more) := DropSlot(v, contents, a);
    DroppedView(v, contents, a);
    TasksApart(contents, v.content[a], more, rest);
    TasksJoin(v, v1, a, more, rest);
  }

  lemma LaterTask(first: Task, rest: seq<Task>, t: Task)
    requires t in rest
    ensures t in [first] + rest
  {
    var j :| 0 <= j < |rest| && rest[j] == t;
    assert ([first] + rest)[j + 1] == t;
  }

  lemma RestOk(v: View, first: Task, rest: seq<Task>)
    requires TasksOk(v, [first] + rest)
    ensures TasksOk(v, rest)
  {
    var tasks := [first] + rest;
    forall t | t in rest ensures t in tasks { LaterTask(first, rest, t); }
    forall i, j | 0 <= i < j < |rest| && rest[i].Drop? ensures rest[i] != rest[j] {
      assert tasks[i + 1] == rest[i] && tasks[j + 1] == rest[j];
    }
  }

  /** What giving up a slot does to the slots and the counts. */
  lemma DroppedView(v: View, contents: Contents, a: Addr)
    requires a in v.content
    ensures var (v1, more) := DropSlot(v, contents, a);
      && v1.content == v.content - {a}
      && (more != [] ==> v.content[a].IStrong? && more == Destruct(contents, v.content[a].o))
      && (forall o: Obj :: Rc(v1, o) == if v.content[a] == IStrong(o) && Rc(v, o) > 0 then Rc(v, o) - 1 else Rc(v, o))
  {
  }

  lemma TasksJoin(v: View, v1: View, a: Addr, more: seq<Task>, rest: seq<Task>)
    requires a in v.content && v1.content == v.content - {a} && Task.Drop(a) !in rest && TasksOk(v, rest)
    requires forall o: Obj ::
      Rc(v1, o) == if v.content[a] == IStrong(o) && Rc(v, o) > 0 then Rc(v, o) - 1 else Rc(v, o)
    requires forall t :: t in more && t.Drop? ==> t.a in v.content && t.a != a
    requires forall t :: t in more && t.Clear? ==> v.content[a] == IStrong(t.o) && Rc(v, t.o) == 1
    requires var next := more + rest; forall i, j :: 0 <= i < j < |next| && next[i].Drop? ==> next[i] != next[j]
    ensures TasksOk(v1, more + rest)
  {
    hide Rc;
    forall t | t in more + rest
      ensures (t.Drop? ==> t.a in v1.content) && (t.Clear? ==> Rc(v1, t.o) == 0)
    {
      assert t in more || t in rest;
    }
  }

  /** The slots of the object that has lost its last owner are in use, and were not to be given up. */
  lemma FreshTasks(v: View, contents: Contents, a: Addr, tasks: seq<Task>)
    requires a in v.content && Housed(v, contents, tasks) && Task.Drop(a) in tasks
    ensures var more := DropSlot(v, contents, a).1;
      && (forall t :: t in more && t.Drop? ==> t.a in v.content && t.a != a && t !in tasks)
      && (forall t :: t in more && t.Clear? ==> v.content[a] == IStrong(t.o) && Rc(v, t.o) == 1)
  {
    NextTasks(v, contents, a);
  }

  lemma TasksApart(contents: Contents, i: Item, more: seq<Task>, rest: seq<Task>)
    requires Apart(contents)
    requires more == [] || (i.IStrong? && more == Destruct(contents, i.o))
    requires forall t :: t in more && t.Drop? ==> t !in rest
    requires forall i, j :: 0 <= i < j < |rest| && rest[i].Drop? ==> rest[i] != rest[j]
    ensures var next := more + rest;
      forall i, j :: 0 <= i < j < |next| && next[i].Drop? ==> next[i] != next[j]
  {
    var next := more + rest;
    forall i, j | 0 <= i < j < |next| && next[i].Drop? ensures next[i] != next[j] {
      if i >= |more| {
        assert next[i] == rest[i - |more|] && next[j] == rest[j - |more|];
      } else if j >= |more| {
        assert next[i] == more[i] && next[j] == rest[j - |more|];
      } else {
        assert next[i] == more[i] && next[j] == more[j];
      }
    }
  }

  lemma ClearOk(v: View, contents: Contents, o: Obj, rest: seq<Task>)
    requires NestedOk(v, contents, [Clear(o)] + rest)
    ensures NestedOk(v.(content := Killed(v.content, o)), contents, rest)
    ensures SameOthers(v, v.(content := Killed(v.content, o)))
  {
    hide Apart, Counted, NoneDangling, Housed, TasksOk, SameOthers;
    ClearCounts(v, o);
    ClearDangling(v, o, rest);
    ClearHoused(v, contents, o, rest);
    RestOk(v, Clear(o), rest);
    ClearTasks(v, o, rest);
  }

  lemma ClearDangling(v: View, o: Obj, rest: seq<Task>)
    requires NoneDangling(v, [Clear(o)] + rest)
    ensures NoneDangling(v.(content := Killed(v.content, o)), rest)
  {
    hide Rc;
    var v1 := v.(content := Killed(v.content, o));
    forall a | a in v1.content && v1.content[a].IWeak?
      ensures Rc(v1, v1.content[a].o) > 0 || Clear(v1.content[a].o) in rest
    {
      assert v1.content[a] == v.content[a] && v.content[a] != IWeak(o);
      SameCount(v, v1, v.content[a].o);
      assert Clear(v.content[a].o) in [Clear(o)] + rest ==> Clear(v.content[a].o) in rest;
    }
  }

  lemma SameCount(v: View, v1: View, o: Obj)
    requires v1.rc == v.rc
    ensures Rc(v1, o) == Rc(v, o)
  {
  }

  lemma ClearHoused(v: View, contents: Contents, o: Obj, rest: seq<Task>)
    requires Housed(v, contents, [Clear(o)] + rest)
    ensures Housed(v.(content := Killed(v.content, o)), contents, rest)
  {
    hide Rc;
    var v1 := v.(content := Killed(v.content, o));
    assert v1.content.Keys == v.content.Keys;
    forall p: Obj ensures Rc(v1, p) == Rc(v, p) { SameCount(v, v1, p); }
    forall a ensures Task.Drop(a) in [Clear(o)] + rest <==> Task.Drop(a) in rest { OtherTask(o, rest, a); }
  }

  lemma OtherTask(o: Obj, rest: seq<Task>, a: Addr)
    ensures Task.Drop(a) in [Clear(o)] + rest <==> Task.Drop(a) in rest
  {
  }

  lemma ClearTasks(v: View, o: Obj, rest: seq<Task>)
    requires TasksOk(v, rest)
    ensures TasksOk(v.(content := Killed(v.content, o)), rest)
  {
  }

  lemma ClearCounts(v: View, o: Obj)
    requires Counted(v)
    ensures Counted(v.(content := Killed(v.content, o))) && SameOthers(v, v.(content := Killed(v.content, o)))
  {
    var v1 := v.(content := Killed(v.content, o));
    forall p: Obj ensures OtherOwners(v1, p) == OtherOwners(v, p) {
      assert Owners(v1.content, p) == Owners(v.content, p);
    }
  }

  // ---------------------------------------------------------------------------------------
  // The outcome
  // ---------------------------------------------------------------------------------------

  lemma {:induction false} PerformOk(v: View, contents: Contents, tasks: seq<Task>, rest: seq<Task>)
    requires NestedOk(v, contents, tasks + rest)
    ensures NestedOk(Perform(v, contents, tasks), contents, rest) && SameOthers(v, Perform(v, contents, tasks))
    decreases |v.content|, |tasks|
  {
    hide NestedOk, DropSlot, Killed, OtherOwners;
    if tasks == [] {
      assert tasks + rest == rest;
    } else {
      assert tasks + rest == [tasks[0]] + (tasks[1..] + rest);
      match tasks[0]
      case Drop(a) =>
        DropOk(v, contents, a, tasks[1..] + rest);
        OneLess(v, contents, a);
        var (v1, more) := DropSlot(v, contents, a);
        assert more + (tasks[1..] + rest) == (more + tasks[1..]) + rest;
        PerformOk(v1, contents, more + tasks[1..], rest);
        SameOthersOn(v, v1, Perform(v, contents, tasks));
      case Clear(o) =>
        ClearOk(v, contents, o, tasks[1..] + rest);
        SameSize(v.content, Killed(v.content, o));
        PerformOk(v.(content := Killed(v.content, o)), contents, tasks[1..], rest);
        SameOthersOn(v, v.(content := Killed(v.content, o)), Perform(v, contents, tasks));
    }
  }

  /** Disowning one slot, and all that follows from it. */
  lemma OneDropped(v: View, contents: Contents, a: Addr, rest: seq<Task>)
    requires NestedOk(v, contents, [Task.Drop(a)] + rest)
    ensures a in v.content
    ensures var (v1, more) := DropSlot(v, contents, a);
      NestedOk(v1, contents, more + rest) && Perform(v, contents, [Task.Drop(a)]) == Perform(v1, contents, more)
    ensures v.content[a].IStrong? ==> v.content[a].o in v.rc && v.rc[v.content[a].o] > 0
  {
    hide Apart, NoneDangling, Housed, TasksOk;
    DropOk(v, contents, a, rest);
    DropCounts(v, contents, a);
    OneLess(v, contents, a);
    assert DropSlot(v, contents, a).1 + [Task.Drop(a)][1..] == DropSlot(v, contents, a).1;
  }

  /** What has become of a slot that is still in use. */
  predicate Kept(v: View, v': View, a: Addr)
    requires a in v.content && a in v'.content
  {
    v'.content[a] == v.content[a]
    || (v.content[a].IWeak? && v'.content[a] == INil && Rc(v', v.content[a].o) == 0)
  }

  lemma {:induction false} PerformKeeps(v: View, contents: Contents, tasks: seq<Task>, rest: seq<Task>, a: Addr)
    requires NestedOk(v, contents, tasks + rest) && a in Perform(v, contents, tasks).content
    ensures a in v.content && Kept(v, Perform(v, contents, tasks), a)
    decreases |v.content|, |tasks|
  {
    hide NestedOk;
    if tasks != [] {
      PerformOnlyFrees(v, contents, tasks);
      assert tasks + rest == [tasks[0]] + (tasks[1..] + rest);
      match tasks[0]
      case Drop(b) =>
        DropOk(v, contents, b, tasks[1..] + rest);
        OneLess(v, contents, b);
        var (v1, more) := DropSlot(v, contents, b);
        assert more + (tasks[1..] + rest) == (more + tasks[1..]) + rest;
        PerformKeeps(v1, contents, more + tasks[1..], rest, a);
      case Clear(o) =>
        ClearOk(v, contents, o, tasks[1..] + rest);
        ClearedDead(v, contents, o, tasks[1..] + rest);
        SameSize(v.content, Killed(v.content, o));
        PerformKeeps(v.(content := Killed(v.content, o)), contents, tasks[1..], rest, a);
    }
  }

  ghost predicate DiesWith(v: View, v': View, contents: Contents, a: Addr) {
    exists o :: o in contents && a in contents[o] && Rc(v', o) == 0 && Rc(v, o) > 0
  }

  /** A slot that is not in use any more was to be given up, or belonged to an object that has died. */
  lemma {:induction false} PerformTakes(v: View, contents: Contents, tasks: seq<Task>, rest: seq<Task>, a: Addr)
    requires NestedOk(v, contents, tasks + rest)
    requires a in v.content && a !in Perform(v, contents, tasks).content && Task.Drop(a) !in tasks
    ensures DiesWith(v, Perform(v, contents, tasks), contents, a)
    decreases |v.content|, |tasks|
  {
    hide NestedOk, DropSlot, DiesWith, Killed, Rc;
    assert tasks + rest == [tasks[0]] + (tasks[1..] + rest);
    match tasks[0]
    case Drop(b) =>
      DropOk(v, contents, b, tasks[1..] + rest);
      OneLess(v, contents, b);
      DroppedView(v, contents, b);
      var (v1, more) := DropSlot(v, contents, b);
      assert more + (tasks[1..] + rest) == (more + tasks[1..]) + rest;
      if Task.Drop(a) in more {
        DiesNext(v, contents, b, a, tasks[1..]);
      } else {
        PerformTakes(v1, contents, more + tasks[1..], rest, a);
        DiesLater(v, v1, Perform(v, contents, tasks), contents, a);
      }
    case Clear(o) =>
      ClearOk(v, contents, o, tasks[1..] + rest);
      ClearedKeys(v, o);
      SameSize(v.content, Killed(v.content, o));
      PerformTakes(v.(content := Killed(v.content, o)), contents, tasks[1..], rest, a);
      DiesLater(v, v.(content := Killed(v.content, o)), Perform(v, contents, tasks), contents, a);
  }

  lemma ClearedKeys(v: View, o: Obj)
    ensures var v1 := v.(content := Killed(v.content, o));
      v1.content.Keys == v.content.Keys && forall p: Obj :: Rc(v1, p) == Rc(v, p)
  {
  }

  lemma DiesLater(v: View, v1: View, v': View, contents: Contents, a: Addr)
    requires DiesWith(v1, v', contents, a) && forall o: Obj :: Rc(v1, o) <= Rc(v, o)
    ensures DiesWith(v, v', contents, a)
  {
    hide Rc;
    var o :| o in contents && a in contents[o] && Rc(v', o) == 0 && Rc(v1, o) > 0;
    assert Rc(v1, o) <= Rc(v, o);
  }

  /** The slots of an object that has lost its last owner die with it. */
  lemma DiesNext(v: View, contents: Contents, b: Addr, a: Addr, rest: seq<Task>)
    requires b in v.content && Task.Drop(a) in DropSlot(v, contents, b).1
    ensures var (v1, more) := DropSlot(v, contents, b);
      DiesWith(v, Perform(v1, contents, more + rest), contents, a)
  {
    hide Perform;
    NextTasks(v, contents, b);
    var (v1, more) := DropSlot(v, contents, b);
    PerformOnlyFrees(v1, contents, more + rest);
    var o := v.content[b].o;
    assert o in contents && a in contents[o] && Rc(v, o) == 1 && Rc(v1, o) == 0;
    assert Rc(Perform(v1, contents, more + rest), o) <= Rc(v1, o);
  }

  lemma {:induction false} PerformOnlyFrees(v: View, contents: Contents, tasks: seq<Task>)
    ensures forall o: Obj :: Rc(Perform(v, contents, tasks), o) <= Rc(v, o)
    decreases |v.content|, |tasks|
  {
    if tasks != [] {
      match tasks[0]
      case Drop(a) =>
        if a in v.content {
          OneLess(v, contents, a);
          PerformOnlyFrees(DropSlot(v, contents, a).0, contents, DropSlot(v, contents, a).1 + tasks[1..]);
        } else {
          PerformOnlyFrees(v, contents, tasks[1..]);
        }
      case Clear(o) =>
        SameSize(v.content, Killed(v.content, o));
        PerformOnlyFrees(v.(content := Killed(v.content, o)), contents, tasks[1..]);
    }
  }

  lemma ClearedDead(v: View, contents: Contents, o: Obj, rest: seq<Task>)
    requires NestedOk(v, contents, [Clear(o)] + rest)
    ensures Rc(v, o) == 0
  {
    assert ([Clear(o)] + rest)[0] in [Clear(o)] + rest;
  }

  /** A slot `a` outside all containers is disowned and given up. Afterwards every reference count is the
      number of slots that own the object, and of the same owners elsewhere as before; no weak reference
      is left to an object without an owner; and the slots in use are those that were, without `a` and
      without the slots of the objects that have died, however deep they were nested. Of these slots
      only weak references to objects that have died are changed, to nil. */
  lemma GivenUp(v: View, contents: Contents, a: Addr)
    requires NestedOk(v, contents, []) && a in v.content && forall o :: o in contents ==> a !in contents[o]
    ensures var v' := Perform(v, contents, [Task.Drop(a)]);
      && NestedOk(v', contents, []) && SameOthers(v, v')
      && (forall b :: b in v'.content ==> b in v.content && Kept(v, v', b))
      && (forall b :: b in v.content && b !in v'.content ==>
            b == a || DiesWith(v, v', contents, b))
  {
    var tasks, v' := [Task.Drop(a)], Perform(v, contents, [Task.Drop(a)]);
    assert tasks + [] == tasks;
    assert NestedOk(v, contents, tasks);
    PerformOk(v, contents, tasks, []);
    forall b | b in v'.content ensures b in v.content && Kept(v, v', b) { PerformKeeps(v, contents, tasks, [], b); }
    forall b | b in v.content && b !in v'.content && b != a ensures DiesWith(v, v', contents, b) {
      PerformTakes(v, contents, tasks, [], b);
    }
  }

  /** Without containers, that is what `eel_v_disown_nz` was said to do for a single slot. */
  lemma GoneIsPerformed(v: View, a: Addr)
    requires a in v.content
    ensures Gone(v, a) == Perform(v, map[], [Task.Drop(a)])
  {
    var tasks := [Task.Drop(a)];
    var (v1, more) := DropSlot(v, map[], a);
    OneLess(v, map[], a);
    assert tasks[1..] == [];
    assert Perform(v, map[], tasks) == Perform(v1, map[], more);
    if more != [] {
      var o := v.content[a].o;
      assert more == [Clear(o)] && more[1..] == [];
      SameSize(v1.content, Killed(v1.content, o));
      assert Perform(v1, map[], more) == v1.(content := Killed(v1.content, o));
      assert Gone(v, a).content == Killed(v1.content, o);
    }
  }

  // ---------------------------------------------------------------------------------------
  // The loops of the original
  // ---------------------------------------------------------------------------------------

  /** `eel_v_disown_nz` of a slot that holds nothing any more after that. `rest` is what is still to be
      done then. */
  method DisownSlot(mem: Memory, contents: Contents, a: Addr, ghost rest: seq<Task>)
    requires mem.Valid() && NestedOk(mem.V(), contents, [Task.Drop(a)] + rest)
    modifies mem
    ensures mem.Valid() && mem.used <= old(mem.used)
    ensures mem.V() == Perform(old(mem.V()), contents, [Task.Drop(a)]) && NestedOk(mem.V(), contents, rest)
    decreases mem.used, 0
  {
    hide NestedOk, Exact, WeakReferences.Contents, SameOthers;
    ghost var v := mem.V();
    OneDropped(v, contents, a, rest);
    SlotGone(v, a);
    assert a in mem.used;
    ContentAt(mem.slots, mem.vecs, mem.used, a);
    var s := mem.slots[a];
    if s.Weak? {
      mem.Detach(a);
    }
    ContentAt(mem.slots, mem.vecs, mem.used, a);
    mem.Forget(a, a + 1);
    var dies := false;
    if s.Strong? {
      dies := mem.rc[s.o] == 1;
      mem.rc := mem.rc[s.o := mem.rc[s.o] - 1];
    }
    assert mem.V() == DropSlot(v, contents, a).0;
    assert DropSlot(v, contents, a).1 == if dies then Destruct(contents, s.o) else [];
    assert [] + rest == rest;
    if dies {
      Dispose(mem, contents, s.o, rest);
    }
  }

  lemma SlotGone(v: View, a: Addr)
    ensures Dropped(v, a, a + 1).content == v.content - {a}
    ensures Dropped(v.(content := v.content[a := INil]), a, a + 1).content == v.content - {a}
  {
  }

  /** `eel_o__destruct`: the destructor disowns one slot after the other, and then the weak references
      are cleared. */
  method Dispose(mem: Memory, contents: Contents, o: Obj, ghost rest: seq<Task>)
    requires mem.Valid() && NestedOk(mem.V(), contents, Destruct(contents, o) + rest)
    modifies mem
    ensures mem.Valid() && mem.used <= old(mem.used)
    ensures mem.V() == Perform(old(mem.V()), contents, Destruct(contents, o)) && NestedOk(mem.V(), contents, rest)
    decreases mem.used, 1
  {
    hide NestedOk, Exact, WeakReferences.Contents, DropSlot;
    ghost var v, tasks := mem.V(), Destruct(contents, o);
    var slots := SlotsOf(contents, o);
    for i := 0 to |slots|
      invariant mem.Valid() && mem.used <= old(mem.used)
      invariant NestedOk(mem.V(), contents, tasks[i..] + rest)
      invariant Perform(mem.V(), contents, tasks[i..]) == Perform(v, contents, tasks)
    {
      assert tasks[i..] == [Task.Drop(slots[i])] + tasks[i + 1..];
      assert tasks[i..] + rest == [Task.Drop(slots[i])] + (tasks[i + 1..] + rest);
      PerformAppend(mem.V(), contents, [Task.Drop(slots[i])], tasks[i + 1..]);
      DisownSlot(mem, contents, slots[i], tasks[i + 1..] + rest);
    }
    assert tasks[|slots|..] == [Clear(o)];
    ClearOk(mem.V(), contents, o, rest);
    mem.Kill(o);
  }
}
