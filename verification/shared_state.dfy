/** The process-wide exception registry is opened by the first user of the API and closed by the
    last one (e_sharedstate.c). Threads run `eel_add_api_user` and `eel_remove_api_user` at the
    same time; every access to a shared counter is a step of its own, and so are the beginning
    and the end of opening and closing the registry. Opening always succeeds here. */
module SharedState {

  /** Where a thread is. `late` records that some other thread had not finished closing when
      this one added itself to the users. */
  datatype Phase =
    | Outside
    | AwaitDown                // first user: waits for `eel_api_up` to be 0
    | Opening                  // in `eel_x_open_registry`
    | Opened                   // about to increment `eel_api_up`
    | AwaitUp(late: bool)      // not the first user: waits for `eel_api_up`
    | Inside(late: bool)       // `eel_add_api_user` has returned
    | Last                     // was the last user, and is about to close the registry
    | Closing                  // in `eel_x_close_registry`
    | Closed                   // about to decrement `eel_api_up`
  {
    /** The thread is counted in `eel_api_users`. */
    predicate Counted() {
      AwaitDown? || Opening? || Opened? || AwaitUp? || Inside?
    }

    predicate Opener() {
      AwaitDown? || Opening? || Opened?
    }

    predicate Closer() {
      Last? || Closing? || Closed?
    }
  }

  datatype Event = OpenBegins | OpenEnds | CloseBegins | CloseEnds

  /** `log` records what has been done to the registry. */
  datatype Shared = Shared(users: int, up: int, threads: seq<Phase>, log: seq<Event>)

  predicate AnyCloser(s: Shared) {
    exists c :: 0 <= c < |s.threads| && s.threads[c].Closer()
  }

  /** Thread `t` takes its next step: from `Outside` it calls `eel_add_api_user`, and from
      `Inside` it calls `eel_remove_api_user`. A spinning thread may find that it has to go on
      spinning. */
  function Next(s: Shared, t: nat): (r: Shared)
    requires t < |s.threads|
    ensures |r.threads| == |s.threads|
  {
    match s.threads[t]
    case Outside =>
      var late := AnyCloser(s);
      s.(users := s.users + 1, threads := s.threads[t := if s.users == 0 then AwaitDown else AwaitUp(late)])
    case AwaitDown =>
      if s.up != 0 then s
      else s.(threads := s.threads[t := Opening], log := s.log + [OpenBegins])
    case Opening => s.(threads := s.threads[t := Opened], log := s.log + [OpenEnds])
    case Opened => s.(up := s.up + 1, threads := s.threads[t := Inside(false)])
    case AwaitUp(late) => if s.up == 0 then s else s.(threads := s.threads[t := Inside(late)])
    case Inside(_) =>
      s.(users := s.users - 1, threads := s.threads[t := if s.users == 1 then Last else Outside])
    case Last => s.(threads := s.threads[t := Closing], log := s.log + [CloseBegins])
    case Closing => s.(threads := s.threads[t := Closed], log := s.log + [CloseEnds])
    case Closed => s.(up := s.up - 1, threads := s.threads[t := Outside])
  }

  /** An interleaving: which thread takes a step, again and again. */
  function RunAll(s: Shared, run: seq<nat>): (r: Shared)
    requires forall i :: 0 <= i < |run| ==> run[i] < |s.threads|
    ensures |r.threads| == |s.threads|
    decreases |run|
  {
    if run == [] then s else RunAll(Next(s, run[0]), run[1..])
  }

  function Initial(n: nat): Shared {
    Shared(0, 0, seq(n, _ => Outside), [])
  }

  // ---------------------------------------------------------------------------------------
  // Properties
  // ---------------------------------------------------------------------------------------

  function CycleEvent(i: nat): Event {
    match i % 4
    case 0 => OpenBegins
    case 1 => OpenEnds
    case 2 => CloseBegins
    case _ => CloseEnds
  }

  /** An opening, from beginning to end, is followed by a closing, and so on. */
  ghost predicate Alternates(log: seq<Event>) {
    forall i :: 0 <= i < |log| ==> log[i] == CycleEvent(i)
  }

  /** The registry has been opened, and closing has not begun. */
  predicate RegistryOpen(s: Shared) {
    |s.log| % 4 == 2
  }

  function Counted(threads: seq<Phase>): nat {
    if threads == [] then 0
    else Counted(threads[..|threads| - 1]) + if threads[|threads| - 1].Counted() then 1 else 0
  }

  lemma {:induction false} CountedUpdate(threads: seq<Phase>, t: nat, p: Phase)
    requires t < |threads|
    ensures Counted(threads[t := p]) ==
            Counted(threads) - (if threads[t].Counted() then 1 else 0) + (if p.Counted() then 1 else 0)
  {
    var n := |threads| - 1;
    if t < n {
      assert threads[t := p][..n] == threads[..n][t := p];
      CountedUpdate(threads[..n], t, p);
    } else {
      assert threads[t := p][..n] == threads[..n];
    }
  }

  lemma {:induction false} CountedSome(threads: seq<Phase>, t: nat)
    requires t < |threads| && threads[t].Counted()
    ensures Counted(threads) > 0
    ensures Counted(threads) == 1 ==> forall u :: 0 <= u < |threads| && u != t ==> !threads[u].Counted()
  {
    CountedUpdate(threads, t, Outside);
    var rest := threads[t := Outside];
    if exists u :: 0 <= u < |threads| && u != t && threads[u].Counted() {
      var u :| 0 <= u < |threads| && u != t && threads[u].Counted();
      CountedUpdate(rest, u, Outside);
    }
  }

  ghost predicate AtMostOne(s: Shared) {
    && (forall a, b :: 0 <= a < b < |s.threads| ==> !(s.threads[a].Opener() && s.threads[b].Opener()))
    && (forall a, b :: 0 <= a < b < |s.threads| ==> !(s.threads[a].Closer() && s.threads[b].Closer()))
  }

  ghost predicate HasOpener(s: Shared) {
    exists t :: 0 <= t < |s.threads| && s.threads[t].Opener()
  }

  /** What each phase says about the counters and the registry. */
  ghost predicate PhaseOk(s: Shared, t: nat)
    requires t < |s.threads|
  {
    match s.threads[t]
    case Outside => true
    case AwaitDown => true
    case Opening => s.up == 0 && |s.log| % 4 == 1
    case Opened => s.up == 0 && |s.log| % 4 == 2
    case AwaitUp(late) => !late ==> !AnyCloser(s)
    case Inside(late) => !late ==> s.up == 1 && RegistryOpen(s) && !HasOpener(s) && !AnyCloser(s)
    case Last => s.up == 1 && |s.log| % 4 == 2
    case Closing => s.up == 1 && |s.log| % 4 == 3
    case Closed => s.up == 1 && |s.log| % 4 == 0
  }

  ghost predicate Sound(s: Shared) {
    && s.users == Counted(s.threads) && Alternates(s.log) && AtMostOne(s)
    && (forall t :: 0 <= t < |s.threads| ==> PhaseOk(s, t))
    && (AnyCloser(s) ==> s.up == 1)
    // While the last user closes, the next first user can do no more than wait.
    && (forall t :: 0 <= t < |s.threads| && AnyCloser(s) && s.threads[t].Opener() ==> s.threads[t].AwaitDown?)
    && (AnyCloser(s) && s.users > 0 ==> HasOpener(s))
    && (!AnyCloser(s) && s.users == 0 ==> s.up == 0 && |s.log| % 4 == 0)
    && (!AnyCloser(s) && HasOpener(s) ==> s.up == 0)
    && (forall t :: 0 <= t < |s.threads| && !AnyCloser(s) && s.threads[t].AwaitDown? ==> |s.log| % 4 == 0)
    && (!AnyCloser(s) && !HasOpener(s) && s.users > 0 ==> s.up == 1 && RegistryOpen(s))
  }

  // ---------------------------------------------------------------------------------------
  // Every step keeps them
  // ---------------------------------------------------------------------------------------

  /** Who else is opening when one thread changes its phase. */
  lemma OpenerRoles(s: Shared, s': Shared, t: nat, p: Phase)
    requires t < |s.threads| && s'.threads == s.threads[t := p] && AtMostOne(s)
    ensures p.Opener() ==> HasOpener(s')
    ensures !s.threads[t].Opener() && HasOpener(s) ==> HasOpener(s')
    ensures !p.Opener() && HasOpener(s') ==> HasOpener(s) && !s.threads[t].Opener()
  {
    if p.Opener() { assert s'.threads[t] == p; }
    if !s.threads[t].Opener() && HasOpener(s) {
      var u :| 0 <= u < |s.threads| && s.threads[u].Opener();
      assert s'.threads[u].Opener();
    }
    if !p.Opener() && HasOpener(s') {
      var u :| 0 <= u < |s.threads| && s'.threads[u].Opener();
      assert s.threads[u].Opener();
    }
  }

  /** Who else is closing. */
  lemma CloserRoles(s: Shared, s': Shared, t: nat, p: Phase)
    requires t < |s.threads| && s'.threads == s.threads[t := p] && AtMostOne(s)
    ensures p.Closer() ==> AnyCloser(s')
    ensures !s.threads[t].Closer() && AnyCloser(s) ==> AnyCloser(s')
    ensures !p.Closer() && AnyCloser(s') ==> AnyCloser(s) && !s.threads[t].Closer()
  {
    if p.Closer() { assert s'.threads[t] == p; }
    if !s.threads[t].Closer() && AnyCloser(s) {
      var u :| 0 <= u < |s.threads| && s.threads[u].Closer();
      assert s'.threads[u].Closer();
    }
    if !p.Closer() && AnyCloser(s') {
      var u :| 0 <= u < |s.threads| && s'.threads[u].Closer();
      assert s.threads[u].Closer();
    }
  }

  lemma Roles(s: Shared, s': Shared, t: nat, p: Phase)
    requires t < |s.threads| && s'.threads == s.threads[t := p] && AtMostOne(s)
    ensures p.Opener() ==> HasOpener(s')
    ensures p.Closer() ==> AnyCloser(s')
    ensures !s.threads[t].Opener() && HasOpener(s) ==> HasOpener(s')
    ensures !s.threads[t].Closer() && AnyCloser(s) ==> AnyCloser(s')
    ensures !p.Opener() && HasOpener(s') ==> HasOpener(s) && !s.threads[t].Opener()
    ensures !p.Closer() && AnyCloser(s') ==> AnyCloser(s) && !s.threads[t].Closer()
    ensures ((p.Opener() ==> s.threads[t].Opener() || !HasOpener(s))
             && (p.Closer() ==> s.threads[t].Closer() || !AnyCloser(s)))
            ==> AtMostOne(s')
  {
    OpenerRoles(s, s', t, p);
    CloserRoles(s, s', t, p);
  }

  lemma LogNext(log: seq<Event>, e: Event)
    requires Alternates(log) && e == CycleEvent(|log|)
    ensures Alternates(log + [e])
  {
  }

  /** What the roles of a thread say about all others. */
  lemma Others(s: Shared, t: nat)
    requires Sound(s) && t < |s.threads|
    ensures s.threads[t].Opener() ==> HasOpener(s)
    ensures s.threads[t].Opener() ==> forall u :: 0 <= u < |s.threads| && u != t ==> !s.threads[u].Opener()
    ensures s.threads[t].Closer() ==> AnyCloser(s)
    ensures s.threads[t].Closer() ==> forall u :: 0 <= u < |s.threads| && u != t ==> !s.threads[u].Closer()
    ensures s.threads[t].Counted() ==> s.users > 0
    ensures s.threads[t].Counted() && s.users == 1 ==>
              forall u :: 0 <= u < |s.threads| && u != t ==> !s.threads[u].Counted()
    ensures s.users == 0 ==> !HasOpener(s) && forall u :: 0 <= u < |s.threads| ==> !s.threads[u].Counted()
    ensures forall u :: 0 <= u < |s.threads| && s.threads[u].Closer() ==> AnyCloser(s)
    ensures forall u :: 0 <= u < |s.threads| && s.threads[u].Opener() ==> HasOpener(s)
  {
    hide Counted, Alternates;
    if s.threads[t].Counted() { CountedSome(s.threads, t); }
    forall u | 0 <= u < |s.threads| && s.threads[u].Counted() ensures s.users > 0 { CountedSome(s.threads, u); }
  }

  lemma JoinSound(s: Shared, t: nat)
    requires Sound(s) && t < |s.threads| && s.threads[t].Outside?
    ensures Sound(Next(s, t))
  {
    hide Counted, Alternates, AtMostOne, HasOpener, AnyCloser;
    var s' := Next(s, t);
    CountedUpdate(s.threads, t, s'.threads[t]);
    Others(s, t);
    Roles(s, s', t, s'.threads[t]);
    forall u | 0 <= u < |s.threads| ensures PhaseOk(s', u) { assert PhaseOk(s, u); }
  }

  lemma OpenSound(s: Shared, t: nat)
    requires Sound(s) && t < |s.threads| && s.threads[t].Opener()
    ensures Sound(Next(s, t))
  {
    hide Counted, Alternates, AtMostOne, HasOpener, AnyCloser;
    var s' := Next(s, t);
    assert PhaseOk(s, t);
    CountedUpdate(s.threads, t, s'.threads[t]);
    Others(s, t);
    Roles(s, s', t, s'.threads[t]);
    forall u | 0 <= u < |s.threads| ensures PhaseOk(s', u) { assert PhaseOk(s, u); }
    if s.threads[t].AwaitDown? && s.up == 0 { LogNext(s.log, OpenBegins); }
    if s.threads[t].Opening? { LogNext(s.log, OpenEnds); }
  }

  lemma WaitSound(s: Shared, t: nat)
    requires Sound(s) && t < |s.threads| && s.threads[t].AwaitUp?
    ensures Sound(Next(s, t))
  {
    hide Counted, Alternates, AtMostOne, HasOpener, AnyCloser;
    var s' := Next(s, t);
    assert PhaseOk(s, t);
    CountedUpdate(s.threads, t, s'.threads[t]);
    Others(s, t);
    Roles(s, s', t, s'.threads[t]);
    forall u | 0 <= u < |s.threads| ensures PhaseOk(s', u) { assert PhaseOk(s, u); }
  }

  lemma LeaveSound(s: Shared, t: nat)
    requires Sound(s) && t < |s.threads| && s.threads[t].Inside?
    ensures Sound(Next(s, t))
  {
    hide Counted, Alternates, AtMostOne, HasOpener, AnyCloser;
    var s' := Next(s, t);
    assert PhaseOk(s, t);
    CountedUpdate(s.threads, t, s'.threads[t]);
    Others(s, t);
    if s.users == 1 { NoOpenerAlone(s, t); }
    Roles(s, s', t, s'.threads[t]);
    forall u | 0 <= u < |s.threads| ensures PhaseOk(s', u) { assert PhaseOk(s, u); }
  }

  /** If a thread that has been let in is the only one counted, nobody is opening or closing. */
  lemma NoOpenerAlone(s: Shared, t: nat)
    requires Sound(s) && t < |s.threads| && s.threads[t].Inside? && s.users == 1
    ensures !HasOpener(s) && !AnyCloser(s)
  {
    hide Counted, Alternates;
    Others(s, t);
  }

  lemma CloseSound(s: Shared, t: nat)
    requires Sound(s) && t < |s.threads| && s.threads[t].Closer()
    ensures Sound(Next(s, t))
  {
    hide Counted, Alternates, AtMostOne, HasOpener, AnyCloser;
    var s' := Next(s, t);
    assert PhaseOk(s, t);
    CountedUpdate(s.threads, t, s'.threads[t]);
    Others(s, t);
    Roles(s, s', t, s'.threads[t]);
    forall u | 0 <= u < |s.threads| ensures PhaseOk(s', u) { assert PhaseOk(s, u); }
    if s.threads[t].Last? { LogNext(s.log, CloseBegins); }
    if s.threads[t].Closing? { LogNext(s.log, CloseEnds); }
  }

  lemma NextSound(s: Shared, t: nat)
    requires Sound(s) && t < |s.threads|
    ensures Sound(Next(s, t))
  {
    hide Sound, Next;
    match s.threads[t]
    case Outside => JoinSound(s, t);
    case AwaitDown => OpenSound(s, t);
    case Opening => OpenSound(s, t);
    case Opened => OpenSound(s, t);
    case AwaitUp(_) => WaitSound(s, t);
    case Inside(_) => LeaveSound(s, t);
    case Last => CloseSound(s, t);
    case Closing => CloseSound(s, t);
    case Closed => CloseSound(s, t);
  }

  lemma {:induction false} RunSound(s: Shared, run: seq<nat>)
    requires Sound(s) && forall i :: 0 <= i < |run| ==> run[i] < |s.threads|
    ensures Sound(RunAll(s, run))
    decreases |run|
  {
    hide Sound, Next;
    if run != [] {
      NextSound(s, run[0]);
      RunSound(Next(s, run[0]), run[1..]);
    }
  }

  lemma {:induction false} InitialSound(n: nat)
    ensures Sound(Initial(n))
  {
    NobodyCounted(n);
  }

  lemma {:induction false} NobodyCounted(n: nat)
    ensures Counted(seq(n, _ => Outside)) == 0
  {
    if n > 0 {
      assert seq(n, _ => Outside)[..n - 1] == seq(n - 1, _ => Outside);
      NobodyCounted(n - 1);
    }
  }

  // ---------------------------------------------------------------------------------------
  // Theorems
  // ---------------------------------------------------------------------------------------

  /** With any number of threads, in any interleaving: each opening and closing of the registry
      ends before the next begins, they take turns, `eel_api_up` is 0 or 1, and
      `eel_api_users` is the number of threads that are counted. */
  lemma OpensAndClosesAlternate(n: nat, run: seq<nat>)
    requires forall i :: 0 <= i < |run| ==> run[i] < n
    ensures var s := RunAll(Initial(n), run);
      Alternates(s.log) && s.up in {0, 1} && s.users == Counted(s.threads)
  {
    hide RunAll, Alternates, Counted, HasOpener, AnyCloser;
    InitialSound(n);
    RunSound(Initial(n), run);
  }

  /** A thread that leaves becomes the one that closes the registry if and only if no other
      thread is counted. */
  lemma CloserIsAlone(n: nat, run: seq<nat>, t: nat)
    requires t < n && forall i :: 0 <= i < |run| ==> run[i] < n
    requires RunAll(Initial(n), run).threads[t].Inside?
    ensures var s := RunAll(Initial(n), run);
      Next(s, t).threads[t].Closer() <==> forall u :: 0 <= u < n && u != t ==> !s.threads[u].Counted()
  {
    hide RunAll, Alternates, Counted, HasOpener, AnyCloser;
    InitialSound(n);
    RunSound(Initial(n), run);
    var s := RunAll(Initial(n), run);
    Others(s, t);
    if s.users != 1 {
      var rest := s.threads[t := Outside];
      CountedUpdate(s.threads, t, Outside);
      SomeCounted(rest);
      var u :| 0 <= u < n && rest[u].Counted();
      assert u != t && s.threads[u].Counted();
    }
  }

  lemma {:induction false} SomeCounted(threads: seq<Phase>)
    requires Counted(threads) > 0
    ensures exists u :: 0 <= u < |threads| && threads[u].Counted()
  {
    var n := |threads| - 1;
    if !threads[n].Counted() {
      SomeCounted(threads[..n]);
      var u :| 0 <= u < n && threads[..n][u].Counted();
      assert threads[u].Counted();
    }
  }

  /** In the run, thread `t` does not call `eel_remove_api_user`. */
  ghost predicate Stays(s: Shared, run: seq<nat>, t: nat)
    requires t < |s.threads| && forall i :: 0 <= i < |run| ==> run[i] < |s.threads|
    decreases |run|
  {
    run == [] || ((run[0] == t ==> !s.threads[t].Inside?) && Stays(Next(s, run[0]), run[1..], t))
  }

  /** There is a way to go on in which `t` is let in although the registry is not open. */
  ghost predicate LetInTooEarly(s: Shared, t: nat)
    requires t < |s.threads|
  {
    exists run: seq<nat> :: (forall i :: 0 <= i < |run| ==> run[i] < |s.threads|) && EarlyAfter(s, run, t)
  }

  ghost predicate EarlyAfter(s: Shared, run: seq<nat>, t: nat)
    requires t < |s.threads| && forall i :: 0 <= i < |run| ==> run[i] < |s.threads|
  {
    Stays(s, run, t) && RunAll(s, run).threads[t].Inside? && !RegistryOpen(RunAll(s, run))
  }

  ghost predicate OnTime(p: Phase) {
    p.AwaitDown? || p.Opening? || p.Opened? || p == AwaitUp(false) || p == Inside(false)
  }

  lemma {:induction false} OnTimeStays(s: Shared, run: seq<nat>, t: nat)
    requires t < |s.threads| && Sound(s) && OnTime(s.threads[t])
    requires forall i :: 0 <= i < |run| ==> run[i] < |s.threads|
    requires Stays(s, run, t)
    ensures !EarlyAfter(s, run, t)
    decreases |run|
  {
    hide Sound;
    if run == [] {
      assert PhaseOk(s, t) by { SoundPhase(s, t); }
    } else {
      NextSound(s, run[0]);
      OnTimeStays(Next(s, run[0]), run[1..], t);
    }
  }

  lemma SoundPhase(s: Shared, t: nat)
    requires Sound(s) && t < |s.threads|
    ensures PhaseOk(s, t)
  {
  }

  /** A thread that calls `eel_add_api_user` can be let in before the registry is open if and
      only if it adds itself while another thread is closing and a third one is already
      waiting to open the registry again. */
  lemma LateJoinersOnly(n: nat, run: seq<nat>, t: nat)
    requires t < n && forall i :: 0 <= i < |run| ==> run[i] < n
    requires RunAll(Initial(n), run).threads[t].Outside?
    ensures var s := RunAll(Initial(n), run);
      LetInTooEarly(Next(s, t), t) <==> AnyCloser(s) && s.users > 0
  {
    hide RunAll, Alternates, Counted, HasOpener, Sound, Next, EarlyAfter;
    InitialSound(n);
    RunSound(Initial(n), run);
    var s := RunAll(Initial(n), run);
    NextSound(s, t);
    if AnyCloser(s) && s.users > 0 {
      var c :| 0 <= c < n && s.threads[c].Closer();
      LetIn(s, t, c);
      assert LetInTooEarly(Next(s, t), t);
    } else {
      assert OnTime(Next(s, t).threads[t]) by { JoinsOnTime(s, t); }
      forall rest: seq<nat> | (forall i :: 0 <= i < |rest| ==> rest[i] < n) && EarlyAfter(Next(s, t), rest, t)
        ensures false
      {
        EarlyStays(Next(s, t), rest, t);
        OnTimeStays(Next(s, t), rest, t);
      }
    }
  }

  lemma EarlyStays(s: Shared, run: seq<nat>, t: nat)
    requires t < |s.threads| && (forall i :: 0 <= i < |run| ==> run[i] < |s.threads|) && EarlyAfter(s, run, t)
    ensures Stays(s, run, t)
  {
  }

  lemma JoinsOnTime(s: Shared, t: nat)
    requires Sound(s) && t < |s.threads| && s.threads[t].Outside? && !(AnyCloser(s) && s.users > 0)
    ensures OnTime(Next(s, t).threads[t])
  {
    hide Counted, Alternates;
  }

  lemma LetIn(s: Shared, t: nat, c: nat)
    requires Sound(s) && t < |s.threads| && s.threads[t].Outside?
    requires c < |s.threads| && s.threads[c].Closer() && s.users > 0
    ensures EarlyAfter(Next(s, t), [t, c], t)
  {
    hide Counted, Alternates, HasOpener;
    assert PhaseOk(s, c);
    var s1 := Next(s, t);
    var s2 := Next(s1, t);
    var s3 := Next(s2, c);
    assert RunAll(s3, []) == s3 && RunAll(s2, [c]) == RunAll(s3, [c][1..]) && [c][1..] == [];
    assert [t, c][1..] == [c] && RunAll(s1, [t, c]) == RunAll(s2, [c]);
    assert Stays(s3, [], t) && Stays(s2, [c], t);
  }
}
