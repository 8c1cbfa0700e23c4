/** What the invariant of the registrar means for its callers, in every state that any interleaving reaches. */
module RegistrarRuns {
  import opened Registrar
  import opened RegistrarSafety

  ghost predicate Reachable(s: State) {
    exists run :: Runs(Initial(), run, s)
  }

  lemma ReachableInv(s: State)
    requires Reachable(s)
    ensures Inv(s)
  {
    InitialInv();
    var run :| Runs(Initial(), run, s);
    RunsKeep(Initial(), run, s);
  }

  /** The caller still depends on the entry: it has acquired it and has not done with it. */
  predicate Holds(k: Token, e: nat) {
    (k.Collected? || k.Held? || k.Locked? || k.Decremented?) && k.entry == e
  }

  lemma OnlyUnregisteringErases(s: State, a: Action, e: nat)
    requires Enabled(s, a) && e in s.entries && e !in Apply(s, a).entries
    ensures NoReaders(s) && Apply(s, a).tokens == Outlived(s.tokens, Apply(s, a).entries)
    ensures match a
            case UnregisterHandler(_) => s.entries[e].service !in s.waits
            case FinishHandler(service) => s.waits[service].HandlerWait? && s.waits[service].entry == e
            case UnregisterService(service) => s.entries[e].service == service && service !in s.waits
            case FinishService(service) => s.entries[e].service == service
            case _ => false
  {
  }

  /**
    * Nothing is ever erased under the hands of a caller, and what is erased is in use nowhere; who still looks at it
    * is only who has fallen through to the search without the lock.
    */
  lemma ErasedIsUnused(s: State, a: Action, e: nat)
    requires Reachable(s) && Enabled(s, a) && e in s.entries && e !in Apply(s, a).entries
    ensures forall t | t in s.tokens :: !Holds(s.tokens[t], e)
    ensures s.entries[e].inUse == 0
  {
    ReachableInv(s);
    OnlyUnregisteringErases(s, a, e);
    StepKeeps(s, a);
    forall t | t in s.tokens ensures !Holds(s.tokens[t], e) {
      assert TokenInv(Apply(s, a), t);
    }
    assert EntryInv(s, e) && Users(s.tokens, e) == {};
  }

  // ---------------------------------------------------------------- what has been unregistered

  /** No handler of a message can be acquired through an entry of these. */
  ghost predicate HandlerRetired(s: State, message: nat, handler: nat) {
    forall e | e in s.entries && s.entries[e].message == message && s.entries[e].handler == handler ::
      s.entries[e].phase != Active
  }

  ghost predicate ServiceRetired(s: State, service: nat) {
    forall e | e in s.entries && s.entries[e].service == service :: s.entries[e].phase != Active
  }

  lemma NothingIsRevived(s: State, a: Action, e: nat)
    requires Enabled(s, a) && e in Apply(s, a).entries && !(a.Register? && a.entry == e)
    ensures e in s.entries
    ensures var x, y := s.entries[e], Apply(s, a).entries[e];
            y.message == x.message && y.service == x.service && y.handler == x.handler
    ensures s.entries[e].phase != Active ==> Apply(s, a).entries[e].phase != Active
  {
  }

  /** A handler that has been unregistered stays so, whatever happens, until it is registered again. */
  lemma {:induction false} RetiredHandlerStays(s: State, run: seq<Action>, s': State, message: nat, handler: nat)
    requires Runs(s, run, s') && HandlerRetired(s, message, handler)
    requires forall i | 0 <= i < |run| && run[i].Register? :: run[i].message != message || run[i].handler != handler
    ensures HandlerRetired(s', message, handler)
    decreases |run|
  {
    if run != [] {
      var next := Apply(s, run[0]);
      forall e | e in next.entries && next.entries[e].message == message && next.entries[e].handler == handler
        ensures next.entries[e].phase != Active
      {
        NothingIsRevived(s, run[0], e);
      }
      RetiredHandlerStays(next, run[1..], s', message, handler);
    }
  }

  /** So does a service. */
  lemma {:induction false} RetiredServiceStays(s: State, run: seq<Action>, s': State, service: nat)
    requires Runs(s, run, s') && ServiceRetired(s, service)
    requires forall i | 0 <= i < |run| && run[i].Register? :: run[i].service != service
    ensures ServiceRetired(s', service)
    decreases |run|
  {
    if run != [] {
      var next := Apply(s, run[0]);
      forall e | e in next.entries && next.entries[e].service == service ensures next.entries[e].phase != Active {
        NothingIsRevived(s, run[0], e);
      }
      RetiredServiceStays(next, run[1..], s', service);
    }
  }

  /** And nobody acquires it, in any state that can come of it. */
  lemma RetiredHandlerIsNotAcquired(s: State, run: seq<Action>, s': State, a: Action, message: nat, handler: nat)
    requires Runs(s, run, s') && HandlerRetired(s, message, handler) && Enabled(s', a) && (a.Acquire? || a.Collect?)
    requires forall i | 0 <= i < |run| && run[i].Register? :: run[i].message != message || run[i].handler != handler
    ensures s'.entries[a.entry].message != message || s'.entries[a.entry].handler != handler
  {
    RetiredHandlerStays(s, run, s', message, handler);
  }

  lemma RetiredServiceIsNotAcquired(s: State, run: seq<Action>, s': State, a: Action, service: nat)
    requires Runs(s, run, s') && ServiceRetired(s, service) && Enabled(s', a) && (a.Acquire? || a.Collect?)
    requires forall i | 0 <= i < |run| && run[i].Register? :: run[i].service != service
    ensures s'.entries[a.entry].service != service
  {
    RetiredServiceStays(s, run, s', service);
  }

  // ---------------------------------------------------------------- the search without the lock

  /** Caller `t` is in the search that follows the latch of a service, and the entry that it has released is there. */
  predicate SearchesLive(s: State, t: nat, e: nat) {
    t in s.tokens && s.tokens[t] == Searching(e, false)
  }

  /** While the entry is there the search wakes nobody: each release counts at most one latch down. */
  lemma SearchWakesNobody(s: State, t: nat)
    requires Reachable(s) && t in s.tokens && s.tokens[t].Searching?
    ensures Apply(s, SearchUnlocked(t)) == s.(tokens := s.tokens - {t})
  {
    ReachableInv(s);
    SearchFindsNothing(s, t);
  }

  /**
    * The entry goes under the search exactly when the unregisterService that it has woken comes back, and nothing
    * keeps that from happening once nobody holds the lock.
    */
  lemma SearchLosesEntryIff(s: State, t: nat, e: nat, a: Action)
    requires Reachable(s) && SearchesLive(s, t, e)
    ensures e in s.entries && s.entries[e].phase == ServiceRemove
    ensures Enabled(s, FinishService(s.entries[e].service)) <==> NoReaders(s)
    ensures Enabled(s, a) ==> (e !in Apply(s, a).entries <==> a == FinishService(s.entries[e].service))
    ensures a == FinishService(s.entries[e].service) && Enabled(s, a) ==>
              t in Apply(s, a).tokens && Apply(s, a).tokens[t] == Searching(e, true)
  {
    ReachableInv(s);
    assert TokenInv(s, t);
    if Enabled(s, a) && e !in Apply(s, a).entries {
      OnlyUnregisteringErases(s, a, e);
      assert a.FinishHandler? ==> WaitInv(s, a.service);
    }
  }

  /** The search reads the handler of an entry that has been erased: for each pending unregisterHandler it compares. */
  ghost predicate ReadsErased(s: State, t: nat) {
    && t in s.tokens && s.tokens[t].Searching? && s.tokens[t].erased
    && exists service :: service in s.waits && s.waits[service].HandlerWait?
  }

  /** Two services with a handler each, the handlers in use; `phase` is that of the second. */
  function TwoInUse(phase: Phase): State {
    State(map[0 := Entry(0, 0, 0, 1, Active), 1 := Entry(1, 1, 1, 1, phase)],
          if phase == Active then map[] else map[1 := HandlerWait(1, 1)], map[0 := Held(0), 1 := Held(1)], map[])
  }

  /** The second handler is being unregistered, and the first with its service; `first` is the first one's user. */
  function TwoRemovals(first: Token, users: nat, counter: int, latch: int): State {
    State(map[0 := Entry(0, 0, 0, users, ServiceRemove), 1 := Entry(1, 1, 1, 1, HandlerRemove)],
          map[0 := ServiceWait(counter, latch), 1 := HandlerWait(1, 1)], map[0 := first, 1 := Held(1)], map[])
  }

  lemma ReachesNext(s: State, a: Action, s': State)
    requires Reachable(s) && Enabled(s, a) && s' == Apply(s, a)
    ensures Reachable(s')
  {
    var run :| Runs(Initial(), run, s);
    assert Runs(s', [], s');
    assert [a][1..] == [];
    assert Runs(s, [a], s');
    RunsJoin(Initial(), run, s, [a], s');
  }

  lemma InUseReached()
    ensures Reachable(TwoInUse(Active))
  {
    var s0 := Initial();
    assert Runs(s0, [], s0);
    var s1 := Apply(s0, Register(0, 0, 0, 0));
    ReachesNext(s0, Register(0, 0, 0, 0), s1);
    var s2 := Apply(s1, Register(1, 1, 1, 1));
    ReachesNext(s1, Register(1, 1, 1, 1), s2);
    var s3 := Apply(s2, Acquire(0, 0));
    ReachesNext(s2, Acquire(0, 0), s3);
    ReachesNext(s3, Acquire(1, 1), TwoInUse(Active));
  }

  lemma HandlerRemovalReached()
    ensures Reachable(TwoInUse(HandlerRemove))
  {
    InUseReached();
    ReachesNext(TwoInUse(Active), UnregisterHandler(1), TwoInUse(HandlerRemove));
  }

  lemma OneInUse()
    ensures InUseSum(TwoInUse(HandlerRemove).entries, 0) == 1
  {
    var s := TwoInUse(HandlerRemove);
    HandlerRemovalReached();
    ReachableInv(s);
    CountersMatchTokens(s);
    SumIsDebtors(s.entries, s.tokens, 0);
    assert Debtors(s.entries, s.tokens, 0) == {0};
  }

  lemma ServiceRemovalForm()
    ensures Enabled(TwoInUse(HandlerRemove), UnregisterService(0))
    ensures Apply(TwoInUse(HandlerRemove), UnregisterService(0)) == TwoRemovals(Held(0), 1, 1, 1)
  {
    OneInUse();
    assert Marked(TwoInUse(HandlerRemove).entries, 0) == TwoRemovals(Held(0), 1, 1, 1).entries;
  }

  lemma DecrementForm()
    ensures var s := TwoRemovals(Locked(0), 1, 1, 1);
            Enabled(s, Decrement(0)) && Apply(s, Decrement(0)) == TwoRemovals(Decremented(0, 1), 0, 1, 1)
  {
    assert Counted(TwoRemovals(Locked(0), 1, 1, 1).entries, 0, -1) == TwoRemovals(Decremented(0, 1), 0, 1, 1).entries;
  }

  lemma ExamineForm()
    ensures var s := TwoRemovals(Decremented(0, 1), 0, 1, 1);
            Enabled(s, Examine(0)) && Apply(s, Examine(0)) == TwoRemovals(ToSignal(0, SearchFor(0)), 0, 0, 1)
  {
    var s := TwoRemovals(Decremented(0, 1), 0, 1, 1);
    assert s.waits[0 := ServiceWait(0, 1)] == TwoRemovals(ToSignal(0, SearchFor(0)), 0, 0, 1).waits;
  }

  lemma SignalForm()
    ensures var s := TwoRemovals(ToSignal(0, SearchFor(0)), 0, 0, 1);
            Enabled(s, Unlock(0)) && Apply(s, Unlock(0)) == TwoRemovals(Signalling(0, SearchFor(0)), 0, 0, 1)
    ensures var s := TwoRemovals(Signalling(0, SearchFor(0)), 0, 0, 1);
            Enabled(s, CountDown(0)) && Apply(s, CountDown(0)) == TwoRemovals(Searching(0, false), 0, 0, 0)
  {
    var s := TwoRemovals(Signalling(0, SearchFor(0)), 0, 0, 1);
    assert CountedDown(s.waits, 0) == TwoRemovals(Searching(0, false), 0, 0, 0).waits;
  }

  lemma ReleaseBegun()
    ensures Reachable(TwoRemovals(Decremented(0, 1), 0, 1, 1))
  {
    HandlerRemovalReached();
    ServiceRemovalForm();
    var held, locked := TwoRemovals(Held(0), 1, 1, 1), TwoRemovals(Locked(0), 1, 1, 1);
    ReachesNext(TwoInUse(HandlerRemove), UnregisterService(0), held);
    ReachesNext(held, EnterRelease(0), locked);
    DecrementForm();
    ReachesNext(locked, Decrement(0), TwoRemovals(Decremented(0, 1), 0, 1, 1));
  }

  /** A release that has woken one service's removal while a handler of another service awaits its own. */
  lemma SearchReached()
    ensures Reachable(TwoRemovals(Searching(0, false), 0, 0, 0))
  {
    ReleaseBegun();
    ExamineForm();
    SignalForm();
    var waking := TwoRemovals(ToSignal(0, SearchFor(0)), 0, 0, 1);
    var signalling := TwoRemovals(Signalling(0, SearchFor(0)), 0, 0, 1);
    ReachesNext(TwoRemovals(Decremented(0, 1), 0, 1, 1), Examine(0), waking);
    ReachesNext(waking, Unlock(0), signalling);
    ReachesNext(signalling, CountDown(0), TwoRemovals(Searching(0, false), 0, 0, 0));
  }

  /** Such a state is reached: the removals of two services overlap, and a release outlasts one of them. */
  lemma ErasedIsRead() returns (s: State)
    ensures Reachable(s) && ReadsErased(s, 0)
  {
    var searching := TwoRemovals(Searching(0, false), 0, 0, 0);
    SearchReached();
    s := Apply(searching, FinishService(0));
    ReachesNext(searching, FinishService(0), s);
    assert s.waits[1].HandlerWait?;
  }

  // ---------------------------------------------------------------- counters and latches

  lemma AwaitedNeverGrows(s: State, a: Action, e: nat)
    requires Enabled(s, a) && e in s.entries && e in Apply(s, a).entries
    requires s.entries[e].phase != Active && s.entries[e].service in s.waits
    ensures Apply(s, a).entries[e].inUse <= s.entries[e].inUse && Apply(s, a).entries[e].phase == s.entries[e].phase
  {
  }

  /** Once an entry has left the active phase its counter never grows, and it does not become active again. */
  lemma InUseNeverGrows(s: State, a: Action, e: nat)
    requires Reachable(s) && Enabled(s, a) && e in s.entries && e in Apply(s, a).entries && s.entries[e].phase != Active
    ensures Apply(s, a).entries[e].inUse <= s.entries[e].inUse
    ensures Apply(s, a).entries[e].phase == s.entries[e].phase
  {
    ReachableInv(s);
    assert EntryInv(s, e);
    AwaitedNeverGrows(s, a, e);
  }

  /** The releasers between the entry's decrement and the service's. */
  function Betweens(s: State, service: nat): set<nat> {
    set t | t in s.tokens && s.tokens[t].Decremented? && Owes(s.entries, s.tokens[t], service)
  }

  function Undecremented(tokens: map<nat, Token>): map<nat, Token> {
    map t | t in tokens && !tokens[t].Decremented? :: tokens[t]
  }

  lemma SumIsUndecremented(s: State, service: nat)
    requires Inv(s)
    ensures InUseSum(s.entries, service) == |Debtors(s.entries, Undecremented(s.tokens), service)|
  {
    CountersMatchTokens(s);
    forall e | e in s.entries ensures s.entries[e].inUse == |Users(Undecremented(s.tokens), e)| {
      assert Users(Undecremented(s.tokens), e) == Users(s.tokens, e);
    }
    SumIsDebtors(s.entries, Undecremented(s.tokens), service);
  }

  lemma DebtorsSplit(s: State, service: nat)
    ensures |Debtors(s.entries, s.tokens, service)| ==
            |Debtors(s.entries, Undecremented(s.tokens), service)| + |Betweens(s, service)|
  {
    var users := Debtors(s.entries, Undecremented(s.tokens), service);
    assert Debtors(s.entries, s.tokens, service) == users + Betweens(s, service);
    assert users !! Betweens(s, service);
  }

  /** A pending service counter is the in-use sum of its entries plus the releasers between the two decrements. */
  lemma ServiceCounterIsSum(s: State, service: nat)
    requires Reachable(s) && service in s.waits && s.waits[service].ServiceWait?
    ensures s.waits[service].counter == InUseSum(s.entries, service) + |Betweens(s, service)|
  {
    ReachableInv(s);
    assert WaitInv(s, service);
    SumIsUndecremented(s, service);
    DebtorsSplit(s, service);
  }

  /** Each latch is counted down once: whoever does it finds it up, leaves it down, and nobody else is on the way. */
  lemma LatchCountedDownOnce(s: State, t: nat)
    requires Reachable(s) && t in s.tokens && s.tokens[t].Signalling?
    ensures Enabled(s, CountDown(t))
    ensures var service, s' := s.tokens[t].service, Apply(s, CountDown(t));
            && s.waits[service].latch == 1 && service in s'.waits && s'.waits[service].latch == 0
            && Signallers(s'.tokens, service) == {}
            && (s.waits[service].HandlerWait? ==>
                  s.waits[service].entry in s'.entries && Lasts(s'.tokens, s.waits[service].entry) == {})
  {
    ReachableInv(s);
    var service := s.tokens[t].service;
    SignallerFindsLatchUp(s, t, service);
    StepKeeps(s, CountDown(t));
    assert WaitInv(s, service) && WaitInv(Apply(s, CountDown(t)), service);
  }

  /** A caller on whom the wait of a service depends. */
  ghost predicate Awaited(s: State, t: nat, service: nat)
    requires t in s.tokens && service in s.waits
  {
    || Signals(s.tokens[t], service)
    || match s.waits[service]
       case ServiceWait(_, _) => Owes(s.entries, s.tokens[t], service)
       case HandlerWait(e, _) => Holds(s.tokens[t], e)
  }

  /** The next step of a caller that has begun, or is about to begin, its release. */
  function NextOf(k: Token, t: nat): Action {
    match k
    case Collected(_, _) => Undo(t)
    case Held(_) => EnterRelease(t)
    case Locked(_) => Decrement(t)
    case Decremented(_, _) => Examine(t)
    case Leaving => Unlock(t)
    case ToSignal(_, _) => Unlock(t)
    case Signalling(_, _) => CountDown(t)
    case Searching(_, _) => SearchUnlocked(t)
  }

  /**
    * No wake-up is lost: while a latch is up, some caller still holds an entry of the service or is releasing
    * it, and nothing keeps that caller from its next step.
    */
  lemma NoLostWakeUp(s: State, service: nat) returns (t: nat)
    requires Reachable(s) && service in s.waits && s.waits[service].latch != 0
    ensures t in s.tokens && Awaited(s, t, service) && !s.tokens[t].Collected?
    ensures Enabled(s, NextOf(s.tokens[t], t))
  {
    ReachableInv(s);
    t := AwaitedCaller(s, service);
    assert TokenInv(s, t);
    if s.tokens[t].Locked? {
      assert EntryInv(s, s.tokens[t].entry) && t in Users(s.tokens, s.tokens[t].entry);
    }
  }

  lemma AwaitedCaller(s: State, service: nat) returns (t: nat)
    requires Inv(s) && service in s.waits && s.waits[service].latch != 0
    ensures t in s.tokens && Awaited(s, t, service) && !s.tokens[t].Collected?
  {
    assert WaitInv(s, service);
    var debtors, signallers := Debtors(s.entries, s.tokens, service), Signallers(s.tokens, service);
    if signallers != {} {
      t :| t in signallers;
    } else if s.waits[service].ServiceWait? {
      t :| t in debtors;
      assert TokenInv(s, t) && EntryInv(s, s.tokens[t].entry);
    } else {
      var e := s.waits[service].entry;
      assert EntryInv(s, e);
      if s.entries[e].inUse == 0 {
        t :| t in Lasts(s.tokens, e);
      } else {
        t :| t in Users(s.tokens, e);
        assert TokenInv(s, t);
      }
    }
  }

  /** How many steps a release still takes at most. */
  function StepsLeft(k: Token): nat {
    match k
    case Collected(_, _) => 7
    case Held(_) => 6
    case Locked(_) => 5
    case Decremented(_, _) => 4
    case ToSignal(_, _) => 3
    case Signalling(_, _) => 2
    case Searching(_, _) => 1
    case Leaving => 1
  }

  /** Caller `t` is gone, or nearer to the end of its release; nobody else has moved. */
  ghost predicate Nearer(s: State, s': State, t: nat)
    requires t in s.tokens
  {
    && s'.waits.Keys == s.waits.Keys && s'.acquirers == s.acquirers
    && (|| s'.tokens == s.tokens - {t}
        || (s'.tokens.Keys == s.tokens.Keys && StepsLeft(s'.tokens[t]) < StepsLeft(s.tokens[t])))
  }

  lemma ExamineAdvances(s: State, t: nat)
    requires Enabled(s, Examine(t))
    ensures Nearer(s, Apply(s, Examine(t)), t)
  {
  }

  /** Outside aquireHandlers every caller can take its next step. */
  lemma ReleaseAdvances(s: State, t: nat)
    requires Inv(s) && s.acquirers == map[] && t in s.tokens
    ensures Enabled(s, NextOf(s.tokens[t], t)) && !s.tokens[t].Collected?
  {
    assert TokenInv(s, t);
    if s.tokens[t].Locked? {
      assert EntryInv(s, s.tokens[t].entry) && t in Users(s.tokens, s.tokens[t].entry);
    }
  }

  lemma NobodyToWaitFor(s: State, service: nat)
    requires Inv(s) && s.tokens == map[] && service in s.waits
    ensures s.waits[service].latch == 0
  {
    if s.waits[service].latch != 0 {
      var t := AwaitedCaller(s, service);
    }
  }

  lemma {:induction false} RunsJoin(s: State, run: seq<Action>, m: State, rest: seq<Action>, s': State)
    requires Runs(s, run, m) && Runs(m, rest, s')
    ensures Runs(s, run + rest, s')
    decreases |run|
  {
    if run == [] {
      assert run + rest == rest;
    } else {
      RunsJoin(Apply(s, run[0]), run[1..], m, rest, s');
      assert (run + rest)[1..] == run[1..] + rest;
    }
  }

  /** What an aquireHandlers call under way can do to come to its end: give a counter back, or finish. */
  ghost function NextOfMany(s: State, m: nat): Action
    requires m in s.acquirers
  {
    if s.acquirers[m] && exists t | t in s.tokens :: CollectedBy(s.tokens[t], m) then
      var t :| t in s.tokens && CollectedBy(s.tokens[t], m);
      Undo(t)
    else
      EndMany(m)
  }

  lemma ManyAdvances(s: State, m: nat)
    requires Inv(s) && m in s.acquirers
    ensures Enabled(s, NextOfMany(s, m))
    ensures var s' := Apply(s, NextOfMany(s, m));
            && s'.waits == s.waits
            && (|s'.acquirers| < |s.acquirers| || (s'.acquirers == s.acquirers && |s'.tokens| < |s.tokens|))
  {
    var a := NextOfMany(s, m);
    if a.Undo? {
      assert TokenInv(s, a.token) && EntryInv(s, s.tokens[a.token].entry);
      assert a.token in Users(s.tokens, s.tokens[a.token].entry);
      assert |s.tokens - {a.token}| == |s.tokens| - 1 by {
        MapShrinks(s.tokens, a.token);
      }
    } else {
      MapShrinks(s.acquirers, m);
    }
  }

  lemma MapShrinks<V>(m: map<nat, V>, k: nat)
    requires k in m
    ensures |m - {k}| == |m| - 1
  {
    assert (m - {k}).Keys == m.Keys - {k};
    assert |m - {k}| == |(m - {k}).Keys| && |m| == |m.Keys|;
  }

  /** Every aquireHandlers call under way can come to its end, whether a pushBack of it has failed or not. */
  lemma {:induction false} AcquirersCanFinish(s: State) returns (run: seq<Action>, s': State)
    requires Inv(s)
    ensures Runs(s, run, s') && Inv(s') && s'.acquirers == map[] && s'.waits == s.waits
    decreases |s.acquirers|, |s.tokens|
  {
    if s.acquirers == map[] {
      run, s' := [], s;
    } else {
      var m :| m in s.acquirers;
      var a := NextOfMany(s, m);
      ManyAdvances(s, m);
      StepKeeps(s, a);
      var rest;
      rest, s' := AcquirersCanFinish(Apply(s, a));
      run := [a] + rest;
      assert run[1..] == rest;
    }
  }

  // ---------------------------------------------------------------- whatever the interleaving

  ghost function Total(weights: map<nat, nat>): nat
    decreases |weights|
  {
    if weights == map[] then 0 else
      var k :| k in weights;
      weights[k] + Total(weights - {k})
  }

  /** A total may be taken in any order. */
  lemma {:induction false} TotalWithout(weights: map<nat, nat>, k: nat)
    requires k in weights
    ensures Total(weights) == weights[k] + Total(weights - {k})
    decreases |weights|
  {
    var j :| j in weights && Total(weights) == weights[j] + Total(weights - {j});
    if j != k {
      TotalWithout(weights - {j}, k);
      TotalWithout(weights - {k}, j);
      assert weights - {j} - {k} == weights - {k} - {j};
    }
  }

  ghost predicate Lighter(less: map<nat, nat>, more: map<nat, nat>) {
    forall k | k in less :: k in more && less[k] <= more[k]
  }

  lemma {:induction false} LighterTotal(less: map<nat, nat>, more: map<nat, nat>)
    requires Lighter(less, more)
    ensures Total(less) <= Total(more)
    decreases |less|
  {
    if less != map[] {
      var k :| k in less;
      TotalWithout(less, k);
      TotalWithout(more, k);
      LighterTotal(less - {k}, more - {k});
    }
  }

  lemma StrictlyLighterTotal(less: map<nat, nat>, more: map<nat, nat>, k: nat)
    requires Lighter(less, more) && k in more && (if k in less then less[k] < more[k] else 0 < more[k])
    ensures Total(less) < Total(more)
  {
    TotalWithout(more, k);
    LighterTotal(less - {k}, more - {k});
    if k in less {
      TotalWithout(less, k);
    } else {
      assert less - {k} == less;
    }
  }

  /** The steps that the callers' releases still take at most. */
  function Releasing(s: State): map<nat, nat> {
    map t | t in s.tokens :: StepsLeft(s.tokens[t])
  }

  /** Those of the aquireHandlers calls under way: to fail, and to end. */
  function Acquiring(s: State): map<nat, nat> {
    map m | m in s.acquirers :: if s.acquirers[m] then 1 else 2
  }

  /** How many steps all calls under way can still take together. */
  ghost function Work(s: State): nat {
    Total(Releasing(s)) + Total(Acquiring(s)) + |s.waits|
  }

  /** A new call, or one more entry acquired. */
  predicate Begins(a: Action) {
    || a.Register? || a.UnregisterHandler? || a.UnregisterService? || a.Acquire? || a.BeginMany? || a.Collect?
  }

  /** One caller nearer to its end, or gone. */
  lemma ReleaseWorks(s: State, s': State, t: nat)
    requires t in s.tokens && s'.acquirers == s.acquirers && s'.waits.Keys == s.waits.Keys
    requires forall u | u in s'.tokens :: u in s.tokens && (u != t ==> s'.tokens[u] == s.tokens[u])
    requires t in s'.tokens ==> StepsLeft(s'.tokens[t]) < StepsLeft(s.tokens[t])
    ensures Work(s') < Work(s)
  {
    StrictlyLighterTotal(Releasing(s'), Releasing(s), t);
    assert |s'.waits| == |s'.waits.Keys| && |s.waits| == |s.waits.Keys|;
  }

  /** An aquireHandlers call nearer to its end. */
  lemma AcquiringWorks(s: State, s': State, m: nat)
    requires m in s.acquirers && s'.waits == s.waits
    requires s'.acquirers == s.acquirers - {m} || (!s.acquirers[m] && s'.acquirers == s.acquirers[m := true])
    requires Lighter(Releasing(s'), Releasing(s))
    ensures Work(s') < Work(s)
  {
    LighterTotal(Releasing(s'), Releasing(s));
    StrictlyLighterTotal(Acquiring(s'), Acquiring(s), m);
  }

  /** A waiter comes back. */
  lemma WaiterWorks(s: State, s': State, service: nat)
    requires service in s.waits && s'.waits == s.waits - {service} && s'.acquirers == s.acquirers
    requires Lighter(Releasing(s'), Releasing(s))
    ensures Work(s') < Work(s)
  {
    LighterTotal(Releasing(s'), Releasing(s));
    MapShrinks(s.waits, service);
  }

  lemma ExamineWorks(s: State, t: nat)
    requires Enabled(s, Examine(t))
    ensures Work(Apply(s, Examine(t))) < Work(s)
  {
    ExamineAdvances(s, t);
    ReleaseWorks(s, Apply(s, Examine(t)), t);
  }

  lemma ReleaseStepWorks(s: State, a: Action)
    requires Enabled(s, a) && (a.EnterRelease? || a.Decrement? || a.Undo? || a.Unlock?)
    ensures Work(Apply(s, a)) < Work(s)
  {
    ReleaseWorks(s, Apply(s, a), a.token);
  }

  lemma LatchStepWorks(s: State, a: Action)
    requires Enabled(s, a) && (a.CountDown? || a.SearchUnlocked?)
    ensures Work(Apply(s, a)) < Work(s)
  {
    ReleaseWorks(s, Apply(s, a), a.token);
  }

  lemma FinishWorks(s: State, a: Action)
    requires Enabled(s, a) && (a.FinishHandler? || a.FinishService?)
    ensures Work(Apply(s, a)) < Work(s)
  {
    WaiterWorks(s, Apply(s, a), a.service);
  }

  lemma ManyWorks(s: State, a: Action)
    requires Enabled(s, a) && (a.FailMany? || a.EndMany?)
    ensures Work(Apply(s, a)) < Work(s)
  {
    AcquiringWorks(s, Apply(s, a), a.acquirer);
  }

  /** Every step that begins nothing new leaves less to do, whoever takes it. */
  lemma StepWorks(s: State, a: Action)
    requires Enabled(s, a) && !Begins(a)
    ensures Work(Apply(s, a)) < Work(s)
  {
    if a.FinishHandler? || a.FinishService? {
      FinishWorks(s, a);
    } else if a.FailMany? || a.EndMany? {
      ManyWorks(s, a);
    } else if a.Examine? {
      ExamineWorks(s, a.token);
    } else if a.CountDown? || a.SearchUnlocked? {
      LatchStepWorks(s, a);
    } else {
      ReleaseStepWorks(s, a);
    }
  }

  /** No interleaving goes on for ever: as long as nothing new begins, a run has no more steps than there is work. */
  lemma {:induction false} RunsAreBounded(s: State, run: seq<Action>, s': State)
    requires Runs(s, run, s') && forall i | 0 <= i < |run| :: !Begins(run[i])
    ensures |run| + Work(s') <= Work(s)
    decreases |run|
  {
    if run != [] {
      StepWorks(s, run[0]);
      RunsAreBounded(Apply(s, run[0]), run[1..], s');
    }
  }

  /** As long as anything is under way, a step that begins nothing new is possible. */
  lemma SomeoneGoesOn(s: State) returns (a: Action)
    requires Inv(s) && !(s.tokens == map[] && s.acquirers == map[] && s.waits == map[])
    ensures Enabled(s, a) && !Begins(a)
  {
    if s.acquirers != map[] {
      var m :| m in s.acquirers;
      ManyAdvances(s, m);
      a := NextOfMany(s, m);
    } else if s.tokens != map[] {
      var t :| t in s.tokens;
      ReleaseAdvances(s, t);
      a := NextOf(s.tokens[t], t);
    } else {
      var service :| service in s.waits;
      a := WaiterComesBack(s, service);
    }
  }

  lemma WaiterComesBack(s: State, service: nat) returns (a: Action)
    requires Inv(s) && s.tokens == map[] && s.acquirers == map[] && service in s.waits
    ensures Enabled(s, a) && !Begins(a)
  {
    NobodyToWaitFor(s, service);
    a := if s.waits[service].HandlerWait? then FinishHandler(service) else FinishService(service);
  }

  /** And where it can go no further, nobody is left waiting, holding or releasing. */
  lemma StuckIsDone(s: State)
    requires Reachable(s) && forall a | Enabled(s, a) :: Begins(a)
    ensures s.tokens == map[] && s.acquirers == map[] && s.waits == map[]
  {
    ReachableInv(s);
    if !(s.tokens == map[] && s.acquirers == map[] && s.waits == map[]) {
      var a := SomeoneGoesOn(s);
    }
  }

  /**
    * No deadlock: from every state that any interleaving reaches, every call under way can come to its end, the
    * pending unregister calls among them, without a new call.
    */
  lemma CallersCanDrain(s: State) returns (run: seq<Action>, s': State)
    requires Reachable(s)
    ensures Runs(s, run, s') && forall i | 0 <= i < |run| :: !Begins(run[i])
    ensures s'.tokens == map[] && s'.acquirers == map[] && s'.waits == map[]
  {
    ReachableInv(s);
    run, s' := Drain(s);
  }

  lemma {:induction false} Drain(s: State) returns (run: seq<Action>, s': State)
    requires Inv(s)
    ensures Runs(s, run, s') && forall i | 0 <= i < |run| :: !Begins(run[i])
    ensures s'.tokens == map[] && s'.acquirers == map[] && s'.waits == map[]
    decreases Work(s)
  {
    if s.tokens == map[] && s.acquirers == map[] && s.waits == map[] {
      run, s' := [], s;
    } else {
      var a := SomeoneGoesOn(s);
      StepKeeps(s, a);
      StepWorks(s, a);
      var rest;
      rest, s' := Drain(Apply(s, a));
      run := [a] + rest;
      assert run[1..] == rest;
    }
  }

  /** Giving collected counters back touches no wait: no removal's last release is consumed by it. */
  lemma RollbackConsumesNoSignal(s: State, t: nat)
    requires Reachable(s) && Enabled(s, Undo(t))
    ensures var s', e := Apply(s, Undo(t)), s.tokens[t].entry;
            && s'.waits == s.waits
            && s.entries[e].phase == Active
            && s'.entries == s.entries[e := s.entries[e].(inUse := s.entries[e].inUse - 1)]
            && forall service | service in s.waits :: !Awaited(s, t, service)
  {
    ReachableInv(s);
    assert TokenInv(s, t);
    forall service | service in s.waits ensures !Awaited(s, t, service) {
      ActiveIsAwaitedByNone(s, s.tokens[t].entry, service);
    }
  }
}
