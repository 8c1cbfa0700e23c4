/**
  * The methods of GenericServerDataHandlerRegistrar, each between taking a lock and giving it up. What a method
  * does to the object is a run of the transition system; the callers' positions are ghost.
  */
module RegistrarCode {
  import opened Status
  import opened Registrar
  import opened RegistrarSafety
  import opened RegistrarRuns

  ghost predicate Performs(s: State, s': State) {
    exists run :: Runs(s, run, s')
  }

  lemma NothingPerformed(s: State)
    ensures Performs(s, s)
  {
    assert Runs(s, [], s);
  }

  lemma {:induction false} RunsAppend(s: State, run: seq<Action>, s': State, a: Action)
    requires Runs(s, run, s') && Enabled(s', a)
    ensures Runs(s, run + [a], Apply(s', a))
    decreases |run|
  {
    if run == [] {
      assert ([] + [a])[1..] == [];
    } else {
      RunsAppend(Apply(s, run[0]), run[1..], s', a);
      assert (run + [a])[1..] == run[1..] + [a];
    }
  }

  lemma PerformsNext(s: State, s': State, a: Action)
    requires Performs(s, s') && Enabled(s', a)
    ensures Performs(s, Apply(s', a))
  {
    var run :| Runs(s, run, s');
    RunsAppend(s, run, s', a);
  }

  /** A sum may be taken in any order. */
  lemma {:induction false} SumWithout(entries: map<nat, Entry>, service: nat, e: nat)
    requires e in entries
    ensures InUseSum(entries, service) ==
            (if entries[e].service == service then entries[e].inUse else 0) + InUseSum(entries - {e}, service)
    decreases |entries|
  {
    var f :| f in entries && InUseSum(entries, service) ==
      (if entries[f].service == service then entries[f].inUse else 0) + InUseSum(entries - {f}, service);
    if f != e {
      SumWithout(entries - {f}, service, e);
      SumWithout(entries - {e}, service, f);
      assert entries - {f} - {e} == entries - {e} - {f};
    }
  }

  function Range(entries: map<nat, Entry>, message: nat): set<nat> {
    set e | e in entries && entries[e].message == message
  }

  /** If the only entry of a message is not active, none is. */
  lemma OnlyOneInactive(entries: map<nat, Entry>, message: nat)
    requires |Range(entries, message)| == 1 && Range(entries, message) != ActiveOnes(entries, message)
    ensures ActiveOnes(entries, message) == {}
  {
    var range, active := Range(entries, message), ActiveOnes(entries, message);
    var e :| e in range;
    assert |range - {e}| == 0;
    assert range == {e} && active <= range;
  }

  function ActiveOnes(entries: map<nat, Entry>, message: nat): set<nat> {
    set e | e in entries && entries[e].message == message && entries[e].phase == Active
  }

  predicate Unique(handles: seq<nat>) {
    forall i, j | 0 <= i < j < |handles| :: handles[i] != handles[j]
  }

  /** The counters of all of `handles` one higher. */
  function Bumped(entries: map<nat, Entry>, handles: seq<nat>): map<nat, Entry> {
    map e | e in entries :: if e in handles then entries[e].(inUse := entries[e].inUse + 1) else entries[e]
  }

  lemma NextStep(s0: State, s: State, a: Action)
    requires Inv(s) && Performs(s0, s) && Enabled(s, a)
    ensures Inv(Apply(s, a)) && Performs(s0, Apply(s, a))
  {
    StepKeeps(s, a);
    PerformsNext(s0, s, a);
  }

  /** `s0` after the call `m` has collected `handles` on behalf of the callers m + 1, m + 2 and so on. */
  ghost predicate HasCollected(s0: State, s: State, m: nat, handles: seq<nat>) {
    && s.waits == s0.waits && s.acquirers == s0.acquirers[m := false]
    && s.entries == Bumped(s0.entries, handles)
    && (forall t :: t in s.tokens <==> t in s0.tokens || m < t <= m + |handles|)
    && (forall t | t in s0.tokens :: s.tokens[t] == s0.tokens[t])
    && (forall i | 0 <= i < |handles| :: s.tokens[m + 1 + i] == Collected(m, handles[i]))
  }

  /** Since `s0` entries have been acquired for the callers behind `m`; those from `low` on are still held. */
  ghost predicate Holding(s0: State, s: State, m: nat, handles: seq<nat>, low: nat)
    requires low <= |handles|
  {
    && Unique(handles) && (forall e | e in handles :: e in s0.entries && s0.entries[e].phase == Active)
    && s.entries == Bumped(s0.entries, handles[low..]) && s.waits == s0.waits && s.acquirers == s0.acquirers
    && (forall t :: t in s.tokens <==> t in s0.tokens || m + low < t <= m + |handles|)
    && (forall t | t in s0.tokens :: t < m && s.tokens[t] == s0.tokens[t])
    && (forall i | low <= i < |handles| :: s.tokens[m + 1 + i] == Held(handles[i]))
  }

  ghost predicate Collectable(s0: State, m: nat, handles: seq<nat>) {
    && Unique(handles) && (forall e | e in handles :: e in s0.entries && s0.entries[e].phase == Active)
    && m !in s0.acquirers && (forall t | t in s0.tokens :: t < m)
  }

  lemma CollectsLast(s0: State, s: State, m: nat, handles: seq<nat>)
    requires handles != [] && Collectable(s0, m, handles)
    requires HasCollected(s0, s, m, handles[..|handles| - 1])
    ensures var a := Collect(m, m + |handles|, handles[|handles| - 1]);
            Enabled(s, a) && HasCollected(s0, Apply(s, a), m, handles)
  {
    var n, e := |handles| - 1, handles[|handles| - 1];
    assert handles == handles[..n] + [e];
    assert e !in handles[..n];
    assert Counted(s.entries, e, 1) == Bumped(s0.entries, handles);
  }

  lemma {:induction false} CollectingRuns(s0: State, m: nat, handles: seq<nat>) returns (s: State)
    requires Inv(s0) && Collectable(s0, m, handles)
    ensures Inv(s) && Performs(s0, s) && HasCollected(s0, s, m, handles)
    decreases |handles|
  {
    if handles == [] {
      NothingPerformed(s0);
      NextStep(s0, s0, BeginMany(m));
      s := Apply(s0, BeginMany(m));
      assert Bumped(s0.entries, []) == s0.entries;
    } else {
      var before := CollectingRuns(s0, m, handles[..|handles| - 1]);
      var a := Collect(m, m + |handles|, handles[|handles| - 1]);
      CollectsLast(s0, before, m, handles);
      NextStep(s0, before, a);
      s := Apply(before, a);
    }
  }

  /** A successful aquireHandlers is a run: its last step hands everything over to the callers. */
  lemma AcquiringRuns(s0: State, m: nat, handles: seq<nat>) returns (s: State)
    requires Inv(s0) && Collectable(s0, m, handles)
    ensures Inv(s) && Performs(s0, s) && Holding(s0, s, m, handles, 0) && s.entries == Bumped(s0.entries, handles)
  {
    assert handles[0..] == handles;
    var before := CollectingRuns(s0, m, handles);
    NextStep(s0, before, EndMany(m));
    s := Apply(before, EndMany(m));
    assert s0.acquirers[m := false] - {m} == s0.acquirers;
    forall t | t in s0.tokens ensures !CollectedBy(s0.tokens[t], m) {
      assert TokenInv(s0, t);
    }
  }

  /** What the switch of releaseHandler does to the waits, for an entry `x` as it was before the release. */
  function ExaminedWaits(waits: map<nat, Wait>, x: Entry): map<nat, Wait> {
    if x.phase == ServiceRemove && x.service in waits && waits[x.service].ServiceWait?
    then waits[x.service := waits[x.service].(counter := waits[x.service].counter - 1)]
    else waits
  }

  /** Whether the releaser has a latch to count down. */
  predicate Wakes(waits: map<nat, Wait>, x: Entry) {
    || (&& x.phase == ServiceRemove
        && x.service in waits && waits[x.service].ServiceWait? && waits[x.service].counter == 1)
    || (x.phase == HandlerRemove && x.inUse == 1)
  }

  /** Where the switch leaves the releaser of entry `e`. */
  function Verdict(waits: map<nat, Wait>, e: nat, x: Entry): Token {
    if Wakes(waits, x)
    then ToSignal(x.service, if x.phase == ServiceRemove && x.inUse == 1 then SearchFor(e) else NoSearch)
    else Leaving
  }

  /** What a whole release of entry `x` does to the waits. */
  function ReleasedWaits(waits: map<nat, Wait>, x: Entry): map<nat, Wait> {
    var examined := ExaminedWaits(waits, x);
    if Wakes(waits, x) && x.service in examined then CountedDown(examined, x.service) else examined
  }

  /** The state once caller `t` has left, or counted a latch down, searched in vain, and left. */
  function Left(s: State, t: nat): State
    requires t in s.tokens
  {
    var waits := if s.tokens[t].ToSignal? && s.tokens[t].service in s.waits
                 then CountedDown(s.waits, s.tokens[t].service) else s.waits;
    State(s.entries, waits, s.tokens - {t}, s.acquirers)
  }

  lemma UnlockingForm(s: State, t: nat)
    requires t in s.tokens && (s.tokens[t].Leaving? || (s.tokens[t].ToSignal? && s.tokens[t].service in s.waits))
    ensures var unlocked := Apply(s, Unlock(t));
            if s.tokens[t].Leaving? then unlocked == Left(s, t)
            else
              && Enabled(unlocked, CountDown(t))
              && var down := Apply(unlocked, CountDown(t));
                 if s.tokens[t].next.SearchFor?
                 then t in down.tokens && down.tokens[t].Searching? && down.(tokens := down.tokens - {t}) == Left(s, t)
                 else down == Left(s, t)
  {
    var k := s.tokens[t];
    if k.ToSignal? {
      assert s.tokens[t := Signalling(k.service, k.next)] - {t} == s.tokens - {t};
      assert s.tokens[t := Searching(0, false)] - {t} == s.tokens - {t};
    }
  }

  lemma SignallingRuns(s0: State, s: State, t: nat)
    requires Inv(s) && Performs(s0, s) && t in s.tokens && s.tokens[t].ToSignal?
    ensures Inv(Left(s, t)) && Performs(s0, Left(s, t))
  {
    assert TokenInv(s, t);
    UnlockingForm(s, t);
    NextStep(s0, s, Unlock(t));
    var unlocked := Apply(s, Unlock(t));
    NextStep(s0, unlocked, CountDown(t));
    if s.tokens[t].next.SearchFor? {
      SearchFindsNothing(Apply(unlocked, CountDown(t)), t);
      NextStep(s0, Apply(unlocked, CountDown(t)), SearchUnlocked(t));
    }
  }

  lemma LeavingRuns(s0: State, s: State, t: nat)
    requires Inv(s) && Performs(s0, s) && t in s.tokens && (s.tokens[t].Leaving? || s.tokens[t].ToSignal?)
    ensures Inv(Left(s, t)) && Performs(s0, Left(s, t))
  {
    if s.tokens[t].Leaving? {
      UnlockingForm(s, t);
      NextStep(s0, s, Unlock(t));
    } else {
      SignallingRuns(s0, s, t);
    }
  }

  /** The state once caller `t` of entry `e` has taken the lock and decremented the counter. */
  ghost predicate HasDecremented(s0: State, s: State, t: nat, e: nat) {
    && e in s0.entries && 0 < s0.entries[e].inUse
    && s == State(Counted(s0.entries, e, -1), s0.waits, s0.tokens[t := Decremented(e, s0.entries[e].inUse)],
                  s0.acquirers)
  }

  lemma DecrementingForm(s0: State, t: nat, e: nat)
    requires Inv(s0) && t in s0.tokens && s0.tokens[t] == Held(e)
    ensures Enabled(s0, EnterRelease(t))
    ensures var locked := Apply(s0, EnterRelease(t));
            Enabled(locked, Registrar.Decrement(t)) && HasDecremented(s0, Apply(locked, Registrar.Decrement(t)), t, e)
  {
    assert TokenInv(s0, t) && EntryInv(s0, e) && t in Users(s0.tokens, e);
    assert s0.tokens[t := Locked(e)][t := Decremented(e, s0.entries[e].inUse)] ==
           s0.tokens[t := Decremented(e, s0.entries[e].inUse)];
  }

  /** Before its entry's counter goes down a release only takes the lock. */
  lemma DecrementingRuns(s0: State, t: nat, e: nat) returns (s: State)
    requires Inv(s0) && t in s0.tokens && s0.tokens[t] == Held(e)
    ensures Inv(s) && Performs(s0, s) && HasDecremented(s0, s, t, e)
  {
    DecrementingForm(s0, t, e);
    NothingPerformed(s0);
    NextStep(s0, s0, EnterRelease(t));
    var locked := Apply(s0, EnterRelease(t));
    NextStep(s0, locked, Registrar.Decrement(t));
    s := Apply(locked, Registrar.Decrement(t));
  }

  /** What examining an entry makes of the state, spoken of as the code sees it. */
  ghost predicate ExaminedAs(s: State, t: nat, x: Entry)
    requires Enabled(s, Examine(t))
  {
    Apply(s, Examine(t)) ==
    s.(waits := ExaminedWaits(s.waits, x), tokens := s.tokens[t := Verdict(s.waits, s.tokens[t].entry, x)])
  }

  lemma ExaminingHandler(s: State, t: nat, x: Entry)
    requires Inv(s) && Enabled(s, Examine(t)) && s.entries[s.tokens[t].entry].phase == HandlerRemove
    requires x == s.entries[s.tokens[t].entry].(inUse := s.tokens[t].previous)
    ensures ExaminedAs(s, t, x)
  {
    var l := ExaminedForHandler(s, t);
  }

  lemma ExaminingService(s: State, t: nat, x: Entry)
    requires Inv(s) && Enabled(s, Examine(t)) && s.entries[s.tokens[t].entry].phase == ServiceRemove
    requires x == s.entries[s.tokens[t].entry].(inUse := s.tokens[t].previous)
    ensures ExaminedAs(s, t, x)
  {
    var l := ExaminedForService(s, t);
  }

  /** The switch of releaseHandler under the invariant. */
  lemma ExaminingForm(s: State, t: nat, x: Entry)
    requires Inv(s) && Enabled(s, Examine(t))
    requires x == s.entries[s.tokens[t].entry].(inUse := s.tokens[t].previous)
    ensures ExaminedAs(s, t, x)
  {
    match s.entries[s.tokens[t].entry].phase
    case Active =>
    case ServiceRemove => ExaminingService(s, t, x);
    case HandlerRemove => ExaminingHandler(s, t, x);
  }

  lemma ExaminingRuns(s0: State, s: State, t: nat, x: Entry) returns (s': State)
    requires Inv(s) && Performs(s0, s) && Enabled(s, Examine(t))
    requires x == s.entries[s.tokens[t].entry].(inUse := s.tokens[t].previous)
    ensures Inv(s') && Performs(s0, s')
    ensures s' == s.(waits := ExaminedWaits(s.waits, x),
                     tokens := s.tokens[t := Verdict(s.waits, s.tokens[t].entry, x)])
  {
    ExaminingForm(s, t, x);
    NextStep(s0, s, Examine(t));
    s' := Apply(s, Examine(t));
  }

  /** The state once caller `t` of entry `e` has gone through the whole release. */
  ghost predicate HasReleased(s0: State, s: State, t: nat, e: nat) {
    && e in s0.entries && 0 < s0.entries[e].inUse
    && s == State(Counted(s0.entries, e, -1), ReleasedWaits(s0.waits, s0.entries[e]), s0.tokens - {t}, s0.acquirers)
  }

  /** A release from beginning to end is a run. */
  lemma ReleasingRuns(s0: State, t: nat, e: nat) returns (s': State)
    requires Inv(s0) && t in s0.tokens && s0.tokens[t] == Held(e)
    ensures Inv(s') && Performs(s0, s') && HasReleased(s0, s', t, e)
  {
    var decremented := DecrementingRuns(s0, t, e);
    var examined := ExaminingRuns(s0, decremented, t, s0.entries[e]);
    LeavingRuns(s0, examined, t);
    s' := Left(examined, t);
    ReleasedForm(s0, decremented, examined, t, e);
  }

  lemma ReleasedForm(s0: State, decremented: State, examined: State, t: nat, e: nat)
    requires HasDecremented(s0, decremented, t, e)
    requires examined == decremented.(waits := ExaminedWaits(s0.waits, s0.entries[e]),
                                      tokens := decremented.tokens[t := Verdict(s0.waits, e, s0.entries[e])])
    ensures HasReleased(s0, Left(examined, t), t, e)
  {
    TokensReleased(s0.tokens, t, decremented.tokens, examined.tokens);
  }

  lemma TokensReleased(tokens: map<nat, Token>, t: nat, decremented: map<nat, Token>, examined: map<nat, Token>)
    requires t in decremented && decremented == tokens[t := decremented[t]]
    requires t in examined && examined == decremented[t := examined[t]]
    ensures examined - {t} == tokens - {t}
  {
  }

  /** The pending unregisterHandler calls are the same. */
  ghost predicate SameHandlerWaits(waits: map<nat, Wait>, after: map<nat, Wait>) {
    && waits.Keys == after.Keys
    && forall w | w in waits && (waits[w].HandlerWait? || after[w].HandlerWait?) :: after[w] == waits[w]
  }

  /** Only the removal of this very handler waits for it, and that of its service counts its users. */
  ghost predicate Examinable(s: State, e: nat) {
    && e in s.entries
    && (s.entries[e].phase == ServiceRemove ==>
          s.entries[e].service in s.waits && s.waits[s.entries[e].service].ServiceWait?)
    && (forall w | w in s.waits && s.waits[w].HandlerWait? :: s.waits[w].entry in s.entries)
    && (forall w :: WaitsFor(s, w, s.entries[e].handler) <==>
                    w == s.entries[e].service && s.entries[e].phase == HandlerRemove)
  }

  lemma DecrementedIsExaminable(s0: State, s: State, e: nat)
    requires Inv(s0) && e in s0.entries && 0 < s0.entries[e].inUse
    requires s.entries == Counted(s0.entries, e, -1) && s.waits == s0.waits
    ensures Examinable(s, e)
  {
    assert EntryInv(s0, e);
    forall w | w in s.waits ensures s.waits[w].HandlerWait? ==> s.waits[w].entry in s.entries {
      assert WaitInv(s0, w);
    }
    ScanFindsOwnWait(s0, e);
    forall w ensures WaitsFor(s, w, s.entries[e].handler) <==> WaitsFor(s0, w, s0.entries[e].handler) {
    }
  }

  lemma StaysExaminable(s: State, s': State, e: nat)
    requires Examinable(s, e) && s'.entries == s.entries && SameHandlerWaits(s.waits, s'.waits)
    ensures Examinable(s', e)
  {
    forall w ensures WaitsFor(s', w, s.entries[e].handler) <==> WaitsFor(s, w, s.entries[e].handler) {
    }
  }

  lemma Finished(s: State, service: nat) returns (s': State)
    requires Inv(s) && Enabled(s, FinishService(service))
    ensures var rest := Erased(s.entries, service);
            s' == State(rest, s.waits - {service}, Outlived(s.tokens, rest), s.acquirers)
    ensures Inv(s') && s' == Apply(s, FinishService(service))
  {
    s' := Apply(s, FinishService(service));
    StepKeeps(s, FinishService(service));
  }

  lemma Acquired(s: State, t: nat, e: nat) returns (s': State)
    requires Inv(s) && Enabled(s, Acquire(t, e))
    ensures s' == State(Counted(s.entries, e, 1), s.waits, s.tokens[t := Held(e)], s.acquirers)
    ensures Inv(s') && s' == Apply(s, Acquire(t, e))
  {
    s' := Apply(s, Acquire(t, e));
    StepKeeps(s, Acquire(t, e));
  }

  /** An unregisterService that has counted users waits for them; otherwise its entries go at once. */
  function Deferred(s: State, service: nat, total: nat): State {
    if total != 0
    then State(Marked(s.entries, service), s.waits[service := ServiceWait(total, 1)], s.tokens, s.acquirers)
    else Without(s, Erased(s.entries, service))
  }

  lemma Unregistered(s: State, service: nat) returns (s': State)
    requires Inv(s) && Enabled(s, Registrar.UnregisterService(service))
    ensures s' == Deferred(s, service, InUseSum(s.entries, service))
    ensures Inv(s') && s' == Apply(s, Registrar.UnregisterService(service))
  {
    s' := Apply(s, Registrar.UnregisterService(service));
    StepKeeps(s, Registrar.UnregisterService(service));
  }

  lemma ErasedMarked(entries: map<nat, Entry>, service: nat)
    ensures Erased(Marked(entries, service), service) == Erased(entries, service)
  {
  }

  predicate Serves(x: Entry, message: nat, handler: nat) {
    x.message == message && x.handler == handler
  }

  /** One of the service's entries is being used. */
  predicate InUse(entries: map<nat, Entry>, service: nat) {
    exists e :: e in entries && entries[e].service == service && entries[e].inUse != 0
  }

  lemma {:induction false} SumIsZeroIff(entries: map<nat, Entry>, service: nat)
    ensures InUseSum(entries, service) != 0 <==> InUse(entries, service)
    decreases |entries|
  {
    if entries != map[] {
      var e :| e in entries;
      SumWithout(entries, service, e);
      SumIsZeroIff(entries - {e}, service);
      assert forall f | f in entries && f != e :: f in entries - {e} && (entries - {e})[f] == entries[f];
    }
  }

  /** The entries of all other services, as they were, and nothing else. */
  ghost predicate EntriesWithout(before: map<nat, Entry>, after: map<nat, Entry>, service: nat) {
    && (forall e :: e in after <==> e in before && before[e].service != service)
    && (forall e | e in after :: after[e] == before[e])
  }

  class HandlerRegistrar {
    var handlers: map<nat, Entry>
    var waits: map<nat, Wait>
    var nodes: nat
    ghost var tokens: map<nat, Token>
    ghost var acquirers: map<nat, bool>
    ghost var callers: nat

    ghost function View(): State
      reads this
    {
      State(handlers, waits, tokens, acquirers)
    }

    ghost predicate Valid()
      reads this
    {
      && Inv(View())
      && (forall e | e in handlers :: e < nodes)
      && (forall t | t in tokens :: t < callers)
      && (forall m | m in acquirers :: m < callers)
    }

    constructor ()
      ensures Valid() && View() == Initial()
    {
      handlers, waits, nodes := map[], map[], 0;
      tokens, acquirers, callers := map[], map[], 0;
    }

    method Contains(message: nat) returns (found: bool)
      ensures found <==> exists e :: e in handlers && handlers[e].message == message
    {
      var todo := handlers.Keys;
      found := false;
      while todo != {} && !found
        invariant todo <= handlers.Keys
        invariant found ==> exists e :: e in handlers && handlers[e].message == message
        invariant !found ==> forall e | e in handlers && e !in todo :: handlers[e].message != message
        decreases |todo|
      {
        var e :| e in todo;
        found := handlers[e].message == message;
        todo := todo - {e};
      }
    }

    method RegisterHandler(message: nat, multicast: bool, service: nat, handler: nat) returns (status: Status)
      requires Valid() && NoReaders(View()) && service !in waits
      requires forall e | e in handlers :: handlers[e].handler != handler
      modifies this
      ensures Valid()
      ensures status == if !multicast && (exists e :: e in old(handlers) && old(handlers)[e].message == message)
                        then ErrorInvalidArgument else NoError
      ensures status != NoError ==> View() == old(View())
      ensures status == NoError ==>
                var a := Register(old(nodes), message, service, handler);
                Enabled(old(View()), a) && View() == Apply(old(View()), a)
      ensures status == NoError ==>
                && old(nodes) !in old(handlers) && waits == old(waits)
                && handlers == old(handlers)[old(nodes) := Entry(message, service, handler, 0, Active)]
    {
      if !multicast {
        var found := Contains(message);
        if found {
          return ErrorInvalidArgument;
        }
      }
      ghost var a := Register(nodes, message, service, handler);
      StepKeeps(View(), a);
      handlers := handlers[nodes := Entry(message, service, handler, 0, Active)];
      nodes := nodes + 1;
      return NoError;
    }

    /** The entry of a handler among those of a message. */
    method Find(message: nat, handler: nat) returns (found: bool, e: nat)
      ensures found ==> e in handlers && handlers[e].message == message && handlers[e].handler == handler
      ensures !found ==> forall f | f in handlers :: handlers[f].message != message || handlers[f].handler != handler
    {
      var todo := handlers.Keys;
      found, e := false, 0;
      while todo != {} && !found
        invariant todo <= handlers.Keys
        invariant found ==> e in handlers && handlers[e].message == message && handlers[e].handler == handler
        invariant !found ==>
                    forall f | f in handlers && f !in todo ::
                      handlers[f].message != message || handlers[f].handler != handler
        decreases |todo|
      {
        e :| e in todo;
        found := handlers[e].message == message && handlers[e].handler == handler;
        todo := todo - {e};
      }
    }

    /** unregisterHandler up to the wait for the last user, which takes place only when `deferred`. */
    method UnregisterHandler(message: nat, handler: nat) returns (found: bool, ghost e: nat, deferred: bool)
      requires Valid() && NoReaders(View())
      requires forall f | f in handlers && handlers[f].message == message && handlers[f].handler == handler ::
                 handlers[f].service !in waits
      modifies this
      ensures Valid()
      ensures !found ==> !deferred && View() == old(View())
      ensures !found ==> forall f | f in handlers :: handlers[f].message != message || handlers[f].handler != handler
      ensures found ==> e in old(handlers) && old(handlers)[e].message == message && old(handlers)[e].handler == handler
      ensures found ==>
                && Enabled(old(View()), Registrar.UnregisterHandler(e))
                && View() == Apply(old(View()), Registrar.UnregisterHandler(e))
      ensures found ==> (deferred <==> old(handlers)[e].inUse != 0)
      ensures found && !deferred ==> handlers == old(handlers) - {e} && waits == old(waits)
      ensures found && !deferred ==> forall f | f in handlers :: !Serves(handlers[f], message, handler)
      ensures deferred ==>
                && handlers == old(handlers)[e := old(handlers)[e].(phase := HandlerRemove)]
                && waits == old(waits)[old(handlers)[e].service := HandlerWait(e, 1)]
      ensures HandlerRetired(View(), message, handler)
    {
      var f;
      found, f := Find(message, handler);
      e, deferred := f, false;
      if found {
        StepKeeps(View(), Registrar.UnregisterHandler(f));
        if handlers[f].inUse != 0 {
          deferred := true;
          waits := waits[handlers[f].service := HandlerWait(f, 1)];
          handlers := handlers[f := handlers[f].(phase := HandlerRemove)];
        } else {
          handlers := handlers - {f};
          tokens := Outlived(tokens, handlers);
        }
      }
    }

    /** The rest of it, after the wait: the entry is looked up again and erased. */
    method UnregisterHandlerAwake(message: nat, handler: nat, service: nat)
      requires Valid() && Enabled(View(), FinishHandler(service))
      requires waits[service].entry in handlers
      requires handlers[waits[service].entry].message == message && handlers[waits[service].entry].handler == handler
      modifies this
      ensures Valid() && View() == Apply(old(View()), FinishHandler(service))
      ensures handlers == old(handlers) - {old(waits)[service].entry} && waits == old(waits) - {service}
      ensures forall f | f in handlers :: !Serves(handlers[f], message, handler)
    {
      StepKeeps(View(), FinishHandler(service));
      ghost var e := waits[service].entry;
      assert DistinctHandlers(handlers);
      waits := waits - {service};
      assert e in handlers && handlers[e].message == message && handlers[e].handler == handler;
      var found, f := Find(message, handler);
      assert found;
      assert f == e;
      if found {
        handlers := handlers - {f};
        tokens := Outlived(tokens, handlers);
      }
    }

    /** unregisterService up to its wait: every entry of the service is marked while their users are counted. */
    method UnregisterService(service: nat) returns (deferred: bool)
      requires Valid() && Enabled(View(), Registrar.UnregisterService(service))
      modifies this
      ensures Valid() && View() == Apply(old(View()), Registrar.UnregisterService(service))
      ensures deferred <==> service in waits
      ensures deferred <==> InUse(old(handlers), service)
      ensures !deferred ==> waits == old(waits) && EntriesWithout(old(handlers), handlers, service)
      ensures deferred ==>
                && handlers.Keys == old(handlers).Keys
                && forall e | e in handlers ::
                     handlers[e] == if old(handlers)[e].service == service
                                    then old(handlers)[e].(phase := ServiceRemove) else old(handlers)[e]
      ensures ServiceRetired(View(), service)
    {
      SumIsZeroIff(handlers, service);
      ghost var s := View();
      ghost var s' := Unregistered(s, service);
      deferred := MarkAndDefer(service, s);
      assert View() == s';
    }

    /** Marking, counting and what follows from it. */
    method MarkAndDefer(service: nat, ghost s: State) returns (deferred: bool)
      requires View() == s && service !in waits
      modifies this`handlers, this`waits, this`tokens
      ensures View() == Deferred(s, service, InUseSum(s.entries, service)) && (deferred <==> service in waits)
      ensures handlers.Keys <= old(handlers).Keys && tokens.Keys == old(tokens).Keys
    {
      var total := MarkAndCount(service);
      deferred := DeferOrErase(service, total, s);
    }

    method DeferOrErase(service: nat, total: nat, ghost s: State) returns (deferred: bool)
      requires View() == s.(entries := Marked(s.entries, service))
      modifies this`handlers, this`waits, this`tokens
      ensures View() == Deferred(s, service, total) && (deferred <==> total != 0)
      ensures handlers.Keys <= old(handlers).Keys && tokens.Keys == old(tokens).Keys
    {
      deferred := total != 0;
      if deferred {
        waits := waits[service := ServiceWait(total, 1)];
      } else {
        EraseUnused(service);
        ErasedMarked(s.entries, service);
      }
    }

    method UnregisterServiceAwake(service: nat)
      requires Valid() && Enabled(View(), FinishService(service))
      modifies this
      ensures Valid() && View() == Apply(old(View()), FinishService(service))
      ensures waits == old(waits) - {service} && EntriesWithout(old(handlers), handlers, service)
    {
      ghost var s := Finished(View(), service);
      EraseAwaited(service);
      assert View() == s;
    }

    method EraseAwaited(service: nat)
      modifies this`handlers, this`waits, this`tokens
      ensures handlers == Erased(old(handlers), service) && waits == old(waits) - {service}
      ensures tokens == Outlived(old(tokens), handlers)
      ensures handlers.Keys <= old(handlers).Keys
    {
      waits := waits - {service};
      EraseUnused(service);
    }

    /** The entries go, and searches that still look at one are known to. */
    method EraseUnused(service: nat)
      modifies this`handlers, this`tokens
      ensures handlers == Erased(old(handlers), service) && tokens == Outlived(old(tokens), handlers)
      ensures handlers.Keys <= old(handlers).Keys
    {
      EraseService(service);
      tokens := Outlived(tokens, handlers);
    }

    method MarkAndCount(service: nat) returns (total: nat)
      modifies this`handlers
      ensures handlers == Marked(old(handlers), service)
      ensures total == InUseSum(old(handlers), service)
    {
      var todo := handlers.Keys;
      ghost var left := handlers;
      total := 0;
      while todo != {}
        invariant left.Keys == todo <= handlers.Keys == old(handlers).Keys
        invariant forall e | e in todo :: left[e] == old(handlers)[e] == handlers[e]
        invariant forall e | e in handlers && e !in todo :: handlers[e] == Marked(old(handlers), service)[e]
        invariant total + InUseSum(left, service) == InUseSum(old(handlers), service)
        decreases |todo|
      {
        var e :| e in todo;
        SumWithout(left, service, e);
        if handlers[e].service == service {
          total := total + handlers[e].inUse;
          handlers := handlers[e := handlers[e].(phase := ServiceRemove)];
        }
        todo, left := todo - {e}, left - {e};
      }
    }

    method EraseService(service: nat)
      modifies this`handlers
      ensures handlers == Erased(old(handlers), service)
    {
      var todo := handlers.Keys;
      while todo != {}
        invariant todo <= handlers.Keys <= old(handlers).Keys
        invariant forall e | e in handlers :: handlers[e] == old(handlers)[e]
        invariant forall e | e in old(handlers) && e !in todo :: e in handlers <==> old(handlers)[e].service != service
        decreases |todo|
      {
        var e :| e in todo;
        if handlers[e].service == service {
          handlers := handlers - {e};
        }
        todo := todo - {e};
      }
    }

    method AquireHandler(message: nat) returns (status: Status, e: nat, ghost t: nat)
      requires Valid()
      modifies this
      ensures Valid()
      ensures status != NoError ==> View() == old(View())
      ensures status == NoError <==>
              && |Range(old(handlers), message)| == 1
              && Range(old(handlers), message) == ActiveOnes(old(handlers), message)
      ensures status == ErrorNoSuchHandler <==> Range(old(handlers), message) == {}
      ensures status == ErrorMoreEntires <==> |Range(old(handlers), message)| > 1
      ensures status == NoError ==>
                && Range(old(handlers), message) == {e}
                && Enabled(old(View()), Acquire(t, e)) && View() == Apply(old(View()), Acquire(t, e))
                && handlers == old(handlers)[e := old(handlers)[e].(inUse := old(handlers)[e].inUse + 1)]
      ensures status == NoError || status == ErrorNoSuchHandler || status == ErrorMoreEntires
              || status == ErrorNotAvailible
    {
      t := callers;
      status, e := FindOnly(message);
      if status == NoError {
        t := Take(e);
      }
    }

    /** The search: the one handler of a message, if there is exactly one and it is active. */
    method FindOnly(message: nat) returns (status: Status, e: nat)
      ensures status == NoError <==>
              |Range(handlers, message)| == 1 && Range(handlers, message) == ActiveOnes(handlers, message)
      ensures status == ErrorNoSuchHandler <==> Range(handlers, message) == {}
      ensures status == ErrorMoreEntires <==> |Range(handlers, message)| > 1
      ensures status == NoError ==> Range(handlers, message) == {e} && e in handlers && handlers[e].phase == Active
      ensures status == NoError || status == ErrorNoSuchHandler || status == ErrorMoreEntires
              || status == ErrorNotAvailible
    {
      e := 0;
      var range := Range(handlers, message);
      if range == {} {
        return ErrorNoSuchHandler, e;
      }
      e :| e in range;
      assert |range| == 1 + |range - {e}|;
      if range - {e} != {} {
        return ErrorMoreEntires, e;
      }
      assert range == {e};
      assert ActiveOnes(handlers, message) <= range;
      if handlers[e].phase != Active {
        assert e !in ActiveOnes(handlers, message);
        return ErrorNotAvailible, e;
      }
      assert e in ActiveOnes(handlers, message);
      status := NoError;
    }

    /** One more user of an active entry. */
    method Take(e: nat) returns (ghost t: nat)
      requires Valid() && e in handlers && handlers[e].phase == Active
      modifies this
      ensures Valid() && Enabled(old(View()), Acquire(t, e)) && View() == Apply(old(View()), Acquire(t, e))
    {
      t := callers;
      ghost var s := Acquired(View(), t, e);
      Increment(e);
      tokens, callers := tokens[t := Held(e)], callers + 1;
      assert View() == s;
    }

    method Increment(e: nat)
      requires e in handlers
      modifies this`handlers
      ensures handlers == Counted(old(handlers), e, 1)
    {
      handlers := handlers[e := handlers[e].(inUse := handlers[e].inUse + 1)];
    }

    method Decrement(e: nat) returns (previous: nat)
      requires e in handlers && 0 < handlers[e].inUse
      modifies this`handlers
      ensures handlers == Counted(old(handlers), e, -1) && previous == old(handlers)[e].inUse
    {
      previous := handlers[e].inUse;
      handlers := handlers[e := handlers[e].(inUse := previous - 1)];
    }

    /** The unregister call, if any, that waits for the last user of a handler. */
    method FindHandlerWait(handler: nat) returns (found: bool, service: nat)
      requires forall w | w in waits && waits[w].HandlerWait? :: waits[w].entry in handlers
      ensures found ==> WaitsFor(View(), service, handler)
      ensures !found ==> forall w :: !WaitsFor(View(), w, handler)
    {
      var todo := waits.Keys;
      found, service := false, 0;
      while todo != {} && !found
        invariant todo <= waits.Keys
        invariant found ==> WaitsFor(View(), service, handler)
        invariant !found ==> forall w | w in waits && w !in todo :: !WaitsFor(View(), w, handler)
        decreases |todo|
      {
        service :| service in todo;
        found := waits[service].HandlerWait? && handlers[waits[service].entry].handler == handler;
        todo := todo - {service};
      }
    }

    method CountLatchDown(service: nat)
      requires service in waits
      modifies this`waits
      ensures waits == old(waits)[service := old(waits)[service].(latch := old(waits)[service].latch - 1)]
    {
      waits := waits[service := waits[service].(latch := waits[service].latch - 1)];
    }

    /** releaseHandler, without other callers in between. */
    method ReleaseHandler(e: nat, ghost t: nat)
      requires Valid() && t in tokens && tokens[t] == Held(e)
      modifies this
      ensures Valid() && Performs(old(View()), View())
      ensures e in old(handlers) && 0 < old(handlers)[e].inUse && handlers == Counted(old(handlers), e, -1)
      ensures waits == ReleasedWaits(old(waits), old(handlers)[e]) && tokens == old(tokens) - {t}
      ensures acquirers == old(acquirers)
    {
      ghost var s0 := View();
      ghost var s := ReleasingRuns(s0, t, e);
      DropOne(e, s0);
      tokens := s.tokens;
      assert View() == s;
    }

    /** The entry's counter goes down, and whoever waits for that is woken. */
    method DropOne(e: nat, ghost s0: State)
      requires Inv(s0) && View() == s0 && e in handlers && 0 < handlers[e].inUse
      modifies this`handlers, this`waits
      ensures handlers == Counted(s0.entries, e, -1) && waits == ReleasedWaits(s0.waits, s0.entries[e])
    {
      var previous := Decrement(e);
      DecrementedIsExaminable(s0, View(), e);
      SignalLast(e, previous);
      assert handlers[e].(inUse := previous) == s0.entries[e];
    }

    /**
      * The switch of releaseHandler: who is woken by this release. The case of a service falls through to that of a
      * handler; with no other caller in between, the search finds nobody then.
      */
    method SignalLast(e: nat, previous: nat)
      requires Examinable(View(), e)
      modifies this`waits
      ensures waits == ReleasedWaits(old(waits), handlers[e].(inUse := previous))
    {
      if handlers[e].phase == ServiceRemove {
        ghost var s := View();
        SignalService(e);
        StaysExaminable(s, View(), e);
      }
      if handlers[e].phase != Active && previous == 1 {
        var found, other := FindHandlerWait(handlers[e].handler);
        assert found <==> WaitsFor(View(), handlers[e].service, handlers[e].handler);
        if found {
          CountLatchDown(other);
        }
      }
    }

    /** The pending unregisterService of an entry's service loses one of its users, and is woken by the last. */
    method SignalService(e: nat)
      requires e in handlers && handlers[e].phase == ServiceRemove
      requires handlers[e].service in waits && waits[handlers[e].service].ServiceWait?
      modifies this`waits
      ensures waits == ReleasedWaits(old(waits), handlers[e]) && SameHandlerWaits(old(waits), waits)
    {
      var service := handlers[e].service;
      waits := waits[service := waits[service].(counter := waits[service].counter - 1)];
      if waits[service].counter == 0 {
        CountLatchDown(service);
      }
    }

    /** The rollback of aquireHandlers. */
    method GiveBack(ghost before: map<nat, Entry>, handles: seq<nat>)
      requires Unique(handles) && (forall e | e in handles :: e in before) && handlers == Bumped(before, handles)
      modifies this`handlers
      ensures handlers == before
    {
      for i := 0 to |handles|
        invariant handlers == Bumped(before, handles[i..])
      {
        assert handles[i..] == [handles[i]] + handles[i + 1..] && handles[i] !in handles[i + 1..];
        var previous := Decrement(handles[i]);
      }
    }

    /**
      * The loop of aquireHandlers. `room` is how many times pushBack will succeed; when it fails what has been
      * collected is given back.
      */
    method CollectAll(message: nat, room: nat) returns (status: Status, handles: seq<nat>, wasNotAvailable: bool)
      modifies this`handlers
      ensures status == if |ActiveOnes(old(handlers), message)| <= room then NoError else ErrorNoMemory
      ensures status == ErrorNoMemory ==> handlers == old(handlers) && handles == []
      ensures status == NoError ==>
                && Unique(handles) && handlers == Bumped(old(handlers), handles)
                && Sorted(old(handlers), message, {}, handles)
                && (wasNotAvailable <==> SomeInactive(old(handlers), message, {}))
    {
      var todo := Range(handlers, message);
      wasNotAvailable := false;
      status, handles := NoError, [];
      while todo != {}
        invariant Unique(handles) && handlers == Bumped(old(handlers), handles)
        invariant todo <= Range(old(handlers), message)
        invariant Sorted(old(handlers), message, todo, handles) && |handles| <= room
        invariant wasNotAvailable <==> SomeInactive(old(handlers), message, todo)
        decreases |todo|
      {
        var e :| e in todo;
        SortsNext(old(handlers), message, todo, e, handles);
        if handlers[e].phase != Active {
          wasNotAvailable := true;
        } else {
          if |handles| == room {
            MoreThanRoom(old(handlers), message, handles, e);
            GiveBack(old(handlers), handles);
            return ErrorNoMemory, [], wasNotAvailable;
          }
          Increment(e);
          handles := handles + [e];
        }
        todo := todo - {e};
      }
      status := NoError;
      AllCollected(old(handlers), message, handles);
    }

    /** Whoever called aquireHandlers holds what it has collected. */
    ghost method BecomeCallers(s0: State, handles: seq<nat>)
      requires Inv(s0) && Collectable(s0, callers, handles)
      requires handlers == Bumped(s0.entries, handles) && waits == s0.waits && tokens == s0.tokens
      requires acquirers == s0.acquirers
      requires (forall e | e in s0.entries :: e < nodes) && (forall m | m in s0.acquirers :: m < callers)
      modifies this`tokens, this`callers
      ensures Valid() && Performs(s0, View()) && Holding(s0, View(), old(callers), handles, 0)
    {
      var s := AcquiringRuns(s0, callers, handles);
      tokens, callers := s.tokens, callers + 1 + |handles|;
      assert View() == s;
    }

    /** aquireHandlers, without other callers in between. */
    method AquireHandlers(message: nat, room: nat) returns (status: Status, handles: seq<nat>)
      requires Valid()
      modifies this
      ensures Valid() && Performs(old(View()), View())
      ensures status != NoError ==> View() == old(View()) && handles == []
      ensures status == NoError ==>
                && handles != [] && Unique(handles)
                && (forall e :: e in handles <==> e in ActiveOnes(old(handlers), message))
                && handlers == Bumped(old(handlers), handles)
                && Holding(old(View()), View(), old(callers), handles, 0)
      ensures var range, active := Range(old(handlers), message), ActiveOnes(old(handlers), message);
              status == if room < |active| then ErrorNoMemory
                        else if range == {} then ErrorNoSuchHandler
                        else if active == {} then ErrorNotAvailible
                        else NoError
    {
      ghost var s0, m := View(), callers;
      NothingPerformed(s0);
      var wasNotAvailable;
      status, handles, wasNotAvailable := CollectAll(message, room);
      if status == NoError && handles != [] {
        assert handles[0] in ActiveOnes(s0.entries, message) && handles[0] in Range(s0.entries, message);
        BecomeCallers(s0, handles);
      } else if status == NoError {
        NothingSorted(s0.entries, message, handles);
        status := if wasNotAvailable then ErrorNotAvailible else ErrorNoSuchHandler;
      }
    }
  }

  /** Of the entries of the message those seen so far and active are in `handles`, and nothing else is. */
  ghost predicate Sorted(entries: map<nat, Entry>, message: nat, todo: set<nat>, handles: seq<nat>) {
    forall e :: e in handles <==> e in ActiveOnes(entries, message) && e !in todo
  }

  /** An entry of the message seen so far is on its way out. */
  ghost predicate SomeInactive(entries: map<nat, Entry>, message: nat, todo: set<nat>) {
    exists e :: e in Range(entries, message) && e !in todo && entries[e].phase != Active
  }

  function Listed(handles: seq<nat>): set<nat> {
    set e | e in handles
  }

  lemma {:induction false} UniqueSize(handles: seq<nat>)
    requires Unique(handles)
    ensures |Listed(handles)| == |handles|
  {
    if handles != [] {
      var n := |handles| - 1;
      var before := handles[..n];
      UniqueSize(before);
      assert handles == before + [handles[n]] && handles[n] !in before;
      assert Listed(handles) == Listed(before) + {handles[n]};
    }
  }

  /** There is one more active entry than handles have found room. */
  lemma MoreThanRoom(entries: map<nat, Entry>, message: nat, handles: seq<nat>, e: nat)
    requires Unique(handles) && e !in handles && e in ActiveOnes(entries, message)
    requires forall f | f in handles :: f in ActiveOnes(entries, message)
    ensures |handles| < |ActiveOnes(entries, message)|
  {
    UniqueSize(handles);
    Subset(Listed(handles) + {e}, ActiveOnes(entries, message));
  }

  lemma {:induction false} Subset(a: set<nat>, b: set<nat>)
    requires a <= b
    ensures |a| <= |b|
    decreases a
  {
    if a != {} {
      var e :| e in a;
      Subset(a - {e}, b - {e});
    }
  }

  lemma AllCollected(entries: map<nat, Entry>, message: nat, handles: seq<nat>)
    requires Unique(handles) && Sorted(entries, message, {}, handles)
    ensures |ActiveOnes(entries, message)| == |handles|
  {
    UniqueSize(handles);
    assert Listed(handles) == ActiveOnes(entries, message);
  }

  lemma SortsNext(entries: map<nat, Entry>, message: nat, todo: set<nat>, e: nat, handles: seq<nat>)
    requires e in todo && todo <= Range(entries, message) && Sorted(entries, message, todo, handles)
    ensures e !in handles
    ensures entries[e].phase == Active ==> Sorted(entries, message, todo - {e}, handles + [e])
    ensures entries[e].phase != Active ==> Sorted(entries, message, todo - {e}, handles)
    ensures SomeInactive(entries, message, todo - {e}) <==>
            SomeInactive(entries, message, todo) || entries[e].phase != Active
  {
    if SomeInactive(entries, message, todo) {
      var f :| f in Range(entries, message) && f !in todo && entries[f].phase != Active;
      assert f in Range(entries, message) && f !in todo - {e} && entries[f].phase != Active;
    }
  }

  lemma NothingSorted(entries: map<nat, Entry>, message: nat, handles: seq<nat>)
    requires Sorted(entries, message, {}, handles) && handles == []
    ensures ActiveOnes(entries, message) == {} && Bumped(entries, handles) == entries
    ensures SomeInactive(entries, message, {}) <==> Range(entries, message) != {}
  {
    assert forall e | e in ActiveOnes(entries, message) :: e in handles;
    if Range(entries, message) != {} {
      var e :| e in Range(entries, message);
      assert e !in ActiveOnes(entries, message);
      assert e in Range(entries, message) && e !in {} && entries[e].phase != Active;
    }
  }
}
