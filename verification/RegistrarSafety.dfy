/** Every step of the registrar keeps its invariant; what follows for whole runs. */
module RegistrarSafety {
  import opened Registrar

  // ---------------------------------------------------------------- counting callers

  function One(b: bool): int {
    if b then 1 else 0
  }

  /** What a caller is at; one that is not there yet holds nothing. */
  function At(tokens: map<nat, Token>, t: nat): Token {
    if t in tokens then tokens[t] else Leaving
  }

  /** Two sets that differ in one element at most. */
  lemma OneMoves(a: set<nat>, b: set<nat>, t: nat)
    requires forall x | x != t :: x in a <==> x in b
    ensures |b| == |a| - One(t in a) + One(t in b)
  {
    assert a - {t} == b - {t};
    assert t in a ==> a == (a - {t}) + {t};
    assert t in b ==> b == (b - {t}) + {t};
    assert t !in a ==> a == a - {t};
    assert t !in b ==> b == b - {t};
  }

  lemma UsersMove(tokens: map<nat, Token>, t: nat, l: Token, e: nat)
    ensures |Users(tokens[t := l], e)| == |Users(tokens, e)| - One(Uses(At(tokens, t), e)) + One(Uses(l, e))
  {
    OneMoves(Users(tokens, e), Users(tokens[t := l], e), t);
  }

  lemma DebtorsMove(entries: map<nat, Entry>, tokens: map<nat, Token>, t: nat, l: Token, service: nat)
    ensures |Debtors(entries, tokens[t := l], service)| ==
            |Debtors(entries, tokens, service)|
            - One(Owes(entries, At(tokens, t), service)) + One(Owes(entries, l, service))
  {
    OneMoves(Debtors(entries, tokens, service), Debtors(entries, tokens[t := l], service), t);
  }

  lemma SignallersMove(tokens: map<nat, Token>, t: nat, l: Token, service: nat)
    ensures |Signallers(tokens[t := l], service)| ==
            |Signallers(tokens, service)| - One(Signals(At(tokens, t), service)) + One(Signals(l, service))
  {
    OneMoves(Signallers(tokens, service), Signallers(tokens[t := l], service), t);
  }

  lemma LastsMove(tokens: map<nat, Token>, t: nat, l: Token, e: nat)
    ensures |Lasts(tokens[t := l], e)| ==
            |Lasts(tokens, e)| - One(At(tokens, t) == Decremented(e, 1)) + One(l == Decremented(e, 1))
  {
    OneMoves(Lasts(tokens, e), Lasts(tokens[t := l], e), t);
  }

  /** Callers that differ only in places where nothing is held. */
  ghost predicate SameCounts(entries: map<nat, Entry>, tokens: map<nat, Token>, after: map<nat, Token>) {
    && (forall e :: Users(after, e) == Users(tokens, e))
    && (forall service :: Debtors(entries, after, service) == Debtors(entries, tokens, service))
    && (forall service :: Signallers(after, service) == Signallers(tokens, service))
    && (forall e :: Lasts(after, e) == Lasts(tokens, e))
  }

  /** A caller that holds nothing is as good as gone. */
  lemma TokenGoes(entries: map<nat, Entry>, tokens: map<nat, Token>, t: nat)
    requires t in tokens && (tokens[t].Leaving? || tokens[t].Searching?)
    ensures SameCounts(entries, tokens, tokens - {t})
  {
  }

  lemma OutlivedCounts(entries: map<nat, Entry>, tokens: map<nat, Token>, rest: map<nat, Entry>)
    ensures SameCounts(entries, tokens, Outlived(tokens, rest))
  {
  }

  lemma SameDebtors(entries: map<nat, Entry>, after: map<nat, Entry>, tokens: map<nat, Token>)
    requires entries.Keys == after.Keys && forall e | e in entries :: after[e].service == entries[e].service
    ensures forall service :: Debtors(after, tokens, service) == Debtors(entries, tokens, service)
  {
  }

  // ---------------------------------------------------------------- sums of counters

  ghost predicate CountersMatch(entries: map<nat, Entry>, tokens: map<nat, Token>) {
    forall e | e in entries :: entries[e].inUse == |Users(tokens, e)|
  }

  /** Under the exclusive lock the sum that unregisterService computes is the number of callers to wait for. */
  lemma {:induction false} SumIsDebtors(entries: map<nat, Entry>, tokens: map<nat, Token>, service: nat)
    requires CountersMatch(entries, tokens) && forall t | t in tokens :: !tokens[t].Decremented?
    ensures InUseSum(entries, service) == |Debtors(entries, tokens, service)|
    decreases |entries|
  {
    if entries == map[] {
      assert Debtors(entries, tokens, service) == {};
    } else {
      var e :| e in entries && InUseSum(entries, service) ==
        (if entries[e].service == service then entries[e].inUse else 0) + InUseSum(entries - {e}, service);
      SumIsDebtors(entries - {e}, tokens, service);
      DebtorsWithout(entries, tokens, service, e);
    }
  }

  lemma DebtorsWithout(entries: map<nat, Entry>, tokens: map<nat, Token>, service: nat, e: nat)
    requires e in entries && forall t | t in tokens :: !tokens[t].Decremented?
    ensures |Debtors(entries, tokens, service)| ==
            |Debtors(entries - {e}, tokens, service)|
            + (if entries[e].service == service then |Users(tokens, e)| else 0)
  {
    var others, users := Debtors(entries - {e}, tokens, service), Users(tokens, e);
    if entries[e].service == service {
      assert Debtors(entries, tokens, service) == others + users;
      assert others !! users;
    } else {
      assert Debtors(entries, tokens, service) == others;
    }
  }

  // ---------------------------------------------------------------- steps under the shared lock

  /** Entries with other counters, and in nothing else. */
  ghost predicate Recounted(entries: map<nat, Entry>, after: map<nat, Entry>) {
    entries.Keys == after.Keys && forall e | e in entries :: after[e] == entries[e].(inUse := after[e].inUse)
  }

  /** The same waits, with other counters and latches. */
  ghost predicate WaitsAlike(waits: map<nat, Wait>, after: map<nat, Wait>) {
    && waits.Keys == after.Keys
    && forall service | service in waits ::
         && after[service].latch <= waits[service].latch
         && match waits[service]
            case ServiceWait(_, _) => after[service].ServiceWait?
            case HandlerWait(e, _) => after[service].HandlerWait? && after[service].entry == e
  }

  /** What one caller's move from `k` to `l` must do to the numbers of a wait. */
  ghost predicate Balanced(s: State, s': State, k: Token, l: Token, service: nat)
    requires service in s.waits && service in s'.waits
  {
    var signals := One(Signals(l, service)) - One(Signals(k, service))
                   + s.waits[service].latch - s'.waits[service].latch;
    && 0 <= s'.waits[service].latch <= 1
    && match (s.waits[service], s'.waits[service])
       case (ServiceWait(counter, _), ServiceWait(counter', _)) =>
         && counter' == counter - One(Owes(s.entries, k, service)) + One(Owes(s.entries, l, service))
         && signals == One(counter' == 0) - One(counter == 0)
       case (HandlerWait(e, _), HandlerWait(_, _)) =>
         && e in s.entries && e in s'.entries
         && signals + One(l == Decremented(e, 1)) - One(k == Decremented(e, 1)) ==
            One(s'.entries[e].inUse == 0) - One(s.entries[e].inUse == 0)
       case _ => false
  }

  ghost predicate TokenStep(s: State, s': State, t: nat, l: Token) {
    && s'.tokens == s.tokens[t := l] && s'.acquirers == s.acquirers
    && Recounted(s.entries, s'.entries) && WaitsAlike(s.waits, s'.waits)
    && (forall e | e in s.entries ::
          s'.entries[e].inUse == s.entries[e].inUse - One(Uses(At(s.tokens, t), e)) + One(Uses(l, e)))
    && forall service | service in s.waits :: Balanced(s, s', At(s.tokens, t), l, service)
  }

  lemma TokenStepKeepsEntries(s: State, s': State, t: nat, l: Token)
    requires Inv(s) && TokenStep(s, s', t, l)
    ensures forall e | e in s'.entries :: EntryInv(s', e)
  {
    forall e | e in s'.entries ensures EntryInv(s', e) {
      assert EntryInv(s, e);
      UsersMove(s.tokens, t, l, e);
    }
  }

  lemma TokenStepKeepsWaits(s: State, s': State, t: nat, l: Token)
    requires Inv(s) && TokenStep(s, s', t, l)
    ensures forall service | service in s'.waits :: WaitInv(s', service)
  {
    SameDebtors(s.entries, s'.entries, s'.tokens);
    forall service | service in s'.waits ensures WaitInv(s', service) {
      BalancedKeepsWait(s, s', t, l, service);
    }
  }

  lemma BalancedKeepsWait(s: State, s': State, t: nat, l: Token, service: nat)
    requires Recounted(s.entries, s'.entries) && WaitsAlike(s.waits, s'.waits) && s'.tokens == s.tokens[t := l]
    requires service in s.waits && service in s'.waits && WaitInv(s, service)
    requires Balanced(s, s', At(s.tokens, t), l, service)
    requires Debtors(s'.entries, s'.tokens, service) == Debtors(s.entries, s'.tokens, service)
    ensures WaitInv(s', service)
  {
    SignallersMove(s.tokens, t, l, service);
    DebtorsMove(s.entries, s.tokens, t, l, service);
    if s.waits[service].HandlerWait? {
      LastsMove(s.tokens, t, l, s.waits[service].entry);
    }
  }

  /** A caller's move keeps the invariant as soon as its numbers balance. */
  lemma TokenStepKeeps(s: State, s': State, t: nat, l: Token)
    requires Inv(s) && TokenStep(s, s', t, l) && TokenInv(s', t)
    ensures Inv(s')
  {
    TokenStepKeepsEntries(s, s', t, l);
    TokenStepKeepsWaits(s, s', t, l);
    forall u | u in s'.tokens ensures TokenInv(s', u) {
      assert u != t ==> TokenInv(s, u);
    }
  }

  lemma LeaveKeeps(s: State, t: nat)
    requires Inv(s) && t in s.tokens && (s.tokens[t].Leaving? || s.tokens[t].Searching?)
    ensures Inv(s.(tokens := s.tokens - {t}))
  {
    var s' := s.(tokens := s.tokens - {t});
    TokenGoes(s.entries, s.tokens, t);
    forall f | f in s'.entries ensures EntryInv(s', f) {
      assert EntryInv(s, f);
    }
    forall u | u in s'.tokens ensures TokenInv(s', u) {
      assert TokenInv(s, u);
    }
    forall service | service in s'.waits ensures WaitInv(s', service) {
      assert WaitInv(s, service);
    }
  }

  /** No wait depends on the counter of an active entry. */
  lemma ActiveIsAwaitedByNone(s: State, e: nat, service: nat)
    requires Inv(s) && e in s.entries && s.entries[e].phase == Active && service in s.waits
    ensures s.waits[service].ServiceWait? ==> s.entries[e].service != service
    ensures s.waits[service].HandlerWait? ==> s.waits[service].entry != e && s.waits[service].entry in s.entries
  {
    assert EntryInv(s, e) && WaitInv(s, service);
  }

  /** A caller acquires an active entry, alone or on behalf of an aquireHandlers. */
  lemma AcquireKeeps(s: State, t: nat, e: nat, l: Token)
    requires Inv(s) && t !in s.tokens && e in s.entries && s.entries[e].phase == Active
    requires l == Held(e) || (l.Collected? && l.entry == e && l.acquirer in s.acquirers)
    ensures Inv(s.(tokens := s.tokens[t := l], entries := Counted(s.entries, e, 1)))
  {
    var s' := s.(tokens := s.tokens[t := l], entries := Counted(s.entries, e, 1));
    forall service | service in s.waits ensures Balanced(s, s', At(s.tokens, t), l, service) {
      ActiveIsAwaitedByNone(s, e, service);
      assert WaitInv(s, service);
    }
    TokenStepKeeps(s, s', t, l);
  }

  function GivenBack(s: State, t: nat): State
    requires Enabled(s, Undo(t))
  {
    s.(tokens := s.tokens[t := Leaving], entries := Counted(s.entries, s.tokens[t].entry, -1))
  }

  lemma GivenBackKeeps(s: State, t: nat)
    requires Inv(s) && Enabled(s, Undo(t))
    ensures Inv(GivenBack(s, t))
  {
    assert TokenInv(s, t);
    var s' := GivenBack(s, t);
    forall service | service in s.waits ensures Balanced(s, s', s.tokens[t], Leaving, service) {
      ActiveIsAwaitedByNone(s, s.tokens[t].entry, service);
      assert WaitInv(s, service);
    }
    TokenStepKeeps(s, s', t, Leaving);
  }

  /** A caller gives an active entry back without looking further: the rollback of aquireHandlers. */
  lemma UndoKeeps(s: State, t: nat)
    requires Inv(s) && Enabled(s, Undo(t))
    ensures Inv(Apply(s, Undo(t)))
  {
    GivenBackKeeps(s, t);
    LeaveKeeps(GivenBack(s, t), t);
    assert GivenBack(s, t).tokens - {t} == s.tokens - {t};
  }

  /** Taking the shared lock, and dropping it, moves no counter. */
  lemma LockKeeps(s: State, t: nat, l: Token)
    requires Inv(s) && t in s.tokens
    requires || (s.tokens[t].Held? && l == Locked(s.tokens[t].entry))
             || (s.tokens[t].ToSignal? && l == Signalling(s.tokens[t].service, s.tokens[t].next))
    ensures Inv(s.(tokens := s.tokens[t := l]))
  {
    var s' := s.(tokens := s.tokens[t := l]);
    assert TokenInv(s, t);
    forall service | service in s.waits ensures Balanced(s, s', s.tokens[t], l, service) {
      assert WaitInv(s, service);
    }
    TokenStepKeeps(s, s', t, l);
  }

  /** The entry's counter goes down; the service's follows in a step of its own. */
  lemma DecrementKeeps(s: State, t: nat)
    requires Inv(s) && Enabled(s, Decrement(t))
    ensures Inv(Apply(s, Decrement(t)))
  {
    var s', e := Apply(s, Decrement(t)), s.tokens[t].entry;
    var l := Decremented(e, s.entries[e].inUse);
    assert TokenInv(s, t);
    forall service | service in s.waits ensures Balanced(s, s', s.tokens[t], l, service) {
      DecrementBalances(s, t, service);
    }
    TokenStepKeeps(s, s', t, l);
  }

  lemma DecrementBalances(s: State, t: nat, service: nat)
    requires Inv(s) && Enabled(s, Decrement(t)) && service in s.waits
    ensures var e := s.tokens[t].entry;
            Balanced(s, Apply(s, Decrement(t)), s.tokens[t], Decremented(e, s.entries[e].inUse), service)
  {
    assert WaitInv(s, service);
  }

  /** Only the removal of this very handler waits for it: that is what the scan of the handler list finds. */
  lemma ScanFindsOwnWait(s: State, e: nat)
    requires Inv(s) && e in s.entries
    ensures forall service :: WaitsFor(s, service, s.entries[e].handler) <==>
                              service == s.entries[e].service && s.entries[e].phase == HandlerRemove
  {
    assert EntryInv(s, e);
    forall service | WaitsFor(s, service, s.entries[e].handler)
      ensures service == s.entries[e].service && s.entries[e].phase == HandlerRemove
    {
      assert WaitInv(s, service);
    }
  }

  lemma ExamineActiveKeeps(s: State, t: nat)
    requires Inv(s) && Enabled(s, Examine(t)) && s.entries[s.tokens[t].entry].phase == Active
    ensures Inv(Apply(s, Examine(t)))
  {
    var s', e := Apply(s, Examine(t)), s.tokens[t].entry;
    forall service | service in s.waits ensures Balanced(s, s', s.tokens[t], Leaving, service) {
      ActiveIsAwaitedByNone(s, e, service);
      assert WaitInv(s, service);
    }
    TokenStepKeeps(s, s', t, Leaving);
  }

  /** While a whole service is being removed nobody waits for a handler of it, whatever its counter. */
  lemma NobodyWaitsForHandler(s: State, e: nat, counter: int)
    requires Inv(s) && e in s.entries && s.entries[e].phase == ServiceRemove
    ensures var service := s.entries[e].service;
            && service in s.waits && s.waits[service].ServiceWait?
            && var counted := s.(waits := s.waits[service := s.waits[service].(counter := counter)]);
               forall other :: !WaitsFor(counted, other, s.entries[e].handler)
  {
    assert EntryInv(s, e);
    var service := s.entries[e].service;
    var counted := s.(waits := s.waits[service := s.waits[service].(counter := counter)]);
    ScanFindsOwnWait(s, e);
    forall other ensures WaitsFor(counted, other, s.entries[e].handler) <==> WaitsFor(s, other, s.entries[e].handler) {
    }
  }

  /** The last user of an entry searches on. */
  function SearchAfter(k: Token): Search
    requires k.Decremented?
  {
    if k.previous == 1 then SearchFor(k.entry) else NoSearch
  }

  /** What releaseHandler does for an entry whose whole service is being removed. */
  lemma ExaminedForService(s: State, t: nat) returns (l: Token)
    requires Inv(s) && Enabled(s, Examine(t)) && s.entries[s.tokens[t].entry].phase == ServiceRemove
    ensures var service := s.entries[s.tokens[t].entry].service;
            && service in s.waits && s.waits[service].ServiceWait?
            && l == (if s.waits[service].counter == 1 then ToSignal(service, SearchAfter(s.tokens[t])) else Leaving)
            && Apply(s, Examine(t)) ==
               s.(tokens := s.tokens[t := l],
                  waits := s.waits[service := s.waits[service].(counter := s.waits[service].counter - 1)])
  {
    var e := s.tokens[t].entry;
    var service := s.entries[e].service;
    assert EntryInv(s, e);
    NobodyWaitsForHandler(s, e, s.waits[service].counter - 1);
    l := if s.waits[service].counter == 1 then ToSignal(service, SearchAfter(s.tokens[t])) else Leaving;
  }

  lemma ExamineServiceKeeps(s: State, t: nat)
    requires Inv(s) && Enabled(s, Examine(t)) && s.entries[s.tokens[t].entry].phase == ServiceRemove
    ensures Inv(Apply(s, Examine(t)))
  {
    var s', e := Apply(s, Examine(t)), s.tokens[t].entry;
    var service := s.entries[e].service;
    var l := ExaminedForService(s, t);
    forall other | other in s.waits ensures Balanced(s, s', s.tokens[t], l, other) {
      ExamineServiceBalances(s, t, other, l);
    }
    assert TokenInv(s, t);
    TokenStepKeeps(s, s', t, l);
  }

  lemma ExamineServiceBalances(s: State, t: nat, other: nat, l: Token)
    requires Inv(s) && Enabled(s, Examine(t)) && s.entries[s.tokens[t].entry].phase == ServiceRemove
    requires other in s.waits
    requires var service := s.entries[s.tokens[t].entry].service;
             && service in s.waits && s.waits[service].ServiceWait?
             && l == (if s.waits[service].counter == 1 then ToSignal(service, SearchAfter(s.tokens[t])) else Leaving)
    ensures var service := s.entries[s.tokens[t].entry].service;
            Balanced(s, s.(tokens := s.tokens[t := l],
                           waits := s.waits[service := s.waits[service].(counter := s.waits[service].counter - 1)]),
                     s.tokens[t], l, other)
  {
    assert t in Debtors(s.entries, s.tokens, s.entries[s.tokens[t].entry].service);
    assert WaitInv(s, other);
    assert s.waits[other].HandlerWait? ==> s.waits[other].entry != s.tokens[t].entry;
  }

  /** What releaseHandler does for an entry that is itself being removed. */
  lemma ExaminedForHandler(s: State, t: nat) returns (l: Token)
    requires Inv(s) && Enabled(s, Examine(t)) && s.entries[s.tokens[t].entry].phase == HandlerRemove
    ensures l == if s.tokens[t].previous == 1 then ToSignal(s.entries[s.tokens[t].entry].service, NoSearch) else Leaving
    ensures Apply(s, Examine(t)) == s.(tokens := s.tokens[t := l])
  {
    var e := s.tokens[t].entry;
    var service := s.entries[e].service;
    assert EntryInv(s, e);
    ScanFindsOwnWait(s, e);
    assert WaitsFor(s, service, s.entries[e].handler);
    l := if s.tokens[t].previous == 1 then ToSignal(service, NoSearch) else Leaving;
  }

  lemma ExamineHandlerKeeps(s: State, t: nat)
    requires Inv(s) && Enabled(s, Examine(t)) && s.entries[s.tokens[t].entry].phase == HandlerRemove
    ensures Inv(Apply(s, Examine(t)))
  {
    var s', e := Apply(s, Examine(t)), s.tokens[t].entry;
    var l := ExaminedForHandler(s, t);
    assert EntryInv(s, e) && WaitInv(s, s.entries[e].service) && TokenInv(s, t);
    forall other | other in s.waits ensures Balanced(s, s', s.tokens[t], l, other) {
      assert WaitInv(s, other);
    }
    TokenStepKeeps(s, s', t, l);
  }

  /** Whoever is on the way to a latch finds it up. */
  lemma SignallerFindsLatchUp(s: State, t: nat, service: nat)
    requires Inv(s) && t in s.tokens && Signals(s.tokens[t], service)
    ensures service in s.waits && s.waits[service].latch == 1
    ensures s.waits[service].ServiceWait? ==> s.waits[service].counter == 0
    ensures s.waits[service].HandlerWait? ==>
              s.waits[service].entry in s.entries && s.entries[s.waits[service].entry].inUse == 0
  {
    assert TokenInv(s, t) && WaitInv(s, service);
    assert t in Signallers(s.tokens, service);
  }

  /** Where a caller is once it has counted the latch down. */
  function AfterCountDown(k: Token): Token
    requires k.Signalling?
  {
    if k.next.SearchFor? then Searching(k.next.entry, false) else Leaving
  }

  function LatchDown(s: State, t: nat): State
    requires Enabled(s, CountDown(t))
  {
    s.(tokens := s.tokens[t := AfterCountDown(s.tokens[t])], waits := CountedDown(s.waits, s.tokens[t].service))
  }

  lemma LatchDownKeeps(s: State, t: nat)
    requires Inv(s) && Enabled(s, CountDown(t))
    ensures Inv(LatchDown(s, t))
  {
    LatchDownToken(s, t);
    LatchDownSteps(s, t);
    TokenStepKeeps(s, LatchDown(s, t), t, AfterCountDown(s.tokens[t]));
  }

  lemma LatchDownToken(s: State, t: nat)
    requires Inv(s) && Enabled(s, CountDown(t))
    ensures TokenInv(LatchDown(s, t), t)
  {
    SignallerFindsLatchUp(s, t, s.tokens[t].service);
    assert TokenInv(s, t);
  }

  lemma LatchDownSteps(s: State, t: nat)
    requires Inv(s) && Enabled(s, CountDown(t))
    ensures TokenStep(s, LatchDown(s, t), t, AfterCountDown(s.tokens[t]))
  {
    var l, s' := AfterCountDown(s.tokens[t]), LatchDown(s, t);
    assert forall e :: !Uses(s.tokens[t], e) && !Uses(l, e);
    forall other | other in s.waits ensures Balanced(s, s', s.tokens[t], l, other) {
      LatchDownBalances(s, t, other);
    }
  }

  lemma LatchDownBalances(s: State, t: nat, other: nat)
    requires Inv(s) && Enabled(s, CountDown(t)) && other in s.waits
    ensures Balanced(s, LatchDown(s, t), s.tokens[t], AfterCountDown(s.tokens[t]), other)
  {
    SignallerFindsLatchUp(s, t, s.tokens[t].service);
    assert WaitInv(s, other);
  }

  lemma CountDownForm(s: State, t: nat)
    requires Enabled(s, CountDown(t))
    ensures var down := LatchDown(s, t);
            && t in down.tokens
            && Apply(s, CountDown(t)) ==
               if down.tokens[t].Leaving? then down.(tokens := down.tokens - {t}) else down
  {
    assert s.tokens[t := Leaving] - {t} == s.tokens - {t};
  }

  lemma CountDownKeeps(s: State, t: nat)
    requires Inv(s) && Enabled(s, CountDown(t))
    ensures Inv(Apply(s, CountDown(t)))
  {
    var down := LatchDown(s, t);
    LatchDownKeeps(s, t);
    CountDownForm(s, t);
    if down.tokens[t].Leaving? {
      LeaveKeeps(down, t);
    }
  }

  /** The search without the lock wakes nobody: while the entry is there, its service's removal is pending. */
  lemma SearchFindsNothing(s: State, t: nat)
    requires Inv(s) && t in s.tokens && s.tokens[t].Searching?
    ensures forall service :: !SearchFinds(s, t, service)
    ensures Apply(s, SearchUnlocked(t)) == s.(tokens := s.tokens - {t})
  {
    assert TokenInv(s, t);
    if s.tokens[t].entry in s.entries {
      ScanFindsOwnWait(s, s.tokens[t].entry);
    }
  }

  lemma SearchUnlockedKeeps(s: State, t: nat)
    requires Inv(s) && Enabled(s, SearchUnlocked(t))
    ensures Inv(Apply(s, SearchUnlocked(t)))
  {
    SearchFindsNothing(s, t);
    LeaveKeeps(s, t);
  }

  /** aquireHandlers hands over what it has collected, or leaves with nothing. */
  lemma EndManyKeeps(s: State, m: nat)
    requires Inv(s) && Enabled(s, EndMany(m))
    ensures Inv(Apply(s, EndMany(m)))
  {
    var s' := Apply(s, EndMany(m));
    HandedOverCounts(s, s', m);
    forall f | f in s'.entries ensures EntryInv(s', f) {
      assert EntryInv(s, f);
    }
    forall u | u in s'.tokens ensures TokenInv(s', u) {
      assert TokenInv(s, u);
    }
    forall service | service in s'.waits ensures WaitInv(s', service) {
      assert WaitInv(s, service);
    }
  }

  lemma HandedOverCounts(s: State, s': State, m: nat)
    requires Enabled(s, EndMany(m)) && s' == Apply(s, EndMany(m))
    ensures forall e :: Users(s'.tokens, e) == Users(s.tokens, e)
    ensures forall service :: Debtors(s'.entries, s'.tokens, service) == Debtors(s.entries, s.tokens, service)
    ensures forall service :: Signallers(s'.tokens, service) == Signallers(s.tokens, service)
    ensures forall e :: Lasts(s'.tokens, e) == Lasts(s.tokens, e)
  {
  }

  // ---------------------------------------------------------------- steps under the exclusive lock

  lemma RegisterKeeps(s: State, a: Action)
    requires Inv(s) && a.Register? && Enabled(s, a)
    ensures Inv(Apply(s, a))
  {
    var s' := Apply(s, a);
    forall f | f in s'.entries ensures EntryInv(s', f) {
      if f == a.entry {
        forall t | t in s.tokens ensures !Uses(s.tokens[t], f) {
          assert TokenInv(s, t);
        }
        assert Users(s.tokens, f) == {};
      } else {
        assert EntryInv(s, f);
      }
    }
    forall u | u in s'.tokens ensures TokenInv(s', u) {
      assert TokenInv(s, u);
    }
    forall service | service in s'.waits ensures WaitInv(s', service) {
      assert WaitInv(s, service);
      forall t | t in s.tokens
        ensures Owes(s'.entries, s.tokens[t], service) <==> Owes(s.entries, s.tokens[t], service)
      {
        assert TokenInv(s, t);
      }
      assert Debtors(s'.entries, s'.tokens, service) == Debtors(s.entries, s.tokens, service);
    }
  }

  /** To know of more searches that their entry is gone moves no counter. */
  lemma OutlivedKeeps(s: State, rest: map<nat, Entry>)
    requires Inv(s)
    ensures Inv(s.(tokens := Outlived(s.tokens, rest)))
  {
    var s' := s.(tokens := Outlived(s.tokens, rest));
    OutlivedCounts(s.entries, s.tokens, rest);
    forall t | t in s'.tokens ensures TokenInv(s', t) {
      assert TokenInv(s, t);
    }
    forall f | f in s'.entries ensures EntryInv(s', f) {
      assert EntryInv(s, f);
    }
    forall service | service in s'.waits ensures WaitInv(s', service) {
      assert WaitInv(s, service);
    }
  }

  /** Entries of one service that nobody uses, with the wait of that service; nothing of the service is left awaited. */
  ghost predicate Erasable(s: State, gone: set<nat>, service: nat) {
    && NoReaders(s)
    && (forall e | e in gone && e in s.entries :: s.entries[e].service == service && Users(s.tokens, e) == {})
    && (service in s.waits ==> Signallers(s.tokens, service) == {})
    && (forall e | e in s.entries && e !in gone && s.entries[e].service == service :: s.entries[e].phase == Active)
  }

  lemma EraseKeepsTokens(s: State, gone: set<nat>, service: nat, s': State)
    requires Inv(s) && Erasable(s, gone, service)
    requires s' == s.(entries := s.entries - gone, waits := s.waits - {service})
    requires forall t | t in s.tokens && s.tokens[t].Searching? && !s.tokens[t].erased :: s.tokens[t].entry !in gone
    ensures forall t | t in s'.tokens :: TokenInv(s', t)
  {
    forall t | t in s.tokens ensures TokenInv(s', t) {
      assert TokenInv(s, t);
      if s.tokens[t].Held? {
        assert t in Users(s.tokens, s.tokens[t].entry);
      }
      if s.tokens[t].Signalling? {
        assert t in Signallers(s.tokens, s.tokens[t].service);
      }
    }
  }

  lemma EraseKeepsRest(s: State, gone: set<nat>, service: nat, s': State)
    requires Inv(s) && Erasable(s, gone, service)
    requires s' == s.(entries := s.entries - gone, waits := s.waits - {service})
    requires forall t | t in s.tokens && s.tokens[t].Searching? && !s.tokens[t].erased :: s.tokens[t].entry !in gone
    ensures Inv(s')
  {
    EraseKeepsTokens(s, gone, service, s');
    forall f | f in s'.entries ensures EntryInv(s', f) {
      assert EntryInv(s, f);
    }
    forall other | other in s'.waits ensures WaitInv(s', other) {
      assert WaitInv(s, other);
      assert Debtors(s'.entries, s'.tokens, other) == Debtors(s.entries, s.tokens, other);
    }
  }

  /** Entries nobody uses may go, with the waits of their service. */
  lemma EraseKeeps(s: State, gone: set<nat>, service: nat, s': State)
    requires Inv(s) && Erasable(s, gone, service)
    requires s' == Without(s, s.entries - gone).(waits := s.waits - {service})
    ensures Inv(s')
  {
    var known := s.(tokens := Outlived(s.tokens, s.entries - gone));
    OutlivedKeeps(s, s.entries - gone);
    OutlivedCounts(s.entries, s.tokens, s.entries - gone);
    EraseKeepsRest(known, gone, service, s');
  }

  lemma NoUsersNoTokens(s: State, e: nat)
    requires Inv(s) && e in s.entries && s.entries[e].inUse == 0
    ensures Users(s.tokens, e) == {}
  {
    assert EntryInv(s, e);
  }

  lemma UnregisterHandlerKeeps(s: State, e: nat)
    requires Inv(s) && Enabled(s, UnregisterHandler(e))
    ensures Inv(Apply(s, UnregisterHandler(e)))
  {
    var s', service := Apply(s, UnregisterHandler(e)), s.entries[e].service;
    forall f | f in s.entries && s.entries[f].service == service ensures s.entries[f].phase == Active {
      assert EntryInv(s, f);
    }
    if s.entries[e].inUse == 0 {
      NoUsersNoTokens(s, e);
      EraseKeeps(s, {e}, service, s');
    } else {
      DeferHandlerKeeps(s, e);
    }
  }

  /** Under the exclusive lock nobody is past the entry's counter. */
  lemma NoSignallersWithoutWait(s: State, service: nat)
    requires Inv(s) && service !in s.waits
    ensures Signallers(s.tokens, service) == {}
  {
    forall t | t in s.tokens ensures !Signals(s.tokens[t], service) {
      assert TokenInv(s, t);
    }
  }

  lemma DeferHandlerKeeps(s: State, e: nat)
    requires Inv(s) && Enabled(s, UnregisterHandler(e)) && s.entries[e].inUse != 0
    ensures Inv(Apply(s, UnregisterHandler(e)))
  {
    var s', service := Apply(s, UnregisterHandler(e)), s.entries[e].service;
    NoSignallersWithoutWait(s, service);
    SameDebtors(s.entries, s'.entries, s.tokens);
    assert Lasts(s.tokens, e) == {};
    forall f | f in s'.entries ensures EntryInv(s', f) {
      assert EntryInv(s, f);
    }
    forall t | t in s'.tokens ensures TokenInv(s', t) {
      assert TokenInv(s, t);
    }
    forall other | other in s'.waits ensures WaitInv(s', other) {
      if other != service {
        assert WaitInv(s, other);
      }
    }
  }

  lemma FinishHandlerKeeps(s: State, service: nat)
    requires Inv(s) && Enabled(s, FinishHandler(service))
    ensures Inv(Apply(s, FinishHandler(service)))
  {
    var e := s.waits[service].entry;
    assert WaitInv(s, service);
    NoUsersNoTokens(s, e);
    forall f | f in s.entries && f != e && s.entries[f].service == service ensures s.entries[f].phase == Active {
      assert EntryInv(s, f);
    }
    EraseKeeps(s, {e}, service, Apply(s, FinishHandler(service)));
  }

  lemma CountersMatchTokens(s: State)
    requires Inv(s)
    ensures CountersMatch(s.entries, s.tokens)
  {
    forall e | e in s.entries ensures s.entries[e].inUse == |Users(s.tokens, e)| {
      assert EntryInv(s, e);
    }
  }

  lemma NoDebtorsNoUsers(s: State, service: nat, e: nat)
    requires Debtors(s.entries, s.tokens, service) == {} && e in s.entries && s.entries[e].service == service
    ensures Users(s.tokens, e) == {}
  {
    forall t | t in s.tokens ensures !Uses(s.tokens[t], e) {
      assert t !in Debtors(s.entries, s.tokens, service);
    }
  }

  /** All entries of a service without debtors may be erased at once. */
  lemma EraseServiceKeeps(s: State, service: nat, s': State)
    requires Inv(s) && NoReaders(s) && Debtors(s.entries, s.tokens, service) == {}
    requires service in s.waits ==> Signallers(s.tokens, service) == {}
    requires s' == Without(s, Erased(s.entries, service)).(waits := s.waits - {service})
    ensures Inv(s')
  {
    var gone := set e | e in s.entries && s.entries[e].service == service;
    assert s'.entries == s.entries - gone;
    forall e | e in gone ensures Users(s.tokens, e) == {} {
      NoDebtorsNoUsers(s, service, e);
    }
    EraseKeeps(s, gone, service, s');
  }

  lemma FinishServiceKeeps(s: State, service: nat)
    requires Inv(s) && Enabled(s, FinishService(service))
    ensures Inv(Apply(s, FinishService(service)))
  {
    assert WaitInv(s, service);
    EraseServiceKeeps(s, service, Apply(s, FinishService(service)));
  }

  lemma UnregisterServiceKeeps(s: State, service: nat)
    requires Inv(s) && Enabled(s, UnregisterService(service))
    ensures Inv(Apply(s, UnregisterService(service)))
  {
    CountersMatchTokens(s);
    SumIsDebtors(s.entries, s.tokens, service);
    if InUseSum(s.entries, service) == 0 {
      assert s.waits - {service} == s.waits;
      EraseServiceKeeps(s, service, Apply(s, UnregisterService(service)));
    } else {
      DeferServiceKeeps(s, service);
    }
  }

  lemma DeferServiceKeeps(s: State, service: nat)
    requires Inv(s) && Enabled(s, UnregisterService(service)) && InUseSum(s.entries, service) != 0
    requires InUseSum(s.entries, service) == |Debtors(s.entries, s.tokens, service)|
    ensures Inv(Apply(s, UnregisterService(service)))
  {
    var s' := Apply(s, UnregisterService(service));
    forall t | t in s'.tokens ensures TokenInv(s', t) {
      assert TokenInv(s, t);
    }
    DeferServiceKeepsEntries(s, service);
    DeferServiceKeepsWaits(s, service);
  }

  lemma DeferServiceKeepsEntries(s: State, service: nat)
    requires Inv(s) && Enabled(s, UnregisterService(service)) && InUseSum(s.entries, service) != 0
    ensures var s' := Apply(s, UnregisterService(service));
            DistinctHandlers(s'.entries) && forall f | f in s'.entries :: EntryInv(s', f)
  {
    var s' := Apply(s, UnregisterService(service));
    forall f | f in s'.entries ensures EntryInv(s', f) {
      assert EntryInv(s, f);
    }
  }

  lemma DeferServiceKeepsWaits(s: State, service: nat)
    requires Inv(s) && Enabled(s, UnregisterService(service)) && InUseSum(s.entries, service) != 0
    requires InUseSum(s.entries, service) == |Debtors(s.entries, s.tokens, service)|
    ensures var s' := Apply(s, UnregisterService(service)); forall other | other in s'.waits :: WaitInv(s', other)
  {
    var s' := Apply(s, UnregisterService(service));
    NoSignallersWithoutWait(s, service);
    SameDebtors(s.entries, s'.entries, s.tokens);
    forall other | other in s'.waits ensures WaitInv(s', other) {
      if other != service {
        assert WaitInv(s, other);
      }
    }
  }

  // ---------------------------------------------------------------- every step, every run

  function Initial(): State {
    State(map[], map[], map[], map[])
  }

  lemma InitialInv()
    ensures Inv(Initial())
  {
  }

  lemma ExamineKeeps(s: State, t: nat)
    requires Inv(s) && Enabled(s, Examine(t))
    ensures Inv(Apply(s, Examine(t)))
  {
    match s.entries[s.tokens[t].entry].phase
    case Active => ExamineActiveKeeps(s, t);
    case ServiceRemove => ExamineServiceKeeps(s, t);
    case HandlerRemove => ExamineHandlerKeeps(s, t);
  }

  /** Beginning an aquireHandlers, and a pushBack that fails, move no counter. */
  lemma ManyKeeps(s: State, m: nat, failing: bool)
    requires Inv(s)
    ensures Inv(s.(acquirers := s.acquirers[m := failing]))
  {
    var s' := s.(acquirers := s.acquirers[m := failing]);
    forall f | f in s'.entries ensures EntryInv(s', f) {
      assert EntryInv(s, f);
    }
    forall t | t in s'.tokens ensures TokenInv(s', t) {
      assert TokenInv(s, t);
    }
    forall service | service in s'.waits ensures WaitInv(s', service) {
      assert WaitInv(s, service);
    }
  }

  lemma StepKeeps(s: State, a: Action)
    requires Inv(s) && Enabled(s, a)
    ensures Inv(Apply(s, a))
  {
    match a
    case Register(_, _, _, _) => RegisterKeeps(s, a);
    case UnregisterHandler(e) => UnregisterHandlerKeeps(s, e);
    case FinishHandler(service) => FinishHandlerKeeps(s, service);
    case UnregisterService(service) => UnregisterServiceKeeps(s, service);
    case FinishService(service) => FinishServiceKeeps(s, service);
    case Acquire(t, e) => AcquireKeeps(s, t, e, Held(e));
    case BeginMany(m) => ManyKeeps(s, m, false);
    case Collect(m, t, e) => AcquireKeeps(s, t, e, Collected(m, e));
    case FailMany(m) => ManyKeeps(s, m, true);
    case Undo(t) => UndoKeeps(s, t);
    case EndMany(m) => EndManyKeeps(s, m);
    case EnterRelease(t) => LockKeeps(s, t, Locked(s.tokens[t].entry));
    case Decrement(t) => DecrementKeeps(s, t);
    case Examine(t) => ExamineKeeps(s, t);
    case Unlock(t) =>
      if s.tokens[t].Leaving? {
        LeaveKeeps(s, t);
      } else {
        LockKeeps(s, t, Signalling(s.tokens[t].service, s.tokens[t].next));
      }
    case CountDown(t) => CountDownKeeps(s, t);
    case SearchUnlocked(t) => SearchUnlockedKeeps(s, t);
  }

  /** A run from `s` by the actions of `run`, ending in `s'`. */
  ghost predicate Runs(s: State, run: seq<Action>, s': State)
    decreases |run|
  {
    if run == [] then s == s' else Enabled(s, run[0]) && Runs(Apply(s, run[0]), run[1..], s')
  }

  /** Every state that any interleaving reaches satisfies the invariant. */
  lemma {:induction false} RunsKeep(s: State, run: seq<Action>, s': State)
    requires Inv(s) && Runs(s, run, s')
    ensures Inv(s')
    decreases |run|
  {
    if run != [] {
      StepKeeps(s, run[0]);
      RunsKeep(Apply(s, run[0]), run[1..], s');
    }
  }
}
