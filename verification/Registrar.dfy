/**
  * GenericServerDataHandlerRegistrar as a transition system. Sections under the exclusive lock are one step,
  * possible only while nobody holds the shared lock; under the shared lock every access to a shared counter
  * is a step of its own.
  */
module Registrar {

  datatype Phase = Active | HandlerRemove | ServiceRemove

  /** SdhHandle, with the message id it is filed under. */
  datatype Entry = Entry(message: nat, service: nat, handler: nat, inUse: nat, phase: Phase)

  /** An element of either unregister list; `latch` is the latch's count. */
  datatype Wait = ServiceWait(counter: int, latch: int) | HandlerWait(entry: nat, latch: int)

  /** The entry whose handler a releaser is going to look for once it has counted a latch down, if any. */
  datatype Search = NoSearch | SearchFor(entry: nat)

  /**
    * Where a caller is between acquiring an entry and having released it. The last user of an entry whose service it
    * has just woken falls through to the search of the handler list, without the lock; `erased` tells that the
    * entry has been erased meanwhile.
    */
  datatype Token =
    | Collected(acquirer: nat, entry: nat)
    | Held(entry: nat)
    | Locked(entry: nat)
    | Decremented(entry: nat, previous: nat)
    | Leaving
    | ToSignal(service: nat, next: Search)
    | Signalling(service: nat, next: Search)
    | Searching(entry: nat, erased: bool)

  /**
    * The map, the pending unregister calls by service, the callers, and the aquireHandlers calls under way
    * (true once a pushBack has failed and the collected counters are being given back).
    */
  datatype State = State(entries: map<nat, Entry>, waits: map<nat, Wait>, tokens: map<nat, Token>,
                         acquirers: map<nat, bool>)

  datatype Action =
    | Register(entry: nat, message: nat, service: nat, handler: nat)
    | UnregisterHandler(entry: nat)
    | FinishHandler(service: nat)
    | UnregisterService(service: nat)
    | FinishService(service: nat)
    | Acquire(token: nat, entry: nat)
    | BeginMany(acquirer: nat)
    | Collect(acquirer: nat, token: nat, entry: nat)
    | FailMany(acquirer: nat)
    | Undo(token: nat)
    | EndMany(acquirer: nat)
    | EnterRelease(token: nat)
    | Decrement(token: nat)
    | Examine(token: nat)
    | Unlock(token: nat)
    | CountDown(token: nat)
    | SearchUnlocked(token: nat)

  // ---------------------------------------------------------------- the steps

  /** Nobody holds the shared lock. */
  predicate NoReaders(s: State) {
    && s.acquirers == map[]
    && forall t | t in s.tokens :: s.tokens[t].Held? || s.tokens[t].Signalling? || s.tokens[t].Searching?
  }

  /** The in-use counters of a service, summed up. */
  ghost function InUseSum(entries: map<nat, Entry>, service: nat): (n: nat)
    decreases |entries|
  {
    if entries == map[] then 0 else
      var e :| e in entries;
      (if entries[e].service == service then entries[e].inUse else 0) + InUseSum(entries - {e}, service)
  }

  function Erased(entries: map<nat, Entry>, service: nat): map<nat, Entry> {
    map e | e in entries && entries[e].service != service :: entries[e]
  }

  /** The searches for entries that are no longer there. */
  function Outlived(tokens: map<nat, Token>, entries: map<nat, Entry>): map<nat, Token> {
    map t | t in tokens ::
      if tokens[t].Searching? && tokens[t].entry !in entries then tokens[t].(erased := true) else tokens[t]
  }

  /** The state without some of its entries. */
  function Without(s: State, entries: map<nat, Entry>): State {
    s.(entries := entries, tokens := Outlived(s.tokens, entries))
  }

  function Marked(entries: map<nat, Entry>, service: nat): map<nat, Entry> {
    map e | e in entries :: if entries[e].service == service then entries[e].(phase := ServiceRemove) else entries[e]
  }

  function Counted(entries: map<nat, Entry>, e: nat, change: int): map<nat, Entry>
    requires e in entries && 0 <= entries[e].inUse + change
  {
    entries[e := entries[e].(inUse := entries[e].inUse + change)]
  }

  /**
    * The source's own guards, and the discipline of its callers: calls for one service do not overlap, and a
    * handler object is registered at most once at a time.
    */
  predicate Enabled(s: State, a: Action) {
    match a
    case Register(e, _, service, handler) =>
      && NoReaders(s) && e !in s.entries && service !in s.waits
      && forall f | f in s.entries :: s.entries[f].handler != handler
    case UnregisterHandler(e) => NoReaders(s) && e in s.entries && s.entries[e].service !in s.waits
    case FinishHandler(service) =>
      NoReaders(s) && service in s.waits && s.waits[service].HandlerWait? && s.waits[service].latch == 0
    case UnregisterService(service) => NoReaders(s) && service !in s.waits
    case FinishService(service) =>
      NoReaders(s) && service in s.waits && s.waits[service].ServiceWait? && s.waits[service].latch == 0
    case Acquire(t, e) => t !in s.tokens && e in s.entries && s.entries[e].phase == Active
    case BeginMany(m) => m !in s.acquirers
    case Collect(m, t, e) =>
      m in s.acquirers && !s.acquirers[m] && t !in s.tokens && e in s.entries && s.entries[e].phase == Active
    case FailMany(m) => m in s.acquirers && !s.acquirers[m]
    case Undo(t) =>
      && t in s.tokens && s.tokens[t].Collected?
      && s.tokens[t].acquirer in s.acquirers && s.acquirers[s.tokens[t].acquirer]
      && s.tokens[t].entry in s.entries && 0 < s.entries[s.tokens[t].entry].inUse
    case EndMany(m) => m in s.acquirers && (s.acquirers[m] ==> forall t | t in s.tokens :: !CollectedBy(s.tokens[t], m))
    case EnterRelease(t) => t in s.tokens && s.tokens[t].Held?
    case Decrement(t) =>
      t in s.tokens && s.tokens[t].Locked? && s.tokens[t].entry in s.entries && 0 < s.entries[s.tokens[t].entry].inUse
    case Examine(t) => t in s.tokens && s.tokens[t].Decremented? && s.tokens[t].entry in s.entries
    case Unlock(t) => t in s.tokens && (s.tokens[t].Leaving? || s.tokens[t].ToSignal?)
    case CountDown(t) => t in s.tokens && s.tokens[t].Signalling? && s.tokens[t].service in s.waits
    case SearchUnlocked(t) => t in s.tokens && s.tokens[t].Searching?
  }

  predicate CollectedBy(k: Token, m: nat) {
    k.Collected? && k.acquirer == m
  }

  ghost function Apply(s: State, a: Action): State
    requires Enabled(s, a)
  {
    match a
    case Register(e, message, service, handler) =>
      s.(entries := s.entries[e := Entry(message, service, handler, 0, Active)])
    case UnregisterHandler(e) =>
      if s.entries[e].inUse != 0
      then s.(entries := s.entries[e := s.entries[e].(phase := HandlerRemove)],
              waits := s.waits[s.entries[e].service := HandlerWait(e, 1)])
      else Without(s, s.entries - {e})
    case FinishHandler(service) =>
      Without(s, s.entries - {s.waits[service].entry}).(waits := s.waits - {service})
    case UnregisterService(service) =>
      var total := InUseSum(s.entries, service);
      if total != 0
      then s.(entries := Marked(s.entries, service), waits := s.waits[service := ServiceWait(total, 1)])
      else Without(s, Erased(s.entries, service))
    case FinishService(service) =>
      Without(s, Erased(s.entries, service)).(waits := s.waits - {service})
    case Acquire(t, e) => s.(tokens := s.tokens[t := Held(e)], entries := Counted(s.entries, e, 1))
    case BeginMany(m) => s.(acquirers := s.acquirers[m := false])
    case Collect(m, t, e) => s.(tokens := s.tokens[t := Collected(m, e)], entries := Counted(s.entries, e, 1))
    case FailMany(m) => s.(acquirers := s.acquirers[m := true])
    case Undo(t) => s.(tokens := s.tokens - {t}, entries := Counted(s.entries, s.tokens[t].entry, -1))
    case EndMany(m) =>
      s.(acquirers := s.acquirers - {m},
         tokens := map t | t in s.tokens ::
                     if CollectedBy(s.tokens[t], m) then Held(s.tokens[t].entry) else s.tokens[t])
    case EnterRelease(t) => s.(tokens := s.tokens[t := Locked(s.tokens[t].entry)])
    case Decrement(t) =>
      var e := s.tokens[t].entry;
      s.(tokens := s.tokens[t := Decremented(e, s.entries[e].inUse)], entries := Counted(s.entries, e, -1))
    case Examine(t) => Examined(s, t)
    case Unlock(t) =>
      if s.tokens[t].Leaving?
      then s.(tokens := s.tokens - {t})
      else s.(tokens := s.tokens[t := Signalling(s.tokens[t].service, s.tokens[t].next)])
    case CountDown(t) =>
      var tokens := match s.tokens[t].next
                    case NoSearch => s.tokens - {t}
                    case SearchFor(e) => s.tokens[t := Searching(e, false)];
      s.(tokens := tokens, waits := CountedDown(s.waits, s.tokens[t].service))
    case SearchUnlocked(t) =>
      if exists service :: SearchFinds(s, t, service) then
        var service :| SearchFinds(s, t, service);
        s.(tokens := s.tokens - {t}, waits := CountedDown(s.waits, service))
      else
        s.(tokens := s.tokens - {t})
  }

  function CountedDown(waits: map<nat, Wait>, service: nat): map<nat, Wait>
    requires service in waits
  {
    waits[service := waits[service].(latch := waits[service].latch - 1)]
  }

  /** What the search without the lock would wake. Of an erased entry nothing is known; it is taken to match nobody. */
  ghost predicate SearchFinds(s: State, t: nat, service: nat)
    requires t in s.tokens && s.tokens[t].Searching?
  {
    && !s.tokens[t].erased && s.tokens[t].entry in s.entries
    && WaitsFor(s, service, s.entries[s.tokens[t].entry].handler)
  }

  /** The switch in releaseHandler, on the phase of the entry just decremented. */
  ghost function Examined(s: State, t: nat): State
    requires Enabled(s, Examine(t))
  {
    var e, last := s.tokens[t].entry, s.tokens[t].previous == 1;
    var service := s.entries[e].service;
    if s.entries[e].phase == ServiceRemove && service in s.waits && s.waits[service].ServiceWait? then
      var wait := s.waits[service];
      var counted := s.(waits := s.waits[service := wait.(counter := wait.counter - 1)]);
      if wait.counter == 1
      then counted.(tokens := s.tokens[t := ToSignal(service, if last then SearchFor(e) else NoSearch)])
      else ScanHandlers(counted, t, e, last)
    else if s.entries[e].phase != Active then
      ScanHandlers(s, t, e, last)
    else
      s.(tokens := s.tokens[t := Leaving])
  }

  ghost predicate WaitsFor(s: State, service: nat, handler: nat) {
    && service in s.waits && s.waits[service].HandlerWait?
    && s.waits[service].entry in s.entries && s.entries[s.waits[service].entry].handler == handler
  }

  /** The last user looks for an unregister call that waits for this handler. */
  ghost function ScanHandlers(s: State, t: nat, e: nat, last: bool): State
    requires e in s.entries
  {
    if last && exists service :: WaitsFor(s, service, s.entries[e].handler) then
      var service :| WaitsFor(s, service, s.entries[e].handler);
      s.(tokens := s.tokens[t := ToSignal(service, NoSearch)])
    else
      s.(tokens := s.tokens[t := Leaving])
  }

  // ---------------------------------------------------------------- the invariant

  predicate Uses(k: Token, e: nat) {
    (k.Collected? || k.Held? || k.Locked?) && k.entry == e
  }

  predicate Owes(entries: map<nat, Entry>, k: Token, service: nat) {
    && (k.Collected? || k.Held? || k.Locked? || k.Decremented?)
    && k.entry in entries && entries[k.entry].service == service
  }

  predicate Signals(k: Token, service: nat) {
    (k.ToSignal? || k.Signalling?) && k.service == service
  }

  /** Those between acquire and the entry's decrement. */
  function Users(tokens: map<nat, Token>, e: nat): set<nat> {
    set t | t in tokens && Uses(tokens[t], e)
  }

  /** Those between acquire and the service counter's decrement. */
  function Debtors(entries: map<nat, Entry>, tokens: map<nat, Token>, service: nat): set<nat> {
    set t | t in tokens && Owes(entries, tokens[t], service)
  }

  /** Those about to count a latch of `service` down. */
  function Signallers(tokens: map<nat, Token>, service: nat): set<nat> {
    set t | t in tokens && Signals(tokens[t], service)
  }

  /** The one that took the entry's counter from one to zero and has not looked further yet. */
  function Lasts(tokens: map<nat, Token>, e: nat): set<nat> {
    set t | t in tokens && tokens[t] == Decremented(e, 1)
  }

  ghost predicate EntryInv(s: State, e: nat)
    requires e in s.entries
  {
    var x := s.entries[e];
    && x.inUse == |Users(s.tokens, e)|
    && match x.phase
       case Active => x.service in s.waits ==> s.waits[x.service].HandlerWait? && s.waits[x.service].entry != e
       case HandlerRemove => x.service in s.waits && s.waits[x.service].HandlerWait? && s.waits[x.service].entry == e
       case ServiceRemove => x.service in s.waits && s.waits[x.service].ServiceWait?
  }

  ghost predicate TokenInv(s: State, t: nat)
    requires t in s.tokens
  {
    match s.tokens[t]
    case Collected(m, e) => m in s.acquirers && e in s.entries && s.entries[e].phase == Active
    case Held(e) => e in s.entries
    case Locked(e) => e in s.entries
    case Decremented(e, previous) => e in s.entries && 0 < previous
    case Leaving => true
    case ToSignal(service, next) => service in s.waits && SearchInv(s, service, next)
    case Signalling(service, next) => service in s.waits && SearchInv(s, service, next)
    case Searching(e, erased) => !erased ==> AwaitedEntry(s, e) && s.waits[s.entries[e].service].latch == 0
  }

  /** An entry whose service is being removed. */
  ghost predicate AwaitedEntry(s: State, e: nat) {
    && e in s.entries && s.entries[e].phase == ServiceRemove
    && s.entries[e].service in s.waits && s.waits[s.entries[e].service].ServiceWait?
  }

  ghost predicate SearchInv(s: State, service: nat, next: Search) {
    next.SearchFor? ==> AwaitedEntry(s, next.entry) && s.entries[next.entry].service == service
  }

  /** Exactly one of: users remain, or someone is on the way to the latch, or the latch is down. */
  ghost predicate WaitInv(s: State, service: nat)
    requires service in s.waits
  {
    match s.waits[service]
    case ServiceWait(counter, latch) =>
      && counter == |Debtors(s.entries, s.tokens, service)|
      && 0 <= latch <= 1
      && |Signallers(s.tokens, service)| + (1 - latch) == (if counter == 0 then 1 else 0)
    case HandlerWait(e, latch) =>
      && e in s.entries && s.entries[e].service == service && s.entries[e].phase == HandlerRemove
      && 0 <= latch <= 1
      && |Lasts(s.tokens, e)| + |Signallers(s.tokens, service)| + (1 - latch) ==
         (if s.entries[e].inUse == 0 then 1 else 0)
  }

  ghost predicate DistinctHandlers(entries: map<nat, Entry>) {
    forall e, f | e in entries && f in entries && entries[e].handler == entries[f].handler :: e == f
  }

  ghost predicate Inv(s: State) {
    && (forall e | e in s.entries :: EntryInv(s, e))
    && (forall t | t in s.tokens :: TokenInv(s, t))
    && (forall service | service in s.waits :: WaitInv(s, service))
    && DistinctHandlers(s.entries)
  }
}
