/** Server::handleData: the handlers of a message are acquired, given the body one after the other, and released. */
module Server {
  import opened Status
  import opened Bytes
  import opened Types
  import opened Graph
  import opened Reader
  import opened Outcomes
  import opened Message
  import opened Registrar
  import opened RegistrarCode
  import opened Deserializer
  import opened Isomorphism

  /**
    * One handler's turn: a refusal, or a reading of the body, with its input's number, the context it started from
    * and what the body gave it; and its answer.
    */
  datatype Pass =
    | Refused(call: nat, answer: Status)
    | Heard(call: nat, start: In, body: Result<(Value, In)>, answer: Status)

  function Answers(passes: seq<Pass>): (answers: seq<Status>)
    ensures |answers| == |passes|
  {
    if passes == [] then [] else Answers(passes[..|passes| - 1]) + [passes[|passes| - 1].answer]
  }

  /** AGS_CS_SET_NEW_ERROR over a sequence of answers. */
  function FirstError(answers: seq<Status>): (r: Status) {
    if answers == [] then NoError else
      var before := FirstError(answers[..|answers| - 1]);
      if before != NoError then before else answers[|answers| - 1]
  }

  predicate AllWell(answers: seq<Status>) {
    forall i | 0 <= i < |answers| :: answers[i] == NoError
  }

  /** It is the first answer that is an error, if there is one. */
  lemma {:induction false} FirstErrorIsFirst(answers: seq<Status>)
    ensures FirstError(answers) == NoError <==> AllWell(answers)
    ensures FirstError(answers) != NoError ==>
              exists i | 0 <= i < |answers| :: answers[i] == FirstError(answers) && AllWell(answers[..i])
  {
    if answers != [] {
      var n := |answers| - 1;
      var before := answers[..n];
      FirstErrorIsFirst(before);
      if FirstError(before) != NoError {
        var i :| 0 <= i < n && before[i] == FirstError(before) && AllWell(before[..i]);
        assert before[..i] == answers[..i] && answers[i] == before[i];
      }
    }
  }

  /**
    * A handler: what its policies say of the message, the oldest interface version it takes, the demands of its
    * input type, and what its own code answers once the input has been read.
    */
  datatype Handler = Handler(policy: Status, minimum: nat, input: Interface, verdict: Status)

  /** The handler behind each entry. */
  type Code = nat -> Handler

  /** Why a handler answers without reading the body; NoError when it does read it. */
  function Refusal(h: Handler, c: Context): Status {
    if h.policy != NoError then h.policy
    else Demands(h.input, h.minimum, true, h.input.id, c.interfaceVersion, c.flags)
  }

  /**
    * A policy comes first and its answer is returned as it is; then the versions, then the data flags. Whoever has
    * none of these against a message reads the body.
    */
  lemma RefusalMeans(h: Handler, c: Context)
    ensures Refusal(h, c) ==
            if h.policy != NoError then h.policy
            else if c.interfaceVersion < h.minimum || h.input.newest < c.interfaceVersion then
              ErrorNotSupportedInterfaceVersion
            else if !WordSuits(DataBits(c.flags), DataBits(h.input.mandatory), DataBits(h.input.forbidden)) then
              ErrorNotCompatibleDataFlagsSettings
            else if c.flags.checkRecursivePointers && !c.flags.allowUnmanagedPointers then
              ErrorNotCompatibleDataFlagsSettings
            else NoError
  {
    OwnWordSuitsIff(h.input, c.flags);
  }

  /** Every pass is over the whole body from its beginning. */
  ghost predicate PassesOver(c: Context, bin: Bin, u: Type, body: nat, passes: seq<Pass>, handles: seq<nat>,
                             code: Code) {
    |passes| == |handles| && FirstOver(c, bin, u, body, passes, handles, code)
  }

  ghost predicate FirstOver(c: Context, bin: Bin, u: Type, body: nat, passes: seq<Pass>, handles: seq<nat>,
                            code: Code) {
    && |passes| <= |handles|
    && forall i | 0 <= i < |passes| ::
         passes[i].call == i && PassOver(c, bin, u, body, passes[i], code(handles[i]))
  }

  /** A refusal, or else the handler's own answer or the reader's error. */
  ghost predicate PassOver(c: Context, bin: Bin, u: Type, body: nat, pass: Pass, h: Handler) {
    if Refusal(h, c) != NoError then
      pass.Refused? && pass.answer == Refusal(h, c)
    else
      HeardOver(c, bin, u, body, pass, h.verdict)
  }

  ghost predicate HeardOver(c: Context, bin: Bin, u: Type, body: nat, pass: Pass, verdict: Status) {
    && pass.Heard? && pass.start.cursor == body && Readable(c, bin, u, pass.start)
    && pass.body == Read(c, bin, u, Root(pass.call), pass.start)
    && pass.answer == match pass.body
                      case Ok(_) => verdict
                      case Err(error) => error
  }

  class Server {
    const registrar: HandlerRegistrar

    constructor (registrar: HandlerRegistrar)
      ensures this.registrar == registrar
    {
      this.registrar := registrar;
    }

    /** handleDataCommon: unless the handler refuses, the body is deserialized and the handler's own code answers. */
    method HandleDataCommon(ctx: DData, u: Type, h: Handler, call: nat) returns (status: Status, ghost pass: Pass)
      requires Readable(ctx.context, ctx.bin, u, ctx.State())
      modifies ctx
      ensures PassOver(ctx.context, ctx.bin, u, old(ctx.cursor), pass, h) && status == pass.answer && pass.call == call
      ensures if pass.Heard? then pass.start == old(ctx.State()) else ctx.State() == old(ctx.State())
      ensures Fresh(ctx.State())
      ensures h.policy != NoError ==> pass.Refused? && status == h.policy
    {
      if h.policy != NoError {
        return h.policy, Refused(call, h.policy);
      }
      status := Demands(h.input, h.minimum, true, h.input.id, ctx.context.interfaceVersion, ctx.context.flags);
      if status != NoError {
        return status, Refused(call, status);
      }
      var input;
      ghost var start := ctx.State();
      status, input := ctx.DeserializeValue(u, Root(call));
      if status == NoError {
        status := h.verdict;
      }
      pass := Heard(call, start, Read(ctx.context, ctx.bin, u, Root(call), start), status);
    }

    /** A turn of a handler that has been acquired: it answers, is released, and the body is ready for the next. */
    method Turn(ctx: DData, u: Type, e: nat, call: nat, code: Code, ghost s: State, ghost t: nat)
        returns (status: Status, ghost pass: Pass, ghost s': State)
      requires registrar.Valid() && s == registrar.View() && t in s.tokens && s.tokens[t] == Held(e)
      requires Readable(ctx.context, ctx.bin, u, ctx.State())
      modifies registrar, ctx
      ensures registrar.Valid() && s' == registrar.View() && Released(s, s', e, t)
      ensures PassOver(ctx.context, ctx.bin, u, old(ctx.cursor), pass, code(e)) && status == pass.answer
      ensures ctx.cursor == old(ctx.cursor) && Fresh(ctx.State()) && pass.call == call
    {
      var bodyPosition := ctx.cursor;
      status, pass := HandleDataCommon(ctx, u, code(e), call);
      registrar.ReleaseHandler(e, t);
      s' := registrar.View();
      ctx.cursor := bodyPosition;
    }

    /**
      * handleData, behind the headers. `room` is how many times pushBack will succeed for the list of handlers. What
      * happens is decided by the entries of the message before the call.
      */
    method HandleData(ctx: DData, message: nat, u: Type, code: Code, room: nat)
        returns (status: Status, ghost handles: seq<nat>, ghost passes: seq<Pass>)
      requires registrar.Valid() && Readable(ctx.context, ctx.bin, u, ctx.State())
      modifies registrar, ctx
      ensures registrar.Valid() && registrar.View() == old(registrar.View())
      ensures PassesOver(ctx.context, ctx.bin, u, old(ctx.cursor), passes, handles, code)
      ensures Handled(old(registrar.handlers), message, room, status, handles, passes)
      ensures handles == [] ==> ctx.State() == old(ctx.State())
    {
      handles, passes := [], [];
      ghost var s0 := registrar.View();
      var e;
      ghost var t;
      status, e, t := registrar.AquireHandler(message);
      if status == NoError {
        status, passes := Unicast(ctx, message, u, e, code, room, s0, t);
        handles := [e];
      } else if status == ErrorNotAvailible {
        OnlyOneInactive(s0.entries, message);
      } else if status == ErrorMoreEntires {
        status, handles, passes := Multicast(ctx, message, u, code, room);
      }
    }

    /** The only handler of a message. */
    method Unicast(ctx: DData, message: nat, u: Type, e: nat, code: Code, ghost room: nat, ghost s0: State,
                   ghost t: nat)
        returns (status: Status, ghost passes: seq<Pass>)
      requires Range(s0.entries, message) == {e} && s0.entries[e].phase == Active
      requires registrar.Valid() && Enabled(s0, Acquire(t, e)) && registrar.View() == Apply(s0, Acquire(t, e))
      requires Readable(ctx.context, ctx.bin, u, ctx.State())
      modifies registrar, ctx
      ensures registrar.Valid() && registrar.View() == s0
      ensures PassesOver(ctx.context, ctx.bin, u, old(ctx.cursor), passes, [e], code)
      ensures Handled(s0.entries, message, room, status, [e], passes)
    {
      ghost var acquired, released := registrar.View(), s0;
      ghost var pass;
      status, pass, released := Turn(ctx, u, e, 0, code, acquired, t);
      OneReleased(s0, e, t, acquired, released);
      passes := [pass];
      OneIsHandled(s0.entries, message, room, status, e, pass);
    }

    /** All handlers of a multicast message. */
    method Multicast(ctx: DData, message: nat, u: Type, code: Code, room: nat)
        returns (status: Status, ghost handles: seq<nat>, ghost passes: seq<Pass>)
      requires registrar.Valid() && Readable(ctx.context, ctx.bin, u, ctx.State())
      modifies registrar, ctx
      ensures registrar.Valid() && registrar.View() == old(registrar.View())
      ensures PassesOver(ctx.context, ctx.bin, u, old(ctx.cursor), passes, handles, code)
      ensures |Range(old(registrar.handlers), message)| > 1 ==>
                Handled(old(registrar.handlers), message, room, status, handles, passes)
      ensures handles == [] ==> ctx.State() == old(ctx.State())
    {
      ghost var s0, m := registrar.View(), registrar.callers;
      var acquired;
      status, acquired := registrar.AquireHandlers(message, room);
      handles, passes := acquired, [];
      if status == NoError {
        status, passes := HandleAll(ctx, acquired, u, code, s0, m);
      }
    }

    /** The turn of the i-th handler collected. */
    method NextTurn(ctx: DData, u: Type, acquired: seq<nat>, i: nat, code: Code, ghost s0: State,
                    ghost s: State, ghost m: nat)
        returns (status: Status, ghost pass: Pass, ghost s': State)
      requires i < |acquired| && registrar.Valid() && s == registrar.View() && Holding(s0, s, m, acquired, i)
      requires Readable(ctx.context, ctx.bin, u, ctx.State())
      modifies registrar, ctx
      ensures registrar.Valid() && s' == registrar.View() && Holding(s0, s', m, acquired, i + 1)
      ensures PassOver(ctx.context, ctx.bin, u, old(ctx.cursor), pass, code(acquired[i])) && status == pass.answer
      ensures ctx.cursor == old(ctx.cursor) && Fresh(ctx.State()) && pass.call == i
    {
      HeldByItsCaller(s0, s, m, acquired, i);
      status, pass, s' := Turn(ctx, u, acquired[i], i, code, s, m + 1 + i);
      NextReleased(s0, s, m, acquired, i, s');
    }

    /** The loop over the handlers; the cursor returns to the body after each. */
    method HandleAll(ctx: DData, acquired: seq<nat>, u: Type, code: Code, ghost s0: State, ghost m: nat)
        returns (status: Status, ghost passes: seq<Pass>)
      requires registrar.Valid() && Holding(s0, registrar.View(), m, acquired, 0)
      requires Readable(ctx.context, ctx.bin, u, ctx.State())
      modifies registrar, ctx
      ensures registrar.Valid() && registrar.View() == s0
      ensures PassesOver(ctx.context, ctx.bin, u, old(ctx.cursor), passes, acquired, code)
      ensures status == FirstError(Answers(passes))
    {
      status, passes := NoError, [];
      ghost var s := registrar.View();
      for i := 0 to |acquired|
        invariant registrar.Valid() && s == registrar.View() && Holding(s0, s, m, acquired, i)
        invariant ctx.cursor == old(ctx.cursor) && Fresh(ctx.State())
        invariant |passes| == i && FirstOver(ctx.context, ctx.bin, u, old(ctx.cursor), passes, acquired, code)
        invariant status == FirstError(Answers(passes))
      {
        var newStatus;
        ghost var pass, released;
        newStatus, pass, released := NextTurn(ctx, u, acquired, i, code, s0, s, m);
        if newStatus != NoError && status == NoError {
          status := newStatus;
        }
        s := released;
        AnswersGrow(passes, pass);
        PassesGrow(ctx.context, ctx.bin, u, old(ctx.cursor), passes, acquired, code, pass);
        passes := passes + [pass];
      }
      AllReleased(s0, s, m, acquired);
    }
  }

  /**
    * What becomes of a message, by the entries there are for it: none; none that is active; more active ones than
    * there is memory for, where a list is needed; or else exactly the active ones are called, each once, and the first
    * error among their answers is the one returned.
    */
  ghost predicate Handled(entries: map<nat, Entry>, message: nat, room: nat, status: Status, handles: seq<nat>,
                          passes: seq<Pass>) {
    var range, active := Range(entries, message), ActiveOnes(entries, message);
    if range == {} then handles == [] && status == ErrorNoSuchHandler
    else if active == {} then handles == [] && status == ErrorNotAvailible
    else if |range| > 1 && room < |active| then handles == [] && status == ErrorNoMemory
    else AllActive(entries, message, handles) && status == FirstError(Answers(passes))
  }

  lemma OneIsHandled(entries: map<nat, Entry>, message: nat, room: nat, status: Status, e: nat, pass: Pass)
    requires Range(entries, message) == {e} && entries[e].phase == Active && status == pass.answer
    ensures Handled(entries, message, room, status, [e], [pass])
  {
    AnswersGrow([], pass);
    assert [] + [pass] == [pass];
    OnlyOneActive(entries, message, e);
    assert e in ActiveOnes(entries, message);
  }

  /** The registrar after the release of entry `e` by caller `t`. */
  ghost predicate Released(s: State, s': State, e: nat, t: nat) {
    && e in s.entries && 0 < s.entries[e].inUse
    && s' == State(Counted(s.entries, e, -1), ReleasedWaits(s.waits, s.entries[e]), s.tokens - {t}, s.acquirers)
  }

  /** `handles` lists the active entries of the message, each once. */
  ghost predicate AllActive(entries: map<nat, Entry>, message: nat, handles: seq<nat>) {
    Unique(handles) && forall e :: e in handles <==> e in ActiveOnes(entries, message)
  }

  lemma OnlyOneActive(entries: map<nat, Entry>, message: nat, e: nat)
    requires Range(entries, message) == {e} && entries[e].phase == Active
    ensures AllActive(entries, message, [e])
  {
    assert forall f | f in ActiveOnes(entries, message) :: f in Range(entries, message);
  }

  lemma PassesGrow(c: Context, bin: Bin, u: Type, body: nat, passes: seq<Pass>, handles: seq<nat>, code: Code,
                   pass: Pass)
    requires |passes| < |handles| && FirstOver(c, bin, u, body, passes, handles, code)
    requires pass.call == |passes| && PassOver(c, bin, u, body, pass, code(handles[|passes|]))
    ensures FirstOver(c, bin, u, body, passes + [pass], handles, code)
  {
  }

  lemma AnswersGrow(passes: seq<Pass>, pass: Pass)
    ensures Answers(passes + [pass]) == Answers(passes) + [pass.answer]
    ensures FirstError(Answers(passes + [pass])) ==
            if FirstError(Answers(passes)) != NoError then FirstError(Answers(passes)) else pass.answer
  {
    assert (passes + [pass])[..|passes|] == passes;
    var answers := Answers(passes + [pass]);
    assert answers[..|passes|] == Answers(passes);
  }

  lemma OneReleased(s0: State, e: nat, t: nat, acquired: State, released: State)
    requires t !in s0.tokens && e in s0.entries && s0.entries[e].phase == Active
    requires acquired == s0.(tokens := s0.tokens[t := Held(e)], entries := Counted(s0.entries, e, 1))
    requires Released(acquired, released, e, t)
    ensures released == s0
  {
    assert released.tokens == s0.tokens;
    assert released.entries == s0.entries;
  }

  lemma HeldByItsCaller(s0: State, s: State, m: nat, handles: seq<nat>, i: nat)
    requires i < |handles| && Holding(s0, s, m, handles, i)
    ensures m + 1 + i in s.tokens && s.tokens[m + 1 + i] == Held(handles[i])
  {
  }

  /** Each release gives one of the collected entries back, and wakes nobody. */
  lemma NextReleased(s0: State, s: State, m: nat, handles: seq<nat>, i: nat, released: State)
    requires i < |handles| && Holding(s0, s, m, handles, i) && Released(s, released, handles[i], m + 1 + i)
    ensures Holding(s0, released, m, handles, i + 1)
  {
    assert handles[i..] == [handles[i]] + handles[i + 1..] && handles[i] !in handles[i + 1..];
    assert released.entries == Bumped(s0.entries, handles[i + 1..]);
  }

  lemma AllReleased(s0: State, s: State, m: nat, handles: seq<nat>)
    requires Holding(s0, s, m, handles, |handles|)
    ensures s == s0
  {
    assert handles[|handles|..] == [];
    assert s.tokens == s0.tokens;
    assert s.entries == s0.entries;
  }

  // ---------------------------------------------------------------- what the handlers get

  /** The naming by which the objects of a pass stand for those written. */
  ghost predicate GraphGiven(r: Context, u: Type, heap: Heap, v: Value, pass: Pass, phi: Naming)
    requires pass.Heard? && pass.body.Ok?
  {
    Isomorphic(r, u, Root(pass.call), heap, v, pass.body.value.1.made, pass.body.value.0, phi, pass.start.next,
               pass.body.value.1.next)
  }

  /**
    * A graph isomorphic to the one sent, in objects of the handler's own, numbered in the order of their offsets,
    * exactly when the body does not mislead, save in map entries that have been turned away.
    */
  ghost predicate Given(r: Context, u: Type, heap: Heap, v: Value, pass: Pass, phi: Naming, misleads: bool)
    requires pass.Heard? && pass.body.Ok?
  {
    && (misleads <==> MarredTurned(pass.start, pass.body.value.1) || !GraphGiven(r, u, heap, v, pass, phi))
    && (forall psi: Naming :: GraphGiven(r, u, heap, v, pass, psi) ==> GraphGiven(r, u, heap, v, pass, phi))
  }

  /** The answer due from a handler: its refusal, the overflow of an input that does not fit, or what its code says. */
  function Due(h: Handler, c: Context, fits: bool): Status {
    if Refusal(h, c) != NoError then Refusal(h, c) else if fits then h.verdict else ErrorValueOverflow
  }

  /** The handler has heard of the graph sent, if that fits. */
  ghost predicate HeardOf(w: Context, r: Context, heap: Heap, t: Type, u: Type, v: Value, before: seq<Byte>, pass: Pass)
    requires Sent(w, r, heap, t, u, v, before)
  {
    && pass.Heard?
    && (pass.body.Ok? <==> AllFit(r, u, heap, v))
    && (pass.body.Ok? ==>
          Given(r, u, heap, v, pass, BodyNaming(w, heap, t, v, before, pass.start.next),
                Misleads(w, heap, t, v, before)))
  }

  /** A handler answers what is due from it, and hears of the graph sent unless it refuses. */
  ghost predicate Delivered(w: Context, r: Context, heap: Heap, t: Type, u: Type, v: Value, before: seq<Byte>,
                            pass: Pass, h: Handler)
    requires Sent(w, r, heap, t, u, v, before)
  {
    && pass.answer == Due(h, r, AllFit(r, u, heap, v))
    && if Refusal(h, r) != NoError then pass.Refused? else HeardOf(w, r, heap, t, u, v, before, pass)
  }

  /** One pass over a body that a peer has written. */
  lemma PassDelivers(w: Context, r: Context, heap: Heap, t: Type, u: Type, v: Value, before: seq<Byte>, rest: seq<Byte>,
                     pass: Pass, h: Handler)
    requires Sent(w, r, heap, t, u, v, before)
    requires PassOver(r, Body(w, heap, t, v, before).value.bin + rest, u, |before|, pass, h)
    ensures Delivered(w, r, heap, t, u, v, before, pass, h)
  {
    if Refusal(h, r) == NoError {
      HeardDelivers(w, r, heap, t, u, v, before, rest, pass, h.verdict);
    }
  }

  lemma HeardDelivers(w: Context, r: Context, heap: Heap, t: Type, u: Type, v: Value, before: seq<Byte>,
                      rest: seq<Byte>, pass: Pass, verdict: Status)
    requires Sent(w, r, heap, t, u, v, before)
    requires HeardOver(r, Body(w, heap, t, v, before).value.bin + rest, u, |before|, pass, verdict)
    ensures HeardOf(w, r, heap, t, u, v, before, pass)
    ensures pass.answer == if AllFit(r, u, heap, v) then verdict else ErrorValueOverflow
  {
    var phi, p := BodyNaming(w, heap, t, v, before, pass.start.next), Body(w, heap, t, v, before).value;
    GraphRoundTrip(w, r, heap, t, u, v, before, rest, pass.call, pass.start);
    RoundTripGives(r, u, heap, v, pass, phi, |p.bin|, Misleads(w, heap, t, v, before));
  }

  lemma RoundTripGives(r: Context, u: Type, heap: Heap, v: Value, pass: Pass, phi: Naming, end: nat, misleads: bool)
    requires pass.Heard?
    requires RoundTrips(r, u, Root(pass.call), heap, v, pass.body, pass.start, phi, end, misleads)
    ensures pass.body.Ok? <==> AllFit(r, u, heap, v)
    ensures pass.body.Err? ==> pass.body.error == ErrorValueOverflow
    ensures pass.body.Ok? ==> Given(r, u, heap, v, pass, phi, misleads)
  {
  }

  ghost predicate AllDelivered(w: Context, r: Context, heap: Heap, t: Type, u: Type, v: Value, before: seq<Byte>,
                               passes: seq<Pass>, handles: seq<nat>, code: Code)
    requires Sent(w, r, heap, t, u, v, before) && |passes| == |handles|
  {
    forall i | 0 <= i < |passes| :: Delivered(w, r, heap, t, u, v, before, passes[i], code(handles[i]))
  }

  /**
    * Whatever earlier passes have left in the pointers map, every handler of a multicast message that accepts it is
    * given a graph isomorphic to the one sent, if the body does not mislead; each answers what is due from it, and
    * all is well exactly when nothing else is due.
    */
  lemma MulticastDelivers(w: Context, r: Context, heap: Heap, t: Type, u: Type, v: Value, before: seq<Byte>,
                          rest: seq<Byte>, passes: seq<Pass>, handles: seq<nat>, code: Code)
    requires Sent(w, r, heap, t, u, v, before)
    requires PassesOver(r, Body(w, heap, t, v, before).value.bin + rest, u, |before|, passes, handles, code)
    ensures AllDelivered(w, r, heap, t, u, v, before, passes, handles, code)
    ensures FirstError(Answers(passes)) == NoError <==>
            forall e | e in handles :: Due(code(e), r, AllFit(r, u, heap, v)) == NoError
  {
    forall i | 0 <= i < |passes|
      ensures Delivered(w, r, heap, t, u, v, before, passes[i], code(handles[i]))
    {
      PassDelivers(w, r, heap, t, u, v, before, rest, passes[i], code(handles[i]));
    }
    DeliveredIsWellIff(w, r, heap, t, u, v, before, passes, handles, code);
  }

  lemma DeliveredIsWellIff(w: Context, r: Context, heap: Heap, t: Type, u: Type, v: Value, before: seq<Byte>,
                           passes: seq<Pass>, handles: seq<nat>, code: Code)
    requires Sent(w, r, heap, t, u, v, before) && |passes| == |handles|
    requires AllDelivered(w, r, heap, t, u, v, before, passes, handles, code)
    ensures FirstError(Answers(passes)) == NoError <==>
            forall e | e in handles :: Due(code(e), r, AllFit(r, u, heap, v)) == NoError
  {
    AllWellIff(passes, handles, code, r, AllFit(r, u, heap, v));
  }

  lemma AllWellIff(passes: seq<Pass>, handles: seq<nat>, code: Code, c: Context, fits: bool)
    requires |passes| == |handles| && forall i | 0 <= i < |passes| :: passes[i].answer == Due(code(handles[i]), c, fits)
    ensures FirstError(Answers(passes)) == NoError <==> forall e | e in handles :: Due(code(e), c, fits) == NoError
  {
    FirstErrorIsFirst(Answers(passes));
    forall i | 0 <= i < |passes| ensures Answers(passes)[i] == Due(code(handles[i]), c, fits) {
      AnswerAt(passes, i);
    }
    if AllWell(Answers(passes)) {
      forall e | e in handles ensures Due(code(e), c, fits) == NoError {
        var i :| 0 <= i < |handles| && handles[i] == e;
        assert Answers(passes)[i] == NoError;
      }
    }
  }

  lemma {:induction false} AnswerAt(passes: seq<Pass>, i: nat)
    requires i < |passes|
    ensures Answers(passes)[i] == passes[i].answer
  {
    var n := |passes| - 1;
    if i < n {
      AnswerAt(passes[..n], i);
    }
  }
}
