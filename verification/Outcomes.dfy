/** What a read must deliver for a write, and how the outcomes of parts make the outcome of the whole. */
module Outcomes {
  import opened Status
  import opened Types
  import opened Writer
  import opened Reader
  import opened Steps
  import opened Graph

  /** Reading makes objects and leaves those made before alone. */
  ghost predicate Kept(s: In, t: In) {
    && s.next <= t.next
    && (forall id | id in s.made :: id in t.made && t.made[id] == s.made[id])
    && (forall id | id in t.made && id < s.next :: id in s.made)
    && s.turned <= t.turned
  }

  /** One of the objects made from number `low` on, and before number `high`, is marred. */
  ghost predicate MarredMade(made: Heap, low: nat, high: nat) {
    exists id :: low <= id < high && id in made && Marred(made[id].value)
  }

  /** One of the map entries turned away between `s` and `t` is marred. */
  ghost predicate MarredTurned(s: In, t: In) {
    exists i :: |s.turned| <= i < |t.turned| && Marred(t.turned[i])
  }

  ghost predicate Spoilt(s: In, t: In) {
    MarredMade(t.made, s.next, t.next) || MarredTurned(s, t)
  }

  /**
    * Reading succeeds exactly when everything fits, the only error is the overflow, and what was read is
    * `v` up to the naming `psi`, with both sides in step again. It is marred, or something made or turned away on
    * the way is, exactly when the writer has noted a misleading pointer; if `kept`, nothing marred is turned away.
    */
  ghost predicate Outcome(got: Result<(Value, In)>, fit: bool, kept: bool, r: Context, heap: Heap, v: Value, o: Out,
                          p: Out, s: In, phi: Naming, psi: Naming, base: nat) {
    && (got.Ok? <==> fit)
    && (got.Err? ==> got.error == ErrorValueOverflow)
    && (got.Ok? ==> Delivers(kept, r, heap, v, got.value.0, o, p, s, got.value.1, phi, psi, base))
  }

  ghost predicate Delivers(kept: bool, r: Context, heap: Heap, v: Value, x: Value, o: Out, p: Out, s: In, t: In,
                           phi: Naming, psi: Naming, base: nat) {
    && Sync(r, heap, p, t, psi, base) && Grows(phi, psi) && Kept(s, t)
    && Alike(v, x, psi)
    && (p.misled <==> o.misled || Marred(x) || Spoilt(s, t))
    && (kept ==> !MarredTurned(s, t))
  }

  ghost predicate OutcomeSeq(got: Result<(seq<Value>, In)>, fit: bool, kept: bool, r: Context, heap: Heap,
                             vs: seq<Value>, o: Out, p: Out, s: In, phi: Naming, psi: Naming, base: nat) {
    && (got.Ok? <==> fit)
    && (got.Err? ==> got.error == ErrorValueOverflow)
    && (got.Ok? ==> DeliversSeq(kept, r, heap, vs, got.value.0, o, p, s, got.value.1, phi, psi, base))
  }

  ghost predicate DeliversSeq(kept: bool, r: Context, heap: Heap, vs: seq<Value>, xs: seq<Value>, o: Out, p: Out,
                              s: In, t: In, phi: Naming, psi: Naming, base: nat) {
    && Sync(r, heap, p, t, psi, base) && Grows(phi, psi) && Kept(s, t)
    && Alikes(vs, xs, psi)
    && (p.misled <==> o.misled || MarredItems(xs) || Spoilt(s, t))
    && (kept ==> !MarredTurned(s, t))
  }

  // ---------------------------------------------------------------- leaves

  /** A write that only appends bytes, read back as one unit. */
  lemma LeafOutcome(got: Result<(Value, In)>, fit: bool, r: Context, heap: Heap, v: Value, o: Out, p: Out, s: In,
                    phi: Naming, base: nat)
    requires Sync(r, heap, o, s, phi, base) && p == o.(bin := p.bin) && |o.bin| <= |p.bin|
    requires Alike(v, v, phi) && !Marred(v)
    requires got == if fit then Ok((v, s.(cursor := |p.bin|))) else Err(ErrorValueOverflow)
    ensures Outcome(got, fit && NewFit(r, heap, o, p), true, r, heap, v, o, p, s, phi, phi, base)
  {
    SyncMoves(r, heap, o, s, phi, base, p);
  }

  lemma LeafOutcomeSeq(got: Result<(seq<Value>, In)>, fit: bool, r: Context, heap: Heap, vs: seq<Value>, o: Out, p: Out,
                       s: In, phi: Naming, base: nat)
    requires Sync(r, heap, o, s, phi, base) && p == o.(bin := p.bin) && |o.bin| <= |p.bin|
    requires Alikes(vs, vs, phi) && !MarredItems(vs)
    requires got == if fit then Ok((vs, s.(cursor := |p.bin|))) else Err(ErrorValueOverflow)
    ensures OutcomeSeq(got, fit && NewFit(r, heap, o, p), true, r, heap, vs, o, p, s, phi, phi, base)
  {
    SyncMoves(r, heap, o, s, phi, base, p);
  }

  /** A reference back, whether it finds the object or the array element that has taken its offset. */
  lemma BackOutcome(got: Result<(Value, In)>, r: Context, heap: Heap, v: Value, o: Out, p: Out, s: In, phi: Naming,
                    base: nat)
    requires Sync(r, heap, o, s, phi, base) && v.Link? && v.ref.Node? && v.ref in o.seen && |o.bin| <= |p.bin|
    requires p == o.(bin := p.bin, misled := o.misled || v.ref in o.lost)
    requires got == Ok((Link(s.places[o.seen[v.ref]]), s.(cursor := |p.bin|)))
    ensures Outcome(got, NewFit(r, heap, o, p), true, r, heap, v, o, p, s, phi, phi, base)
  {
    assert Placed(r, heap, o, s, phi, base, v.ref.id);
    SyncMoves(r, heap, o, s, phi, base, p);
  }

  // ---------------------------------------------------------------- sequences

  lemma NothingOutcome(got: Result<(seq<Value>, In)>, f: Type, r: Context, heap: Heap, vs: seq<Value>, ws: seq<Value>,
                       o: Out, s: In, phi: Naming, base: nat)
    requires Sync(r, heap, o, s, phi, base) && vs == [] && ws == [] && got == Ok((vs, s))
    ensures OutcomeSeq(got, FitElems(r, f, vs) && NewFit(r, heap, o, o), true, r, heap, ws, o, o, s, phi, phi, base)
  {
  }

  lemma MarredMadeSplits(made: Heap, last: Heap, low: nat, mid: nat, high: nat)
    requires low <= mid <= high
    requires forall id | id in made :: id in last && last[id] == made[id]
    requires forall id | id in last && id < mid :: id in made
    ensures MarredMade(last, low, high) <==> MarredMade(made, low, mid) || MarredMade(last, mid, high)
  {
    if MarredMade(made, low, mid) {
      var id :| low <= id < mid && id in made && Marred(made[id].value);
      assert low <= id < high && id in last && Marred(last[id].value);
    }
    if MarredMade(last, mid, high) {
      var id :| mid <= id < high && id in last && Marred(last[id].value);
      assert low <= id < high && id in last && Marred(last[id].value);
    }
    if MarredMade(last, low, high) {
      var id :| low <= id < high && id in last && Marred(last[id].value);
      assert id < mid ==> id in made && Marred(made[id].value);
    }
  }

  lemma MarredTurnedSplits(s: In, m: In, t: In)
    requires s.turned <= m.turned <= t.turned
    ensures MarredTurned(s, t) <==> MarredTurned(s, m) || MarredTurned(m, t)
  {
    if MarredTurned(s, m) {
      var i :| |s.turned| <= i < |m.turned| && Marred(m.turned[i]);
      assert |s.turned| <= i < |t.turned| && Marred(t.turned[i]);
    }
    if MarredTurned(m, t) {
      var i :| |m.turned| <= i < |t.turned| && Marred(t.turned[i]);
      assert |s.turned| <= i < |t.turned| && Marred(t.turned[i]);
    }
    if MarredTurned(s, t) {
      var i :| |s.turned| <= i < |t.turned| && Marred(t.turned[i]);
      assert i < |m.turned| ==> m.turned[i] == t.turned[i];
    }
  }

  /** What becomes of the entries of the objects that were written between `o` and `p`: no pointer is turned away. */
  ghost predicate NewStay(r: Context, heap: Heap, o: Out, p: Out, phi: Naming) {
    forall a | a in heap && Node(a) in p.seen && Node(a) !in o.seen && a in phi && heap[a].name in r.types ::
      EntriesStay(r, r.types[heap[a].name], heap[a].value, Object(phi[a]))
  }

  lemma NewStaySplits(r: Context, heap: Heap, o: Out, p: Out, q: Out, psi: Naming, chi: Naming)
    requires Extends(o, p) && Extends(p, q) && Grows(psi, chi) && NewStay(r, heap, o, q, chi)
    ensures NewStay(r, heap, o, p, psi) && NewStay(r, heap, p, q, chi)
  {
  }

  /** A first value and the others after it. */
  lemma DeliversBoth(kept: bool, stay: bool, r: Context, heap: Heap, vs: seq<Value>, x: Value, xs: seq<Value>, o: Out,
                     p: Out, q: Out, s: In, m: In, t: In, phi: Naming, psi: Naming, chi: Naming, base: nat)
    requires vs != []
    requires Delivers(kept, r, heap, vs[0], x, o, p, s, m, phi, psi, base)
    requires DeliversSeq(stay, r, heap, vs[1..], xs, p, q, m, t, psi, chi, base)
    ensures DeliversSeq(kept && stay, r, heap, vs, [x] + xs, o, q, s, t, phi, chi, base)
  {
    AlikeGrows(vs[0], x, psi, chi);
    var all := [x] + xs;
    assert all[1..] == xs;
    MarredMadeSplits(m.made, t.made, s.next, m.next, t.next);
    MarredTurnedSplits(s, m, t);
  }

  lemma JoinOutcomes(head: Result<(Value, In)>, tail: Result<(seq<Value>, In)>, fit: bool, rest: bool, kept: bool,
                     stay: bool, r: Context, heap: Heap, vs: seq<Value>, o: Out, p: Out, q: Out, s: In, phi: Naming,
                     psi: Naming, chi: Naming, base: nat)
    requires vs != [] && Extends(o, p) && Extends(p, q)
    requires Outcome(head, fit && NewFit(r, heap, o, p), kept && NewStay(r, heap, o, p, psi), r, heap, vs[0], o, p, s,
                     phi, psi, base)
    requires head.Ok? ==>
               OutcomeSeq(tail, rest && NewFit(r, heap, p, q), stay && NewStay(r, heap, p, q, chi), r, heap, vs[1..],
                          p, q, head.value.1, psi, chi, base)
    ensures OutcomeSeq(Prepend(head, tail), fit && rest && NewFit(r, heap, o, q),
                       kept && stay && NewStay(r, heap, o, q, chi), r, heap, vs, o, q, s, phi, chi, base)
  {
    NewFitSplits(r, heap, o, p, q);
    if head.Ok? && tail.Ok? {
      DeliversBoth(kept && NewStay(r, heap, o, p, psi), stay && NewStay(r, heap, p, q, chi), r, heap, vs,
                   head.value.0, tail.value.0, o, p, q, s, head.value.1, tail.value.1, phi, psi, chi, base);
      if NewStay(r, heap, o, q, chi) {
        NewStaySplits(r, heap, o, p, q, psi, chi);
      }
    }
  }

  lemma JoinFields(head: Result<(Value, In)>, tail: Result<(seq<Value>, In)>, got: Result<(seq<Value>, In)>,
                   us: seq<Type>, r: Context, heap: Heap, vs: seq<Value>, ws: seq<Value>, whole: Place, k: nat, o: Out,
                   p: Out, q: Out, s: In, phi: Naming, psi: Naming, chi: Naming, base: nat)
    requires us != [] && vs != [] && ws != [] && Extends(o, p) && Extends(p, q) && got == Prepend(head, tail)
    requires Outcome(head, Fits(r, us[0], vs[0]) && NewFit(r, heap, o, p),
                     EntriesStay(r, us[0], vs[0], Part(whole, k)) && NewStay(r, heap, o, p, psi), r, heap, ws[0], o, p,
                     s, phi, psi, base)
    requires head.Ok? ==>
               OutcomeSeq(tail, FitFields(r, us[1..], vs[1..]) && NewFit(r, heap, p, q),
                          FieldEntriesStay(r, us[1..], vs[1..], whole, k + 1) && NewStay(r, heap, p, q, chi), r, heap,
                          ws[1..], p, q, head.value.1, psi, chi, base)
    ensures OutcomeSeq(got, FitFields(r, us, vs) && NewFit(r, heap, o, q),
                       FieldEntriesStay(r, us, vs, whole, k) && NewStay(r, heap, o, q, chi), r, heap, ws, o, q, s, phi,
                       chi, base)
  {
    JoinOutcomes(head, tail, Fits(r, us[0], vs[0]), FitFields(r, us[1..], vs[1..]),
                 EntriesStay(r, us[0], vs[0], Part(whole, k)), FieldEntriesStay(r, us[1..], vs[1..], whole, k + 1),
                 r, heap, ws, o, p, q, s, phi, psi, chi, base);
  }

  /** A read that has begun where as many objects are recorded and made, and as many entries turned away. */
  ghost predicate SameStart(o: Out, noted: Out, s: In, t: In) {
    && noted.misled == o.misled && (forall a :: Node(a) in noted.seen <==> Node(a) in o.seen)
    && t.next == s.next && t.made == s.made && t.turned == s.turned
  }

  lemma NewAlike(r: Context, heap: Heap, o: Out, noted: Out, q: Out, chi: Naming)
    requires forall a :: Node(a) in noted.seen <==> Node(a) in o.seen
    ensures NewFit(r, heap, noted, q) <==> NewFit(r, heap, o, q)
    ensures NewStay(r, heap, noted, q, chi) <==> NewStay(r, heap, o, q, chi)
  {
  }

  lemma OutcomeFromStart(got: Result<(seq<Value>, In)>, fit: bool, kept: bool, r: Context, heap: Heap, ws: seq<Value>,
                         o: Out, noted: Out, q: Out, s: In, t: In, phi: Naming, chi: Naming, base: nat)
    requires SameStart(o, noted, s, t)
    requires OutcomeSeq(got, fit && NewFit(r, heap, noted, q), kept && NewStay(r, heap, noted, q, chi), r, heap, ws,
                        noted, q, t, phi, chi, base)
    ensures OutcomeSeq(got, fit && NewFit(r, heap, o, q), kept && NewStay(r, heap, o, q, chi), r, heap, ws, o, q, s,
                       phi, chi, base)
  {
    NewAlike(r, heap, o, noted, q, chi);
  }

  /** Registering an array element makes no object and misleads nobody yet. */
  lemma JoinElems(head: Result<(Value, In)>, tail: Result<(seq<Value>, In)>, got: Result<(seq<Value>, In)>, f: Type,
                  r: Context, heap: Heap, vs: seq<Value>, ws: seq<Value>, row: Row, k: nat, o: Out, noted: Out, p: Out,
                  q: Out, s: In, t: In, phi: Naming, psi: Naming, chi: Naming, base: nat)
    requires vs != [] && ws != [] && Extends(noted, p) && Extends(p, q) && got == Prepend(head, tail)
    requires SameStart(o, noted, s, t)
    requires Outcome(head, Fits(r, f, vs[0]) && NewFit(r, heap, noted, p),
                     EntriesStay(r, f, vs[0], Spot(row, k)) && NewStay(r, heap, noted, p, psi), r, heap, ws[0], noted,
                     p, t, phi, psi, base)
    requires head.Ok? ==>
               OutcomeSeq(tail, FitElems(r, f, vs[1..]) && NewFit(r, heap, p, q),
                          ElemEntriesStay(r, f, vs[1..], row, k + 1) && NewStay(r, heap, p, q, chi), r, heap, ws[1..],
                          p, q, head.value.1, psi, chi, base)
    ensures OutcomeSeq(got, FitElems(r, f, vs) && NewFit(r, heap, o, q),
                       ElemEntriesStay(r, f, vs, row, k) && NewStay(r, heap, o, q, chi), r, heap, ws, o, q, s, phi,
                       chi, base)
  {
    JoinOutcomes(head, tail, Fits(r, f, vs[0]), FitElems(r, f, vs[1..]), EntriesStay(r, f, vs[0], Spot(row, k)),
                 ElemEntriesStay(r, f, vs[1..], row, k + 1), r, heap, ws, noted, p, q, t, phi, psi, chi, base);
    OutcomeFromStart(got, FitElems(r, f, vs), ElemEntriesStay(r, f, vs, row, k), r, heap, ws, o, noted, q, s, t, phi,
                     chi, base);
  }

  /** From a sequence of items to the value that holds them, with bytes before them that make no difference. */
  lemma ItemsOutcome(got: Result<(seq<Value>, In)>, fit: bool, kept: bool, r: Context, heap: Heap, ws: seq<Value>,
                     o: Out, sized: Out, p: Out, s: In, t: In, phi: Naming, psi: Naming, base: nat)
    requires OutcomeSeq(got, fit && NewFit(r, heap, sized, p), kept && NewStay(r, heap, sized, p, psi), r, heap, ws,
                        sized, p, t, phi, psi, base)
    requires SameStart(o, sized, s, t)
    ensures Outcome(Wrapped(got), fit && NewFit(r, heap, o, p), kept && NewStay(r, heap, o, p, psi), r, heap, Items(ws),
                    o, p, s, phi, psi, base)
  {
    OutcomeFromStart(got, fit, kept, r, heap, ws, o, sized, p, s, t, phi, psi, base);
  }

  // ---------------------------------------------------------------- maps

  /** Where all entries are inserted, and where none of them holds a pointer, nothing marred is turned away. */
  lemma TurnedUnmarred(ws: seq<Value>, xs: seq<Value>, phi: Naming)
    requires Keyed(ws) && Alikes(ws, xs, phi)
    requires DistinctKeys(ws) || (forall i | 0 <= i < |ws| :: Inside(ws[i], {}))
    ensures !MarredItems(TurnedAll([], xs))
  {
    AlikesPointwise(ws, xs, phi);
    InsertAllMarred([], xs);
    if DistinctKeys(ws) {
      forall i | 0 <= i < |ws| ensures IsEntry(xs[i]) && xs[i].items[0] == ws[i].items[0] {
        KeyIsEqual(ws[i], xs[i], phi);
      }
      assert [] + xs == xs;
      InsertAllDistinct([], xs);
    } else {
      MarredPointwise(xs);
      forall i | 0 <= i < |ws| ensures !Marred(xs[i]) {
        AlikeIsEqual(ws[i], xs[i], phi);
      }
    }
  }

  lemma TurnedOnTop(m: In, t: In, away: seq<Value>)
    requires t == m.(turned := m.turned + away)
    ensures MarredTurned(m, t) <==> MarredItems(away)
  {
    MarredPointwise(away);
    if MarredTurned(m, t) {
      var i :| |m.turned| <= i < |t.turned| && Marred(t.turned[i]);
      assert Marred(away[i - |m.turned|]);
    }
    if MarredItems(away) {
      var i :| 0 <= i < |away| && Marred(away[i]);
      assert Marred(t.turned[|m.turned| + i]);
    }
  }

  /** The entries of a map have been read; they are inserted in turn, some of them being turned away. */
  lemma MapOutcome(elems: Result<(seq<Value>, In)>, fit: bool, kept: bool, distinct: bool, r: Context, heap: Heap,
                   ws: seq<Value>, o: Out, sized: Out, p: Out, s: In, t: In, phi: Naming, psi: Naming,
                   base: nat)
    requires OutcomeSeq(elems, fit && NewFit(r, heap, sized, p), kept && NewStay(r, heap, sized, p, psi), r, heap, ws,
                        sized, p, t, phi, psi, base)
    requires SameStart(o, sized, s, t) && Keyed(ws)
    requires distinct ==> DistinctKeys(ws) || (forall i | 0 <= i < |ws| :: Inside(ws[i], {}))
    ensures Outcome(AllInserted(elems, [], []), fit && NewFit(r, heap, o, p),
                    distinct && kept && NewStay(r, heap, o, p, psi), r, heap, Items(InsertAll([], ws)), o, p, s, phi,
                    psi, base)
  {
    NewAlike(r, heap, o, sized, p, psi);
    if elems.Ok? {
      MapDelivers(kept && NewStay(r, heap, sized, p, psi), distinct, r, heap, ws, elems.value.0, o, sized, p, s, t,
                  elems.value.1, phi, psi, base);
    }
  }

  lemma MapDelivers(kept: bool, distinct: bool, r: Context, heap: Heap, ws: seq<Value>, xs: seq<Value>, o: Out,
                    sized: Out, p: Out, s: In, t: In, m: In, phi: Naming, psi: Naming, base: nat)
    requires DeliversSeq(kept, r, heap, ws, xs, sized, p, t, m, phi, psi, base)
    requires SameStart(o, sized, s, t) && Keyed(ws)
    requires distinct ==> DistinctKeys(ws) || (forall i | 0 <= i < |ws| :: Inside(ws[i], {}))
    ensures Delivers(distinct && kept, r, heap, Items(InsertAll([], ws)), Items(InsertAll([], xs)), o, p, s,
                     m.(turned := m.turned + ([] + TurnedAll([], xs))), phi, psi, base)
  {
    var away := TurnedAll([], xs);
    assert [] + away == away;
    var last := m.(turned := m.turned + away);
    InsertAllAlike([], [], ws, xs, psi);
    InsertAllMarred([], xs);
    TurnedOnTop(m, last, away);
    MarredTurnedSplits(s, m, last);
    SyncTurns(r, heap, p, m, psi, base, last);
    if distinct {
      TurnedUnmarred(ws, xs, psi);
    }
  }

  /** The book of entries turned away is nobody's business. */
  lemma SyncTurns(r: Context, heap: Heap, o: Out, s: In, phi: Naming, base: nat, t: In)
    requires Sync(r, heap, o, s, phi, base) && t == s.(turned := t.turned)
    ensures Sync(r, heap, o, t, phi, base)
  {
    forall a | a in phi ensures Placed(r, heap, o, t, phi, base, a) {
      assert Placed(r, heap, o, s, phi, base, a);
    }
  }

  // ---------------------------------------------------------------- strings

  lemma {:induction false} AlikesDropLast(vs: seq<Value>, ws: seq<Value>, phi: Naming)
    requires Alikes(vs, ws, phi) && vs != []
    ensures |ws| == |vs| && Alikes(vs[..|vs| - 1], ws[..|ws| - 1], phi)
  {
    AlikesPointwise(vs, ws, phi);
    AlikesPointwise(vs[..|vs| - 1], ws[..|ws| - 1], phi);
  }

  lemma {:induction false} FitElemsAppend(c: Context, e: Type, vs: seq<Value>, v: Value)
    ensures FitElems(c, e, vs + [v]) <==> FitElems(c, e, vs) && Fits(c, e, v)
  {
    if vs == [] {
      assert [v][1..] == [] && vs + [v] == [v];
    } else {
      FitElemsAppend(c, e, vs[1..], v);
      assert (vs + [v])[1..] == vs[1..] + [v];
    }
  }

  lemma MarredInit(ws: seq<Value>)
    requires ws != [] && !Marred(ws[|ws| - 1])
    ensures MarredItems(ws[..|ws| - 1]) <==> MarredItems(ws)
  {
    MarredPointwise(ws);
    MarredPointwise(ws[..|ws| - 1]);
    if MarredItems(ws) {
      var i :| 0 <= i < |ws| && Marred(ws[i]);
      assert i < |ws| - 1 && ws[..|ws| - 1][i] == ws[i];
    }
  }

  /** What was read of a string, without its terminator. */
  lemma TerminatorDropped(vs: seq<Value>, xs: seq<Value>, psi: Naming)
    requires Alikes(vs + [Num(0)], xs, psi) && |xs| == |vs| + 1
    ensures Alikes(vs, xs[..|vs|], psi) && (MarredItems(xs[..|vs|]) <==> MarredItems(xs))
  {
    AlikesDropLast(vs + [Num(0)], xs, psi);
    AlikesPointwise(vs + [Num(0)], xs, psi);
    assert (vs + [Num(0)])[..|vs|] == vs && (vs + [Num(0)])[|vs|] == Num(0);
    assert Alike(Num(0), xs[|vs|], psi);
    MarredInit(xs);
  }

  lemma StringDelivers(kept: bool, r: Context, heap: Heap, vs: seq<Value>, xs: seq<Value>, o: Out, sized: Out, p: Out,
                       s: In, t: In, m: In, phi: Naming, psi: Naming, base: nat)
    requires DeliversSeq(kept, r, heap, vs + [Num(0)], xs, sized, p, t, m, phi, psi, base)
    requires SameStart(o, sized, s, t) && |xs| == |vs| + 1
    ensures Delivers(kept, r, heap, Items(vs), Items(xs[..|vs|]), o, p, s, m, phi, psi, base)
  {
    TerminatorDropped(vs, xs, psi);
  }

  /** A string travels with its terminator, which the reader drops. */
  lemma StringOutcome(got: Result<(seq<Value>, In)>, whole: Result<(Value, In)>, u: Type, r: Context, heap: Heap,
                      vs: seq<Value>, o: Out, sized: Out, p: Out, s: In, t: In, phi: Naming, psi: Naming, base: nat)
    requires u.Prim? && vs + [Num(0)] != []
    requires OutcomeSeq(got, FitElems(r, u, vs + [Num(0)]) && NewFit(r, heap, sized, p),
                        true && NewStay(r, heap, sized, p, psi), r, heap, vs + [Num(0)], sized, p, t, phi, psi, base)
    requires SameStart(o, sized, s, t)
    requires got.Ok? ==> |got.value.0| == |vs| + 1
    requires whole == if got.Ok? then Ok((Items(got.value.0[..|vs|]), got.value.1)) else Err(got.error)
    ensures Outcome(whole, FitElems(r, u, vs) && NewFit(r, heap, o, p), NewStay(r, heap, o, p, psi), r, heap, Items(vs),
                    o, p, s, phi, psi, base)
  {
    NewAlike(r, heap, o, sized, p, psi);
    FitElemsAppend(r, u, vs, Num(0));
    if got.Ok? {
      StringDelivers(NewStay(r, heap, sized, p, psi), r, heap, vs, got.value.0, o, sized, p, s, t, got.value.1, phi,
                     psi, base);
    }
  }

  // ---------------------------------------------------------------- registrations

  /** What stands for the writer's `lead` on the reader's side. */
  ghost predicate LeadsAgree(lead: Ref, at: Place, phi: Naming) {
    if lead.Node? then lead.id in phi && Lead(at) == Node(phi[lead.id]) else !Lead(at).Node?
  }

  lemma PlacedRegisters(r: Context, heap: Heap, o: Out, s: In, phi: Naming, base: nat, register: bool, lead: Ref,
                        at: Place, a: nat)
    requires s.cursor == |o.bin| && AtLead(lead, o) && (register ==> LeadsAgree(lead, at, phi)) && DistinctOffsets(o)
    requires a in phi && Node(a) in o.seen && Placed(r, heap, o, s, phi, base, a)
    ensures Node(a) in Noted(o, register, lead).seen
    ensures Placed(r, heap, Noted(o, register, lead), NotedIn(s, register, at), phi, base, a)
  {
  }

  /** Registering an array element keeps both sides in step; whoever was recorded at this very offset is lost. */
  lemma SyncRegisters(r: Context, heap: Heap, o: Out, s: In, phi: Naming, base: nat, register: bool, lead: Ref,
                      at: Place)
    requires Sync(r, heap, o, s, phi, base) && AtLead(lead, o)
    requires register ==> LeadsAgree(lead, at, phi)
    ensures Sync(r, heap, Noted(o, register, lead), NotedIn(s, register, at), phi, base)
  {
    forall a | a in phi ensures Placed(r, heap, Noted(o, register, lead), NotedIn(s, register, at), phi, base, a) {
      PlacedRegisters(r, heap, o, s, phi, base, register, lead, at, a);
    }
  }

  lemma HitEnters(phi: Naming, psi: Naming, base: nat, next: nat, a: nat)
    requires a !in phi && psi == phi[a := next] && forall id | base <= id < next :: Hit(phi, id)
    ensures forall id | base <= id < next + 1 :: Hit(psi, id)
  {
    forall id | base <= id < next + 1 ensures Hit(psi, id) {
      if id == next {
        assert psi[a] == id;
      } else {
        assert Hit(phi, id);
        var b :| b in phi && phi[b] == id;
        assert psi[b] == id;
      }
    }
  }

  /** A new object: the writer records its address, the reader its place, at the same offset. */
  lemma SyncEnters(r: Context, heap: Heap, o: Out, s: In, phi: Naming, base: nat, a: nat)
    requires Sync(r, heap, o, s, phi, base) && Behind(o) && 1 < |o.bin|
    requires a in heap && heap[a].name in r.types && Node(a) !in o.seen
    ensures Sync(r, heap, o.(seen := o.seen[Node(a) := |o.bin|]),
                 s.(next := s.next + 1, places := s.places[s.cursor := Node(s.next)]), phi[a := s.next], base)
    ensures Grows(phi, phi[a := s.next])
  {
    var p := o.(seen := o.seen[Node(a) := |o.bin|]);
    var t := s.(next := s.next + 1, places := s.places[s.cursor := Node(s.next)]);
    var psi := phi[a := s.next];
    forall b | b in psi ensures Placed(r, heap, p, t, psi, base, b) {
      if b != a {
        PlacedGrows(r, heap, o, s, phi, base, p, t, psi, b);
      }
    }
    OrderEnters(r, heap, o, s, phi, base, a, p, psi);
    HitEnters(phi, psi, base, s.next, a);
  }

  lemma OrderEnters(r: Context, heap: Heap, o: Out, s: In, phi: Naming, base: nat, a: nat, p: Out, psi: Naming)
    requires Sync(r, heap, o, s, phi, base) && Behind(o) && Node(a) !in o.seen
    requires p == o.(seen := o.seen[Node(a) := |o.bin|]) && psi == phi[a := s.next]
    ensures Ordered(p, psi)
  {
    forall b, c | b in psi && c in psi && p.seen[Node(b)] < p.seen[Node(c)] ensures psi[b] < psi[c] {
      if b != a {
        assert Placed(r, heap, o, s, phi, base, b);
      }
    }
  }

  lemma PlacedGrows(r: Context, heap: Heap, o: Out, s: In, phi: Naming, base: nat, p: Out, t: In, psi: Naming, b: nat)
    requires b in phi && Node(b) in o.seen && Placed(r, heap, o, s, phi, base, b) && Grows(phi, psi)
    requires p.bin == o.bin && p.lost == o.lost && Node(b) in p.seen && p.seen[Node(b)] == o.seen[Node(b)]
    requires t.made == s.made && s.next <= t.next
    requires o.seen[Node(b)] in t.places && t.places[o.seen[Node(b)]] == s.places[o.seen[Node(b)]]
    ensures Placed(r, heap, p, t, psi, base, b)
  {
    if phi[b] in s.made {
      AlikeGrows(Settled(r, r.types[heap[b].name], heap[b].value, Object(phi[b])), s.made[phi[b]].value, phi, psi);
    }
  }

  /** Every recorded offset lies strictly before the end of the output. */
  ghost predicate Behind(o: Out) {
    forall a | Node(a) in o.seen :: o.seen[Node(a)] < |o.bin|
  }

  lemma SyncBehind(r: Context, heap: Heap, o: Out, s: In, phi: Naming, base: nat, p: Out)
    requires Sync(r, heap, o, s, phi, base) && p.seen == o.seen && |o.bin| < |p.bin|
    ensures Behind(p)
  {
    forall a | Node(a) in p.seen ensures p.seen[Node(a)] < |p.bin| {
      assert Placed(r, heap, o, s, phi, base, a);
    }
  }

  /** The object is complete once its value has been read. */
  lemma SyncCompletes(r: Context, heap: Heap, o: Out, s: In, phi: Naming, base: nat, a: nat, x: Value)
    requires Sync(r, heap, o, s, phi, base) && a in phi && a in heap && heap[a].name in r.types
    requires Alike(Settled(r, r.types[heap[a].name], heap[a].value, Object(phi[a])), x, phi)
    ensures Sync(r, heap, o, s.(made := s.made[phi[a] := Cell(heap[a].name, x)]), phi, base)
  {
    var t := s.(made := s.made[phi[a] := Cell(heap[a].name, x)]);
    assert Placed(r, heap, o, s, phi, base, a);
    forall b | b in phi ensures Placed(r, heap, o, t, phi, base, b) {
      assert Placed(r, heap, o, s, phi, base, b);
    }
  }

  lemma NewFitEnters(r: Context, heap: Heap, o: Out, entered: Out, p: Out, a: nat, name: nat)
    requires a in heap && heap[a].name == name && name in r.types && Node(a) !in o.seen
    requires forall b :: Node(b) in entered.seen <==> Node(b) in o.seen || a == b
    requires Extends(entered, p)
    ensures NewFit(r, heap, o, p) <==> Fits(r, r.types[name], heap[a].value) && NewFit(r, heap, entered, p)
  {
  }

  /** The marks on the objects made for a pointer: on the new object, or on those made while it was read. */
  lemma MarredNew(inner: Heap, made: Heap, id: nat, high: nat, name: nat, x: Value)
    requires id < high && made == inner[id := Cell(name, x)]
    ensures MarredMade(made, id, high) <==> Marred(x) || MarredMade(inner, id + 1, high)
  {
    if Marred(x) {
      assert id <= id < high && id in made && Marred(made[id].value);
    }
    if MarredMade(inner, id + 1, high) {
      var k :| id + 1 <= k < high && k in inner && Marred(inner[k].value);
      assert id <= k < high && k in made && Marred(made[k].value);
    }
    if MarredMade(made, id, high) {
      var k :| id <= k < high && k in made && Marred(made[k].value);
      assert k != id ==> k in inner && Marred(inner[k].value);
    }
  }

  lemma NewStayEnters(r: Context, heap: Heap, o: Out, entered: Out, p: Out, a: nat, name: nat, id: nat, psi: Naming)
    requires a in heap && heap[a].name == name && name in r.types && Node(a) !in o.seen
    requires forall b :: Node(b) in entered.seen <==> Node(b) in o.seen || a == b
    requires Extends(entered, p) && (a in psi ==> psi[a] == id)
    ensures a in psi && NewStay(r, heap, o, p, psi) ==>
              EntriesStay(r, r.types[name], heap[a].value, Object(id)) && NewStay(r, heap, entered, p, psi)
  {
  }

  lemma PointeeDelivers(kept: bool, r: Context, heap: Heap, o: Out, entered: Out, p: Out, s: In, t: In, m: In, x: Value,
                        v: Value, name: nat, phi: Naming, chi: Naming, psi: Naming, base: nat)
    requires v.Link? && v.ref.Node? && v.ref.id in heap && heap[v.ref.id].name == name && name in r.types
    requires entered.misled == o.misled
    requires t.next == s.next + 1 && t.made == s.made && t.turned == s.turned && Fresh(s)
    requires v.ref.id in chi && chi[v.ref.id] == s.next && Grows(phi, chi)
    requires Delivers(kept, r, heap, Settled(r, r.types[name], heap[v.ref.id].value, Object(s.next)), x, entered, p, t,
                      m, chi, psi, base)
    ensures Delivers(kept, r, heap, v, Link(Node(s.next)), o, p, s, m.(made := m.made[s.next := Cell(name, x)]), phi,
                     psi, base)
  {
    var made := m.made[s.next := Cell(name, x)];
    SyncCompletes(r, heap, p, m, psi, base, v.ref.id, x);
    MarredNew(m.made, made, s.next, m.next, name, x);
  }

  /** A new pointee has been read: its object is complete, and the pointer leads to it. */
  lemma PointeeOutcome(inner: Result<(Value, In)>, got: Result<(Value, In)>, r: Context, heap: Heap, o: Out,
                       entered: Out, p: Out, s: In, t: In, v: Value, name: nat, phi: Naming, chi: Naming, psi: Naming,
                       base: nat)
    requires v.Link? && v.ref.Node? && v.ref.id in heap && heap[v.ref.id].name == name && name in r.types
    requires v.ref !in o.seen && Extends(entered, p) && entered.misled == o.misled
    requires forall b :: Node(b) in entered.seen <==> Node(b) in o.seen || v.ref.id == b
    requires t.next == s.next + 1 && t.made == s.made && t.turned == s.turned && Fresh(s)
    requires v.ref.id in chi && chi[v.ref.id] == s.next && Grows(phi, chi)
    requires Outcome(inner, Fits(r, r.types[name], heap[v.ref.id].value) && NewFit(r, heap, entered, p),
                     EntriesStay(r, r.types[name], heap[v.ref.id].value, Object(s.next))
                     && NewStay(r, heap, entered, p, psi), r, heap,
                     Settled(r, r.types[name], heap[v.ref.id].value, Object(s.next)), entered, p, t, chi, psi, base)
    requires got == if inner.Ok?
                    then Ok((Link(Node(s.next)),
                             inner.value.1.(made := inner.value.1.made[s.next := Cell(name, inner.value.0)])))
                    else Err(inner.error)
    ensures Outcome(got, NewFit(r, heap, o, p), NewStay(r, heap, o, p, psi), r, heap, v, o, p, s, phi, psi, base)
  {
    NewFitEnters(r, heap, o, entered, p, v.ref.id, name);
    if inner.Ok? {
      var stays := EntriesStay(r, r.types[name], heap[v.ref.id].value, Object(s.next));
      var kept := stays && NewStay(r, heap, entered, p, psi);
      NewStayEnters(r, heap, o, entered, p, v.ref.id, name, s.next, psi);
      PointeeDelivers(kept, r, heap, o, entered, p, s, t, inner.value.1, inner.value.0, v, name, phi, chi, psi, base);
    }
  }
}
