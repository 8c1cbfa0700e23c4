/** A struct sent in an older version: downgraded, written as bytes, read back on a peer, and upgraded again. */
module OldVersions {
  import opened Status
  import opened Bytes
  import opened Types
  import opened Writer
  import opened Reader
  import opened Graph
  import opened Exchanges
  import opened Versions
  import opened Isomorphism

  /** The layouts of the versions of a struct, newest first as in its chain. */
  ghost predicate Layouts(c: Chain, ts: seq<Type>) {
    Descending(c.versions) && |ts| == |c.versions|
  }

  /** What goes over the wire for a party that knows versions up to that of the message. */
  ghost function SendVersion(w: Context, heap: Heap, c: Chain, ts: seq<Type>, v: Value, before: seq<Byte>): Result<Out>
    requires Layouts(c, ts)
  {
    var (k, x) :- WriteVersion(c, w.interfaceVersion, v);
    if k < |ts| && CanSend(w, heap, ts[k], x) then Body(w, heap, ts[k], x, before) else Err(ErrorInternal)
  }

  /** What the other side makes of it: the version expected is read and brought up to the latest. */
  ghost function ReceiveVersion(r: Context, bin: Bin, c: Chain, us: seq<Type>, at: Place, s: In): Result<Value>
    requires Layouts(c, us)
  {
    var k :- ExpectedVersion(c.versions, r.interfaceVersion);
    if k < |us| && Readable(r, bin, us[k], s) then
      var (x, _) :- Read(r, bin, us[k], at, s);
      ReadVersion(c, k, x)
    else Err(ErrorInternal)
  }

  ghost predicate Lossless(c: Chain) {
    forall i: nat, x | c.down(i, x).Ok? :: c.up(i, c.down(i, x).value) == Ok(x)
  }

  /** Version number `k` is the newest that the message allows, and `x` is the value in it. */
  ghost predicate Downgraded(c: Chain, compat: nat, v: Value, k: nat, x: Value) {
    && k < |c.versions| && c.versions[k] <= compat && (forall j | 0 <= j < k :: compat < c.versions[j])
    && FoldDown(c, k, v) == Ok(x)
  }

  /** The one version that is sent is the one expected. */
  lemma SentIsExpected(c: Chain, compat: nat, v: Value) returns (k: nat)
    requires Descending(c.versions) && WriteVersion(c, compat, v).Ok?
    ensures Downgraded(c, compat, v, k, WriteVersion(c, compat, v).value.1)
    ensures WriteVersion(c, compat, v).value.0 == k && ExpectedVersion(c.versions, compat) == Ok(k)
  {
    BestIsGreatest(c.versions, compat);
    k := ThroughOldVersionAndBack(c, compat, v);
  }

  /** The value that arrives is the downgraded one, if the reader's types can hold it. */
  ghost predicate Arrives(r: Context, u: Type, x: Value, at: Place, got: Result<(Value, In)>) {
    && (got.Ok? <==> Fits(r, u, x))
    && (got.Err? ==> got.error == ErrorValueOverflow)
    && (got.Ok? && AllHeld(r, u, x, at) ==> got.value.0 == x)
  }

  /**
    * A value sent in an old version comes back as it was, over bytes and whatever the hosts, if every upgrade
    * undoes its downgrade, exactly when the latest version can be initialized from every version between.
    */
  lemma OldVersionRoundTrip(w: Context, r: Context, heap: Heap, c: Chain, ts: seq<Type>, us: seq<Type>, v: Value,
                            before: seq<Byte>, rest: seq<Byte>, call: nat, s: In) returns (k: nat, x: Value)
    requires Layouts(c, ts) && Layouts(c, us) && Setup(w, r, heap)
    requires forall i | 0 <= i < |ts| :: Paired(w, r, ts[i], us[i]) && NoPointers(ts[i])
    requires SendVersion(w, heap, c, ts, v, before).Ok? && s.cursor == |before| && Fresh(s)
    ensures k < |us| && Downgraded(c, w.interfaceVersion, v, k, x)
    ensures var bin := SendVersion(w, heap, c, ts, v, before).value.bin + rest;
            var got := ReceiveVersion(r, bin, c, us, Root(call), s);
            && Readable(r, bin, us[k], s)
            && Arrives(r, us[k], x, Root(call), Read(r, bin, us[k], Root(call), s))
            && (Fits(r, us[k], x) && AllHeld(r, us[k], x, Root(call)) ==>
                  && got == ReadVersion(c, k, x)
                  && ReadsBack(c, k, x)
                  && (Lossless(c) ==> (got == Ok(v) <==> k == 0 || AllDirect(c, k))))
  {
    k := SentIsExpected(c, w.interfaceVersion, v);
    x := WriteVersion(c, w.interfaceVersion, v).value.1;
    ValueRoundTrip(w, r, heap, ts[k], us[k], x, before, rest, call, s);
    var _ := ThroughOldVersionAndBack(c, w.interfaceVersion, v);
    if Lossless(c) {
      LosslessChain(c, k, v);
    }
  }
}
