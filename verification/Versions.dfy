/** VersionConverter: chains of struct versions, newest first, and the conversions along them. */
module Versions {
  import opened Status
  import opened Types

  const UNDEFINED: nat := 0xffffffff

  /**
    * The private versions of a struct. `down(i, v)` initializes version number i + 1 from version number i, and
    * `up(i, v)` the other way round; `direct(i)` tells whether the latest version can be initialized from
    * version number i.
    */
  datatype Chain = Chain(versions: seq<nat>, down: (nat, Value) -> Result<Value>, up: (nat, Value) -> Result<Value>,
                         direct: nat -> bool)

  predicate Descending(versions: seq<nat>) {
    && versions != [] && versions[0] < UNDEFINED
    && forall i, j | 0 <= i < j < |versions| :: versions[i] > versions[j]
  }

  // ---------------------------------------------------------------- the target version

  /** getBestCompatInterfaceVersion: the first version in the list that the other party knows. */
  method GetBestCompatInterfaceVersion(versions: seq<nat>, compat: nat) returns (best: nat)
    requires Descending(versions)
    ensures best == UNDEFINED <==> forall i | 0 <= i < |versions| :: compat < versions[i]
    ensures best != UNDEFINED ==>
              && best in versions && best <= compat
              && forall i | 0 <= i < |versions| && versions[i] <= compat :: versions[i] <= best
    ensures best == Best(versions, compat)
  {
    for i := 0 to |versions|
      invariant forall j | 0 <= j < i :: compat < versions[j]
      invariant Best(versions, compat) == Best(versions[i..], compat)
    {
      if versions[i] <= compat {
        return versions[i];
      }
      assert versions[i..][1..] == versions[i + 1..];
    }
    best := UNDEFINED;
  }

  function Best(versions: seq<nat>, compat: nat): nat {
    if versions == [] then UNDEFINED
    else if versions[0] <= compat then versions[0]
    else Best(versions[1..], compat)
  }

  /** In a descending list the best version is the greatest that is not above the other party's. */
  lemma {:induction false} BestIsGreatest(versions: seq<nat>, compat: nat)
    requires forall i, j | 0 <= i < j < |versions| :: versions[i] > versions[j]
    requires forall i | 0 <= i < |versions| :: versions[i] < UNDEFINED
    ensures Best(versions, compat) == UNDEFINED <==> forall i | 0 <= i < |versions| :: compat < versions[i]
    ensures Best(versions, compat) != UNDEFINED ==>
              && Best(versions, compat) in versions && Best(versions, compat) <= compat
              && forall i | 0 <= i < |versions| && versions[i] <= compat :: versions[i] <= Best(versions, compat)
  {
    if versions != [] && versions[0] > compat {
      BestIsGreatest(versions[1..], compat);
      assert forall i | 0 < i < |versions| :: versions[i] == versions[1..][i - 1];
    }
  }

  // ---------------------------------------------------------------- the folds

  /** The first `k` downgrades, one after the other. */
  function FoldDown(c: Chain, k: nat, v: Value): Result<Value> {
    if k == 0 then Ok(v) else
      var w :- FoldDown(c, k - 1, v);
      c.down(k - 1, w)
  }

  /** The upgrades from version number `k` to the latest, one after the other. */
  function FoldUp(c: Chain, k: nat, v: Value): Result<Value> {
    if k == 0 then Ok(v) else
      var w :- c.up(k - 1, v);
      FoldUp(c, k - 1, w)
  }

  // ---------------------------------------------------------------- downgrading

  /** ToVersion::convert from version number `i` on: the version written, and the value in it. */
  function ConvertDown(c: Chain, target: nat, i: nat, v: Value): Result<(nat, Value)>
    decreases |c.versions| - i
  {
    if |c.versions| <= i + 1 then Err(ErrorInternal) else
      var w :- c.down(i, v);
      if c.versions[i + 1] > target then ConvertDown(c, target, i + 1, w) else Ok((i + 1, w))
  }

  function AtVersion(k: nat, r: Result<Value>): Result<(nat, Value)> {
    var w :- r;
    Ok((k, w))
  }

  /** Continuing a fold of downgrades. */
  lemma {:induction false} ConvertDownFolds(c: Chain, k: nat, i: nat, start: Value, v: Value)
    requires Descending(c.versions) && i < k < |c.versions| && FoldDown(c, i, start) == Ok(v)
    ensures ConvertDown(c, c.versions[k], i, v) ==
            AtVersion(k, FoldDown(c, k, start))
    decreases k - i
  {
    var next := c.down(i, v);
    assert FoldDown(c, i + 1, start) == next;
    if next.Err? {
      FoldStaysFailed(c, i + 1, k, start);
    } else if i + 1 < k {
      assert c.versions[i + 1] > c.versions[k];
      ConvertDownFolds(c, k, i + 1, start, next.value);
    }
  }

  lemma {:induction false} FoldStaysFailed(c: Chain, i: nat, k: nat, start: Value)
    requires i <= k && FoldDown(c, i, start).Err?
    ensures FoldDown(c, k, start) == FoldDown(c, i, start)
    decreases k
  {
    if i < k {
      FoldStaysFailed(c, i, k - 1, start);
    }
  }

  // ---------------------------------------------------------------- upgrading

  /** FromVersion::convert from the oldest version on: versions older than the one on the wire are skipped. */
  function StartIndex(versions: seq<nat>, target: nat, i: nat): (k: nat)
    requires 0 < i < |versions|
    ensures 0 < k <= i
  {
    if 1 < i && versions[i - 1] <= target then StartIndex(versions, target, i - 1) else i
  }

  lemma {:induction false} StartIndexIsTarget(versions: seq<nat>, k: nat, i: nat)
    requires Descending(versions) && 0 < k <= i < |versions|
    ensures StartIndex(versions, versions[k], i) == k
    decreases i
  {
    if k < i {
      assert versions[i - 1] <= versions[k] by {
        assert k < i - 1 ==> versions[k] > versions[i - 1];
      }
      StartIndexIsTarget(versions, k, i - 1);
    } else if 1 < i {
      assert versions[i - 1] > versions[i];
    }
  }

  /**
    * convertToUpperVersion from version number `i`: before a version is initialized from the one below it, the
    * code asks whether the latest version could be initialized from it.
    */
  function ConvertUp(c: Chain, i: nat, v: Value): Result<Value>
    requires 0 < i
  {
    if i == 1 then
      if c.direct(1) then c.up(0, v) else Err(ErrorNoSuchHandler)
    else if !c.direct(i - 1) then
      Err(ErrorNoSuchHandler)
    else
      var w :- c.up(i - 1, v);
      ConvertUp(c, i - 1, w)
  }

  /** The latest version can be initialized from every version between, and from its predecessor. */
  predicate AllDirect(c: Chain, k: nat) {
    c.direct(1) && forall j | 1 <= j < k :: c.direct(j)
  }

  /**
    * Upgrading applies each later upgrade once, in ascending order, exactly when the latest version can be
    * initialized from every version on the way; a chain that only leads from version to version is refused.
    */
  lemma {:induction false} ConvertUpFolds(c: Chain, k: nat, v: Value)
    requires 0 < k
    ensures AllDirect(c, k) ==> ConvertUp(c, k, v) == FoldUp(c, k, v)
    ensures !AllDirect(c, k) ==> ConvertUp(c, k, v).Err?
  {
    if 1 < k && c.direct(k - 1) && c.up(k - 1, v).Ok? {
      ConvertUpFolds(c, k - 1, c.up(k - 1, v).value);
    }
    if k == 1 && c.up(0, v).Ok? {
      assert FoldUp(c, 0, c.up(0, v).value) == c.up(0, v);
    }
  }

  /** Where no step fails, the missing initialization is what is reported. */
  lemma {:induction false} ConvertUpSucceedsIff(c: Chain, k: nat, v: Value)
    requires 0 < k && FoldUp(c, k, v).Ok?
    ensures ConvertUp(c, k, v) == if AllDirect(c, k) then FoldUp(c, k, v) else Err(ErrorNoSuchHandler)
  {
    if k == 1 {
      assert FoldUp(c, 0, c.up(0, v).value) == c.up(0, v);
    } else if c.direct(k - 1) {
      ConvertUpSucceedsIff(c, k - 1, c.up(k - 1, v).value);
    }
  }

  // ---------------------------------------------------------------- through an old version and back

  /** toOldStructIfNeed, then what is on the wire: a version number and a value of that version. */
  function WriteVersion(c: Chain, compat: nat, v: Value): Result<(nat, Value)>
    requires c.versions != []
  {
    var target := Best(c.versions, compat);
    if target == c.versions[0] then Ok((0, v))
    else if target == UNDEFINED then Err(ErrorInternal)
    else ConvertDown(c, target, 0, v)
  }

  /** The version number that fromOldStructIfNeed expects on the wire. */
  function ExpectedVersion(versions: seq<nat>, compat: nat): Result<nat>
    requires versions != []
  {
    var target := Best(versions, compat);
    if target == versions[0] then Ok(0)
    else if target == UNDEFINED || |versions| == 1 then Err(ErrorInternal)
    else Ok(StartIndex(versions, target, |versions| - 1))
  }

  function ReadVersion(c: Chain, k: nat, v: Value): Result<Value> {
    if k == 0 then Ok(v) else ConvertUp(c, k, v)
  }

  /** What the reader makes of a value of version number `k`. */
  predicate ReadsBack(c: Chain, k: nat, w: Value) {
    if k == 0 || AllDirect(c, k) then ReadVersion(c, k, w) == FoldUp(c, k, w) else ReadVersion(c, k, w).Err?
  }

  /** The position of the best version. */
  lemma BestHasIndex(versions: seq<nat>, compat: nat) returns (k: nat)
    requires Descending(versions) && Best(versions, compat) != UNDEFINED
    ensures k < |versions| && versions[k] == Best(versions, compat) <= compat
    ensures forall j | 0 <= j < k :: compat < versions[j]
  {
    BestIsGreatest(versions, compat);
    k :| 0 <= k < |versions| && versions[k] == Best(versions, compat);
  }

  /**
    * Writing for a party that knows versions up to `compat` stops at exactly the greatest version not above it;
    * reading starts at the same version; and what comes back is the fold of the upgrades after the fold of the
    * downgrades, provided that the latest version can be initialized from every version between.
    */
  lemma ThroughOldVersionAndBack(c: Chain, compat: nat, v: Value) returns (k: nat)
    requires Descending(c.versions) && exists i :: 0 <= i < |c.versions| && c.versions[i] <= compat
    ensures k < |c.versions| && c.versions[k] <= compat && forall j | 0 <= j < k :: compat < c.versions[j]
    ensures WriteVersion(c, compat, v) == AtVersion(k, FoldDown(c, k, v))
    ensures ExpectedVersion(c.versions, compat) == Ok(k)
    ensures FoldDown(c, k, v).Ok? ==> ReadsBack(c, k, FoldDown(c, k, v).value)
  {
    BestIsGreatest(c.versions, compat);
    k := BestHasIndex(c.versions, compat);
    if k != 0 {
      ConvertDownFolds(c, k, 0, v, v);
      StartIndexIsTarget(c.versions, k, |c.versions| - 1);
      if FoldDown(c, k, v).Ok? {
        ConvertUpFolds(c, k, FoldDown(c, k, v).value);
      }
    }
  }

  /** A party that knows none of the versions is sent nothing, and nothing is expected of it. */
  lemma NoneForStrangers(c: Chain, compat: nat, v: Value)
    requires Descending(c.versions)
    ensures (forall i | 0 <= i < |c.versions| :: compat < c.versions[i]) ==>
              && WriteVersion(c, compat, v) == Err(ErrorInternal)
              && ExpectedVersion(c.versions, compat) == Err(ErrorInternal)
    ensures ExpectedVersion(c.versions, compat).Ok? <==> exists i :: 0 <= i < |c.versions| && c.versions[i] <= compat
  {
    BestIsGreatest(c.versions, compat);
    if Best(c.versions, compat) != UNDEFINED {
      var _ := ThroughOldVersionAndBack(c, compat, v);
    }
  }

  /** When every upgrade undoes its downgrade, an old version in between loses nothing. */
  lemma {:induction false} LosslessChain(c: Chain, k: nat, v: Value)
    requires forall i, x | 0 <= i < k && c.down(i, x).Ok? :: c.up(i, c.down(i, x).value) == Ok(x)
    requires FoldDown(c, k, v).Ok?
    ensures FoldUp(c, k, FoldDown(c, k, v).value) == Ok(v)
    decreases k
  {
    if k != 0 {
      var w := FoldDown(c, k - 1, v).value;
      assert c.up(k - 1, c.down(k - 1, w).value) == Ok(w);
      LosslessChain(c, k - 1, v);
    }
  }
}
