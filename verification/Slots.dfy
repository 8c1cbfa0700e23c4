/**
  * GenericAllocationManager on partly constructed memory: what is copied or moved where, for every overlap and
  * every boundary of constructed objects, and what is left behind when a construction fails.
  */
module Slots {
  import opened Status

  /** Raw memory, an object, or an object whose value has been moved away. */
  datatype Slot<T> = Raw | Live(value: T) | Moved

  /** helpers::areRegionsOverlap. */
  predicate RegionsOverlap(a: nat, b: nat, n: nat) {
    (a >= b && a < b + n) || (a <= b && a + n > b)
  }

  predicate InRegion(k: nat, a: nat, n: nat) {
    a <= k < a + n
  }

  lemma OverlapIsIntersection(a: nat, b: nat, n: nat)
    ensures RegionsOverlap(a, b, n) <==> exists k: nat :: InRegion(k, a, n) && InRegion(k, b, n)
  {
    if RegionsOverlap(a, b, n) {
      assert InRegion(if a >= b then a else b, a, n) && InRegion(if a >= b then a else b, b, n);
    }
  }

  /** The destination is constructed up to `finish` and raw behind it; the source is constructed. */
  ghost predicate Ready<T>(mem: seq<Slot<T>>, dest: nat, finish: nat, src: nat, n: nat) {
    && dest + n <= |mem| && src + n <= |mem|
    && (forall k | dest <= k < dest + n :: mem[k] != Raw <==> k < finish)
    && (forall k | src <= k < src + n :: mem[k].Live?)
  }

  /** What a slot holds once the elements from `low` to `high` have been copied to their places. */
  function Copied<T>(mem: seq<Slot<T>>, dest: nat, src: nat, low: nat, high: nat): (r: seq<Slot<T>>)
    requires dest + high <= |mem| && src + high <= |mem|
  {
    seq(|mem|, k requires 0 <= k < |mem| => if dest + low <= k < dest + high then mem[src + (k - dest)] else mem[k])
  }

  /** The same for moving: a source slot that has not been built over keeps an object without its value. */
  function MovedOver<T>(mem: seq<Slot<T>>, dest: nat, src: nat, low: nat, high: nat): (r: seq<Slot<T>>)
    requires dest + high <= |mem| && src + high <= |mem|
  {
    seq(|mem|, k requires 0 <= k < |mem| =>
      if dest + low <= k < dest + high then mem[src + (k - dest)]
      else if src + low <= k < src + high then Moved
      else mem[k])
  }

  /** Memory with the slots from `low` to `high` raw. */
  function Cleared<T>(mem: seq<Slot<T>>, low: nat, high: nat): (r: seq<Slot<T>>)
    ensures |r| == |mem|
  {
    seq(|mem|, k requires 0 <= k < |mem| => if low <= k < high then Raw else mem[k])
  }

  /** Copying makes objects of the whole destination and of nothing else. */
  lemma CopyLeaksNothing<T>(mem: seq<Slot<T>>, dest: nat, finish: nat, src: nat, n: nat, k: nat)
    requires Ready(mem, dest, finish, src, n) && k < |mem|
    ensures Copied(mem, dest, src, 0, n)[k] != Raw <==> mem[k] != Raw || dest <= k < dest + n
    ensures dest <= k < dest + n ==> Copied(mem, dest, src, 0, n)[k].Live?
  {
  }

  /** So does moving, and every element moved is an object once more at its destination. */
  lemma MoveLeaksNothing<T>(mem: seq<Slot<T>>, dest: nat, finish: nat, src: nat, n: nat, k: nat)
    requires Ready(mem, dest, finish, src, n) && k < |mem|
    ensures MovedOver(mem, dest, src, 0, n)[k] != Raw <==> mem[k] != Raw || dest <= k < dest + n
    ensures src <= k < src + n ==> MovedOver(mem, dest, src, 0, n)[dest + (k - src)] == mem[k]
  {
  }

  method Destroy<T>(mem: array<Slot<T>>, k: nat)
    requires k < mem.Length && mem[k] != Raw
    modifies mem
    ensures mem[..] == old(mem[..])[k := Raw]
  {
    mem[k] := Raw;
  }

  /** Construction may fail; what it is not is construction over an object. */
  method Construct<T>(mem: array<Slot<T>>, k: nat, value: T, fails: bool) returns (status: Status)
    requires k < mem.Length && mem[k] == Raw
    modifies mem
    ensures status == if fails then ErrorNoMemory else NoError
    ensures mem[..] == if fails then old(mem[..]) else old(mem[..])[k := Live(value)]
  {
    if fails {
      return ErrorNoMemory;
    }
    mem[k] := Live(value);
    return NoError;
  }

  method DestroyN<T>(mem: array<Slot<T>>, at: nat, n: nat)
    requires at + n <= mem.Length && forall k | at <= k < at + n :: mem[k] != Raw
    modifies mem
    ensures mem[..] == Cleared(old(mem[..]), at, at + n)
  {
    for i := 0 to n
      invariant mem[..] == Cleared(old(mem[..]), at, at + i)
    {
      assert mem[..][at + i] == old(mem[at + i]);
      Destroy(mem, at + i);
    }
  }

  /** constructN: all of it, or nothing. Construction number `good` is the first to fail. */
  method ConstructN<T>(mem: array<Slot<T>>, at: nat, n: nat, value: T, good: nat) returns (status: Status)
    requires at + n <= mem.Length && forall k | at <= k < at + n :: mem[k] == Raw
    modifies mem
    ensures status == if n <= good then NoError else ErrorNoMemory
    ensures status == NoError ==>
              mem[..] == seq(mem.Length, k requires 0 <= k < mem.Length =>
                               if at <= k < at + n then Live(value) else old(mem[..])[k])
    ensures status != NoError ==> mem[..] == old(mem[..])
  {
    for i := 0 to n
      invariant i <= good
      invariant mem[..] ==
                seq(mem.Length,
                    k requires 0 <= k < mem.Length => if at <= k < at + i then Live(value) else old(mem[..])[k])
    {
      assert mem[..][at + i] == old(mem[..])[at + i];
      status := Construct(mem, at + i, value, i == good);
      if status != NoError {
        assert forall k | at <= k < at + i :: mem[..][k] == Live(value);
        DestroyN(mem, at, i);
        assert mem[..] == old(mem[..]);
        return;
      }
    }
    status := NoError;
  }

  /**
    * Going up. When construction number `good` is the first to fail, every slot built before is raw again,
    * and so is the one it was meant for; all others are untouched.
    */
  method CopyToDirtyNoOverlap<T>(mem: array<Slot<T>>, dest: nat, finish: nat, src: nat, n: nat, good: nat)
      returns (status: Status)
    requires Ready(mem[..], dest, finish, src, n) && (dest <= src || !RegionsOverlap(dest, src, n))
    modifies mem
    ensures status == if n <= good then NoError else ErrorNoMemory
    ensures status == NoError ==> mem[..] == Copied(old(mem[..]), dest, src, 0, n)
    ensures status != NoError ==> mem[..] == Cleared(old(mem[..]), dest, dest + good + 1)
  {
    ghost var before := mem[..];
    for i := 0 to n
      invariant i <= good && mem[..] == Copied(before, dest, src, 0, i)
    {
      status := CopyOneUp(mem, before, dest, finish, src, n, i, i == good);
      if status != NoError {
        return;
      }
    }
    status := NoError;
  }

  /** One step of the loop that goes up. */
  method CopyOneUp<T>(mem: array<Slot<T>>, ghost before: seq<Slot<T>>, dest: nat, finish: nat, src: nat, n: nat, i: nat,
                      fails: bool) returns (status: Status)
    requires Ready(before, dest, finish, src, n) && (dest <= src || !RegionsOverlap(dest, src, n)) && i < n
    requires mem.Length == |before| && mem[..] == Copied(before, dest, src, 0, i)
    modifies mem
    ensures status == if fails then ErrorNoMemory else NoError
    ensures status == NoError ==> mem[..] == Copied(before, dest, src, 0, i + 1)
    ensures status != NoError ==> mem[..] == Cleared(before, dest, dest + i + 1)
  {
    assert mem[..][src + i] == before[src + i] && mem[..][dest + i] == before[dest + i];
    var value := mem[src + i].value;
    if dest + i < finish {
      Destroy(mem, dest + i);
    }
    assert mem[..] == Copied(before, dest, src, 0, i)[dest + i := Raw];
    status := Construct(mem, dest + i, value, fails);
    if status != NoError {
      BuiltAreLive(before, mem[..], dest, src, n, 0, i, dest + i);
      DestroyN(mem, dest, i);
      assert mem[..] == Cleared(before, dest, dest + i + 1);
    } else {
      assert mem[..] == Copied(before, dest, src, 0, i + 1);
    }
  }

  /** What has been built so far may be destroyed. */
  lemma BuiltAreLive<T>(before: seq<Slot<T>>, mem: seq<Slot<T>>, dest: nat, src: nat, n: nat, low: nat, high: nat,
                        hole: nat)
    requires dest + n <= |before| && src + n <= |before| && low <= high <= n
    requires forall k | src <= k < src + n :: before[k].Live?
    requires hole < |before| && mem == Copied(before, dest, src, low, high)[hole := Raw]
    requires hole < dest + low || dest + high <= hole
    ensures forall k | dest + low <= k < dest + high :: mem[k] != Raw
  {
    forall k | dest + low <= k < dest + high ensures mem[k] != Raw {
      assert mem[k] == before[src + (k - dest)];
    }
  }

  lemma AllCopied<T>(before: seq<Slot<T>>, after: seq<Slot<T>>, dest: nat, src: nat, n: nat)
    requires dest + n <= |before| && src + n <= |before| && after == Copied(before, dest, src, 0, n)
    ensures after[dest..dest + n] == before[src..src + n]
    ensures after[..dest] == before[..dest] && after[dest + n..] == before[dest + n..]
  {
    SliceIs(before, after, dest, src, n);
    var end, rest := dest + n, |before| - (dest + n);
    SliceIs(before, after, end, end, rest);
    assert after[end..] == after[end..end + rest] && before[end..] == before[end..end + rest];
  }

  lemma SliceIs<T>(before: seq<Slot<T>>, after: seq<Slot<T>>, dest: nat, src: nat, n: nat)
    requires |after| == |before| && dest + n <= |before| && src + n <= |before|
    requires forall k | dest <= k < dest + n :: after[k] == before[src + (k - dest)]
    ensures after[dest..dest + n] == before[src..src + n]
  {
    var reached, left := after[dest..dest + n], before[src..src + n];
    forall k | 0 <= k < n ensures reached[k] == left[k] {
      assert after[dest + k] == before[src + (dest + k - dest)];
    }
  }

  lemma AllMovedOver<T>(before: seq<Slot<T>>, after: seq<Slot<T>>, dest: nat, src: nat, n: nat)
    requires dest + n <= |before| && src + n <= |before| && after == MovedOver(before, dest, src, 0, n)
    ensures after[dest..dest + n] == before[src..src + n]
    ensures forall k | 0 <= k < |after| && !InRegion(k, dest, n) ::
              after[k] == if InRegion(k, src, n) then Moved else before[k]
  {
    SliceIs(before, after, dest, src, n);
  }

  /** Where source and destination are one there is nothing to do. */
  lemma InPlace<T>(before: seq<Slot<T>>, dest: nat, n: nat)
    requires dest + n <= |before|
    ensures before == Copied(before, dest, dest, 0, n) == MovedOver(before, dest, dest, 0, n)
  {
    assert before == Copied(before, dest, dest, 0, n);
    assert before == MovedOver(before, dest, dest, 0, n);
  }

  /** copyToDirty: the direction follows from where the regions lie. */
  method CopyToDirty<T>(mem: array<Slot<T>>, dest: nat, finish: nat, src: nat, n: nat, good: nat)
      returns (status: Status)
    requires Ready(mem[..], dest, finish, src, n)
    modifies mem
    ensures status == if dest == src || n <= good then NoError else ErrorNoMemory
    ensures status == NoError ==> mem[..] == Copied(old(mem[..]), dest, src, 0, n)
    ensures status == NoError ==> mem[dest..dest + n] == old(mem[src..src + n])
    ensures status == NoError ==> mem[..dest] == old(mem[..dest]) && mem[dest + n..] == old(mem[dest + n..])
    ensures status != NoError ==>
              mem[..] == if RegionsOverlap(dest, src, n) && src < dest
                         then Cleared(old(mem[..]), dest + n - 1 - good, dest + n)
                         else Cleared(old(mem[..]), dest, dest + good + 1)
  {
    ghost var before := mem[..];
    if dest == src {
      InPlace(before, dest, n);
      AllCopied(before, mem[..], dest, src, n);
      return NoError;
    }
    if RegionsOverlap(dest, src, n) && dest > src {
      for i := n downto 0
        invariant n - i <= good && mem[..] == Copied(before, dest, src, i, n)
      {
        status := CopyOneDown(mem, before, dest, finish, src, n, i, n - 1 - i == good);
        if status != NoError {
          return;
        }
      }
      status := NoError;
    } else {
      status := CopyToDirtyNoOverlap(mem, dest, finish, src, n, good);
    }
    if status == NoError {
      AllCopied(before, mem[..], dest, src, n);
    }
  }

  /** One step of the loop that goes down. */
  method CopyOneDown<T>(mem: array<Slot<T>>, ghost before: seq<Slot<T>>, dest: nat, finish: nat, src: nat, n: nat,
                        i: nat, fails: bool) returns (status: Status)
    requires Ready(before, dest, finish, src, n) && src < dest && i < n
    requires mem.Length == |before| && mem[..] == Copied(before, dest, src, i + 1, n)
    modifies mem
    ensures status == if fails then ErrorNoMemory else NoError
    ensures status == NoError ==> mem[..] == Copied(before, dest, src, i, n)
    ensures status != NoError ==> mem[..] == Cleared(before, dest + i, dest + n)
  {
    assert mem[..][src + i] == before[src + i] && mem[..][dest + i] == before[dest + i];
    var value := mem[src + i].value;
    if dest + i < finish {
      Destroy(mem, dest + i);
    }
    assert mem[..] == Copied(before, dest, src, i + 1, n)[dest + i := Raw];
    status := Construct(mem, dest + i, value, fails);
    if status != NoError {
      BuiltAreLive(before, mem[..], dest, src, n, i + 1, n, dest + i);
      DestroyN(mem, dest + i + 1, n - 1 - i);
      assert mem[..] == Cleared(before, dest + i, dest + n);
    } else {
      assert mem[..] == Copied(before, dest, src, i, n);
    }
  }

  // ---------------------------------------------------------------- moving

  /** How a construction from a source goes; one that fails may have taken the value away all the same. */
  datatype Attempt = Succeeds | Fails(taken: bool)

  /** Construction from a source that gives its value up. */
  method ConstructFrom<T>(mem: array<Slot<T>>, k: nat, src: nat, attempt: Attempt) returns (status: Status)
    requires k < mem.Length && src < mem.Length && k != src && mem[k] == Raw && mem[src].Live?
    modifies mem
    ensures status == if attempt.Succeeds? then NoError else ErrorNoMemory
    ensures mem[..] == match attempt
                       case Succeeds => old(mem[..])[k := old(mem[src])][src := Moved]
                       case Fails(taken) => if taken then old(mem[..])[src := Moved] else old(mem[..])
  {
    if attempt.Fails? {
      if attempt.taken {
        mem[src] := Moved;
      }
      return ErrorNoMemory;
    }
    mem[k] := mem[src];
    mem[src] := Moved;
    return NoError;
  }

  /**
    * After a move that failed at element `failed`: what had been built, and the place of that element, are raw; its
    * source has lost its value if that had been taken.
    */
  ghost predicate MoveFailed<T>(before: seq<Slot<T>>, after: seq<Slot<T>>, dest: nat, src: nat, low: nat, high: nat,
                                failed: nat, taken: bool)
    requires dest + high <= |before| && src + high <= |before| && low <= failed < high
  {
    && |after| == |before|
    && forall k | 0 <= k < |after| ::
         if dest + low <= k < dest + high then after[k] == Raw
         else if src + low <= k < src + high
         then after[k] == (if k == src + failed && !taken then before[k] else Moved)
         else after[k] == before[k]
  }

  /** Going up; attempt number `good` is the first to fail. */
  method MoveToDirtyNoOverlap<T>(mem: array<Slot<T>>, dest: nat, finish: nat, src: nat, n: nat, good: nat, taken: bool)
      returns (status: Status)
    requires Ready(mem[..], dest, finish, src, n) && dest != src && (dest <= src || !RegionsOverlap(dest, src, n))
    modifies mem
    ensures status == if n <= good then NoError else ErrorNoMemory
    ensures status == NoError ==> mem[..] == MovedOver(old(mem[..]), dest, src, 0, n)
    ensures status != NoError ==> MoveFailed(old(mem[..]), mem[..], dest, src, 0, good + 1, good, taken)
  {
    ghost var before := mem[..];
    for i := 0 to n
      invariant i <= good && mem[..] == MovedOver(before, dest, src, 0, i)
    {
      status := MoveOneUp(mem, before, dest, finish, src, n, i, if i == good then Fails(taken) else Succeeds);
      if status != NoError {
        return;
      }
    }
    status := NoError;
  }

  method MoveOneUp<T>(mem: array<Slot<T>>, ghost before: seq<Slot<T>>, dest: nat, finish: nat, src: nat, n: nat, i: nat,
                      attempt: Attempt) returns (status: Status)
    requires Ready(before, dest, finish, src, n) && dest != src && (dest <= src || !RegionsOverlap(dest, src, n))
    requires i < n
    requires mem.Length == |before| && mem[..] == MovedOver(before, dest, src, 0, i)
    modifies mem
    ensures status == if attempt.Succeeds? then NoError else ErrorNoMemory
    ensures status == NoError ==> mem[..] == MovedOver(before, dest, src, 0, i + 1)
    ensures attempt.Fails? ==> MoveFailed(before, mem[..], dest, src, 0, i + 1, i, attempt.taken)
  {
    assert mem[..][src + i] == before[src + i];
    assert mem[..][dest + i] == (if src <= dest + i < src + i then Moved else before[dest + i]);
    assert before[dest + i] != Raw <==> dest + i < finish;
    assert src <= dest + i < src + n ==> before[dest + i].Live?;
    if dest + i < finish {
      Destroy(mem, dest + i);
    }
    assert mem[..] == MovedOver(before, dest, src, 0, i)[dest + i := Raw];
    status := ConstructFrom(mem, dest + i, src + i, attempt);
    if status != NoError {
      ghost var stopped := mem[..];
      forall k | dest <= k < dest + i ensures mem[k] != Raw {
        assert stopped[k] == before[src + (k - dest)];
      }
      DestroyN(mem, dest, i);
      assert mem[..] == Cleared(stopped, dest, dest + i);
    } else {
      assert mem[..] == MovedOver(before, dest, src, 0, i + 1);
    }
  }

  /** moveToDirty, for every position of the two regions. */
  method MoveToDirty<T>(mem: array<Slot<T>>, dest: nat, finish: nat, src: nat, n: nat, good: nat, taken: bool)
      returns (status: Status)
    requires Ready(mem[..], dest, finish, src, n)
    modifies mem
    ensures status == if dest == src || n <= good then NoError else ErrorNoMemory
    ensures status == NoError ==> mem[..] == MovedOver(old(mem[..]), dest, src, 0, n)
    ensures status == NoError ==> mem[dest..dest + n] == old(mem[src..src + n])
    ensures status == NoError ==>
              forall k | 0 <= k < mem.Length && !InRegion(k, dest, n) ::
                mem[k] == if InRegion(k, src, n) then Moved else old(mem[k])
    ensures status != NoError ==>
              if RegionsOverlap(dest, src, n) && src < dest
              then MoveFailed(old(mem[..]), mem[..], dest, src, n - 1 - good, n, n - 1 - good, taken)
              else MoveFailed(old(mem[..]), mem[..], dest, src, 0, good + 1, good, taken)
  {
    ghost var before := mem[..];
    if dest == src {
      InPlace(before, dest, n);
      AllMovedOver(before, mem[..], dest, src, n);
      return NoError;
    }
    if RegionsOverlap(dest, src, n) && dest > src {
      for i := n downto 0
        invariant n - i <= good && mem[..] == MovedOver(before, dest, src, i, n)
      {
        var attempt := if n - 1 - i == good then Fails(taken) else Succeeds;
        status := MoveOneDown(mem, before, dest, finish, src, n, i, attempt);
        if status != NoError {
          return;
        }
      }
      status := NoError;
    } else {
      status := MoveToDirtyNoOverlap(mem, dest, finish, src, n, good, taken);
    }
    if status == NoError {
      AllMovedOver(before, mem[..], dest, src, n);
    }
  }

  method MoveOneDown<T>(mem: array<Slot<T>>, ghost before: seq<Slot<T>>, dest: nat, finish: nat, src: nat, n: nat,
                        i: nat, attempt: Attempt) returns (status: Status)
    requires Ready(before, dest, finish, src, n) && src < dest && i < n
    requires mem.Length == |before| && mem[..] == MovedOver(before, dest, src, i + 1, n)
    modifies mem
    ensures status == if attempt.Succeeds? then NoError else ErrorNoMemory
    ensures status == NoError ==> mem[..] == MovedOver(before, dest, src, i, n)
    ensures attempt.Fails? ==> MoveFailed(before, mem[..], dest, src, i, n, i, attempt.taken)
  {
    assert mem[..][src + i] == before[src + i];
    assert mem[..][dest + i] == (if src + i + 1 <= dest + i < src + n then Moved else before[dest + i]);
    assert before[dest + i] != Raw <==> dest + i < finish;
    assert src <= dest + i < src + n ==> before[dest + i].Live?;
    if dest + i < finish {
      Destroy(mem, dest + i);
    }
    assert mem[..] == MovedOver(before, dest, src, i + 1, n)[dest + i := Raw];
    status := ConstructFrom(mem, dest + i, src + i, attempt);
    if status != NoError {
      ghost var stopped := mem[..];
      forall k | dest + i < k < dest + n ensures mem[k] != Raw {
        assert stopped[k] == before[src + (k - dest)];
      }
      DestroyN(mem, dest + i + 1, n - 1 - i);
      assert mem[..] == Cleared(stopped, dest + i + 1, dest + n);
    } else {
      assert mem[..] == MovedOver(before, dest, src, i, n);
    }
  }
}
