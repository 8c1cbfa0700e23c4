/** Vector over its allocated buffer, for trivially copyable elements, with the doubling allocation strategy. */
module Vectors {
  import opened Status

  /** A pointer to elements the caller owns. */
  datatype Source<T> = NullPointer | Elements(items: seq<T>)

  /** `s` with `x` put in front of position `at`. */
  function Inserted<T>(s: seq<T>, x: seq<T>, at: nat): seq<T>
    requires at <= |s|
  {
    s[..at] + x + s[at..]
  }

  /** `s` with what stands from `at` on overwritten by `x`, beyond its end if need be. */
  function Overwritten<T>(s: seq<T>, x: seq<T>, at: nat): seq<T>
    requires at <= |s|
  {
    s[..at] + x + if at + |x| < |s| then s[at + |x|..] else []
  }

  /** Where everything stands after an insertion, and after overwriting. */
  lemma InsertedStands<T>(s: seq<T>, x: seq<T>, at: nat, k: nat)
    requires at <= |s|
    ensures |Inserted(s, x, at)| == |s| + |x|
    ensures k < |s| ==> Inserted(s, x, at)[if k < at then k else k + |x|] == s[k]
    ensures k < |x| ==> Inserted(s, x, at)[at + k] == x[k]
  {
  }

  lemma OverwrittenStands<T>(s: seq<T>, x: seq<T>, at: nat, k: nat)
    requires at <= |s|
    ensures |Overwritten(s, x, at)| == Max(|s|, at + |x|)
    ensures k < |Overwritten(s, x, at)| ==>
              Overwritten(s, x, at)[k] == if at <= k < at + |x| then x[k - at] else s[k]
  {
  }

  /** Memory `m` with `s` written over it from `at` on. */
  function Spliced<T>(m: seq<T>, at: nat, s: seq<T>): (r: seq<T>)
    requires at + |s| <= |m|
    ensures |r| == |m|
  {
    m[..at] + s + m[at + |s|..]
  }

  lemma GrownPrefix<T>(m: seq<T>, before: seq<T>)
    requires |before| <= |m|
    ensures Spliced(m, 0, before)[..|before|] == before
  {
  }

  lemma ReplacedInPlace<T>(m: seq<T>, size: nat, s: seq<T>, at: nat)
    requires at <= size <= |m| && at + |s| <= |m|
    ensures Spliced(m, at, s)[..if at + |s| > size then at + |s| else size] == Overwritten(m[..size], s, at)
  {
  }

  lemma ReplacedGrown<T>(m: seq<T>, before: seq<T>, s: seq<T>, at: nat)
    requires at <= |before| <= at + |s| <= |m|
    ensures Spliced(Spliced(m, 0, before[..at]), at, s)[..at + |s|] == Overwritten(before, s, at)
  {
    var first := Spliced(m, 0, before[..at]);
    assert first[..at] == before[..at];
    assert Spliced(first, at, s)[..at + |s|] == first[..at] + s;
  }

  lemma InsertedGrown<T>(m: seq<T>, before: seq<T>, s: seq<T>, at: nat)
    requires at <= |before| && |before| + |s| <= |m|
    ensures Spliced(Spliced(Spliced(m, 0, before[..at]), at, s), at + |s|, before[at..])[..|before| + |s|] ==
            Inserted(before, s, at)
  {
    var first := Spliced(m, 0, before[..at]);
    assert first[..at] == before[..at];
    var second := Spliced(first, at, s);
    assert second[..at + |s|] == before[..at] + s;
    var third := Spliced(second, at + |s|, before[at..]);
    assert third[..|before| + |s|] == second[..at + |s|] + before[at..];
  }

  lemma InsertedInPlace<T>(m: seq<T>, size: nat, s: seq<T>, at: nat)
    requires at <= size && size + |s| <= |m|
    ensures Spliced(Spliced(m, at + |s|, m[at..size]), at, s)[..size + |s|] == Inserted(m[..size], s, at)
  {
    var shifted := Spliced(m, at + |s|, m[at..size]);
    assert shifted[..at] == m[..at];
    assert shifted[at + |s|..size + |s|] == m[at..size];
    var all := Spliced(shifted, at, s);
    assert all[..at + |s|] == m[..at] + s;
    assert all[at + |s|..size + |s|] == m[at..size];
    assert all[..size + |s|] == all[..at + |s|] + all[at + |s|..size + |s|];
    assert m[..size][..at] == m[..at] && m[..size][at..] == m[at..size];
  }

  lemma AppendedInPlace<T>(m: seq<T>, size: nat, s: seq<T>)
    requires size + |s| <= |m|
    ensures Spliced(m, size, s)[..size + |s|] == m[..size] + s
  {
  }

  /**
    * After `k` elements of an insertion at `at`: they stand where as many old ones stood, and those are saved.
    */
  ghost predicate Spilled<T>(before: seq<T>, src: seq<T>, at: nat, k: nat, contents: seq<T>, saved: seq<T>)
    requires at <= |before| && k <= |src|
  {
    && contents == Overwritten(before, src[..k], at)
    && saved == before[at..if at + k < |before| then at + k else |before|]
  }

  lemma SpillsNext<T>(before: seq<T>, src: seq<T>, at: nat, k: nat, contents: seq<T>, after: seq<T>)
    requires at <= |before| && k < |src| && contents == Overwritten(before, src[..k], at)
    requires after == if at + k < |contents| then contents[at + k := src[k]] else contents + [src[k]]
    ensures after == Overwritten(before, src[..k + 1], at)
  {
    assert src[..k + 1] == src[..k] + [src[k]];
  }

  lemma SavesNext<T>(before: seq<T>, src: seq<T>, at: nat, k: nat, contents: seq<T>, saved: seq<T>)
    requires at <= |before| && k < |src| && Spilled(before, src, at, k, contents, saved) && at + k < |contents|
    ensures at + k < |before| && contents[at + k] == before[at + k]
    ensures saved + [before[at + k]] == before[at..at + k + 1]
  {
  }

  lemma RestSaved<T>(before: seq<T>, src: seq<T>, at: nat, contents: seq<T>, saved: seq<T>)
    requires at <= |before| && Spilled(before, src, at, |src|, contents, saved)
    ensures contents == Overwritten(before, src, at)
    ensures |contents| == if at + |src| < |before| then |before| else at + |src|
    ensures contents[..at + |src|] == before[..at] + src && saved + contents[at + |src|..] == before[at..]
  {
    assert src[..|src|] == src;
    if at + |src| < |before| {
      assert contents[at + |src|..] == before[at + |src|..];
      assert before[at..at + |src|] + before[at + |src|..] == before[at..];
    } else {
      assert contents[at + |src|..] == [];
    }
  }

  // ---------------------------------------------------------------- what the allocator answers

  /** Whether a request is granted, the capacity that results, and the answers that are left. */
  datatype Grant = Grant(ok: bool, capacity: nat, answers: seq<bool>)

  /** One request; one that finds no answer left is refused. */
  function Answered(n: nat, capacity: nat, answers: seq<bool>): Grant {
    if answers == [] then Grant(false, capacity, [])
    else Grant(answers[0], if answers[0] then n else capacity, answers[1..])
  }

  /** Room for `needed` elements: there is enough, or twice as much is asked for, or just that. */
  function Room(needed: nat, capacity: nat, answers: seq<bool>): Grant {
    if needed <= capacity then Grant(true, capacity, answers) else
      var doubled := Answered(2 * needed, capacity, answers);
      if doubled.ok then doubled else Answered(needed, capacity, doubled.answers)
  }

  /** Exactly the room asked for, if there is not enough. */
  function ExactRoom(needed: nat, capacity: nat, answers: seq<bool>): Grant {
    if needed <= capacity then Grant(true, capacity, answers) else Answered(needed, capacity, answers)
  }

  /** The first answer is about twice the room needed, the second about just that; it takes two refusals to fail. */
  lemma RoomMeans(needed: nat, capacity: nat, answers: seq<bool>)
    ensures var room := Room(needed, capacity, answers);
            && (room.ok <==> needed <= capacity || exists i | 0 <= i < |answers| && i < 2 :: answers[i])
            && (needed <= capacity || !room.ok ==> room.capacity == capacity)
            && (capacity < needed && room.ok ==> room.capacity == if answers[0] then 2 * needed else needed)
            && room.answers == if needed <= capacity then answers
                               else answers[if answers != [] && answers[0] then 1 else Min(2, |answers|)..]
  {
    if capacity < needed && answers != [] && !answers[0] {
      assert answers[1..] != [] ==> answers[1..][1..] == answers[2..];
    }
  }

  /**
    * How the insertion of a range ends: with everything in place; after `k` elements, for want of memory; or with
    * everything dropped that stood behind the insertion point.
    */
  datatype Ending = Finished | Stopped(k: nat) | Dropped

  /** How it ends, the capacity then, and the answers that are left. */
  datatype Course = Course(ending: Ending, capacity: nat, answers: seq<bool>)

  /** The sizes that decide it: those of the vector and of the range, and the insertion point. */
  datatype Sizes = Sizes(n: nat, m: nat, at: nat)

  /** The loop of the insertion after `k` elements; `spare` is the capacity of the temporary vector. */
  function Inserting(z: Sizes, k: nat, capacity: nat, spare: nat, answers: seq<bool>): (r: Course)
    requires k <= z.m && z.at <= z.n
    decreases z.m - k, if z.at + k < capacity then 0 else 1
  {
    if k == z.m then
      Closing(z, capacity, spare, answers)
    else if z.at + k < capacity then
      var saved := if z.at + k < z.n then Room(k + 1, spare, answers) else Grant(true, spare, answers);
      if saved.ok then Inserting(z, k + 1, capacity, saved.capacity, saved.answers)
      else Course(Stopped(k), capacity, saved.answers)
    else
      var grown := Room(z.at + k + 1, capacity, answers);
      if grown.ok then Inserting(z, k, grown.capacity, spare, grown.answers)
      else Course(Stopped(k), capacity, grown.answers)
  }

  /** The end of the insertion: the rest of the old elements is saved, if any was, and all that was saved follows. */
  function Closing(z: Sizes, capacity: nat, spare: nat, answers: seq<bool>): Course
    requires z.at <= z.n
  {
    if z.m == 0 || z.at == z.n then Course(Finished, capacity, answers)
    else if z.at + z.m < z.n then
      var saved := Room(z.n - z.at, spare, answers);
      if saved.ok then Following(z, capacity, saved.answers) else Course(Stopped(z.m), capacity, saved.answers)
    else Following(z, capacity, answers)
  }

  function Following(z: Sizes, capacity: nat, answers: seq<bool>): Course {
    var grown := Room(z.n + z.m, capacity, answers);
    Course(if grown.ok then Finished else Dropped, grown.capacity, grown.answers)
  }

  /** A whole insertion, from the capacity before it. */
  function Insertion(z: Sizes, capacity: nat, answers: seq<bool>): Course
    requires z.at <= z.n
  {
    Inserting(z, 0, capacity, 0, answers)
  }

  /** What an insertion leaves behind. */
  function Left<T>(before: seq<T>, src: seq<T>, at: nat, ending: Ending): seq<T>
    requires at <= |before|
  {
    match ending
    case Finished => Inserted(before, src, at)
    case Stopped(k) => Overwritten(before, if k <= |src| then src[..k] else src, at)
    case Dropped => before[..at] + src
  }

  // ---------------------------------------------------------------- where an insertion can fail

  /** The memory may end after `k` elements: an old one is to be saved, the buffer is full, or the rest is. */
  predicate MayStop(z: Sizes, capacity: nat, k: nat) {
    || (k < z.m && z.at + k < z.n)
    || (k < z.m && capacity <= z.at + k)
    || (k == z.m && 0 < z.m && z.at + z.m < z.n)
  }

  predicate MayDrop(z: Sizes, capacity: nat) {
    z.at < z.n && 0 < z.m && capacity < z.n + z.m
  }

  predicate MayEnd(z: Sizes, capacity: nat, ending: Ending) {
    match ending
    case Finished => true
    case Stopped(k) => MayStop(z, capacity, k)
    case Dropped => MayDrop(z, capacity)
  }

  /** Whatever the allocator answers, an insertion ends in one of these ways. */
  lemma {:induction false} EndsThere(z: Sizes, first: nat, k: nat, capacity: nat, spare: nat, answers: seq<bool>)
    requires k <= z.m && z.at <= z.n && first <= capacity
    ensures MayEnd(z, first, Inserting(z, k, capacity, spare, answers).ending)
    decreases z.m - k, if z.at + k < capacity then 0 else 1
  {
    if k == z.m {
    } else if z.at + k < capacity {
      var saved := if z.at + k < z.n then Room(k + 1, spare, answers) else Grant(true, spare, answers);
      EndsThere(z, first, k + 1, capacity, saved.capacity, saved.answers);
    } else {
      var grown := Room(z.at + k + 1, capacity, answers);
      if grown.ok {
        EndsThere(z, first, k, grown.capacity, spare, grown.answers);
      }
    }
  }

  /** Answers to `r` requests, each of which is refused twice the memory and granted what it needs; no more. */
  function ExactGrants(r: nat): seq<bool> {
    if r == 0 then [] else [false, true] + ExactGrants(r - 1)
  }

  lemma ExactGrant(needed: nat, capacity: nat, r: nat)
    requires capacity < needed
    ensures Room(needed, capacity, ExactGrants(r)) ==
            if r == 0 then Grant(false, capacity, []) else Grant(true, needed, ExactGrants(r - 1))
  {
    if r != 0 {
      assert ExactGrants(r)[1..] == [true] + ExactGrants(r - 1);
      assert ([true] + ExactGrants(r - 1))[1..] == ExactGrants(r - 1);
    }
  }

  function Min(a: nat, b: nat): nat {
    if a < b then a else b
  }

  function Max(a: nat, b: nat): nat {
    if a < b then b else a
  }

  /** The requests that the first `k` elements take under exact grants. */
  function Requests(z: Sizes, capacity: nat, k: nat): nat
    requires z.at <= z.n
  {
    Min(k, z.n - z.at) + Max(capacity, z.at + k) - capacity
  }

  /** An old element is saved under an exact grant. */
  lemma ExactSave(z: Sizes, k: nat, held: nat, more: nat)
    requires k < z.m && z.at + k < z.n <= held
    ensures Inserting(z, k, held, k, ExactGrants(more + 1)) == Inserting(z, k + 1, held, k + 1, ExactGrants(more))
  {
    ExactGrant(k + 1, k, more + 1);
  }

  /** A new element finds room behind the old ones. */
  lemma FreeStep(z: Sizes, k: nat, held: nat, spare: nat, answers: seq<bool>)
    requires k < z.m && z.at <= z.n <= z.at + k < held
    ensures Inserting(z, k, held, spare, answers) == Inserting(z, k + 1, held, spare, answers)
  {
  }

  /** The buffer grows by one element under an exact grant. */
  lemma ExactGrowth(z: Sizes, k: nat, spare: nat, more: nat)
    requires k < z.m && z.at <= z.n <= z.at + k
    ensures Inserting(z, k, z.at + k, spare, ExactGrants(more + 1)) ==
            Inserting(z, k + 1, z.at + k + 1, spare, ExactGrants(more))
  {
    ExactGrant(z.at + k + 1, z.at + k, more + 1);
    FreeStep(z, k, z.at + k + 1, spare, ExactGrants(more));
  }

  lemma RequestsStep(z: Sizes, capacity: nat, k: nat)
    requires z.at <= z.n <= capacity
    ensures Requests(z, capacity, k + 1) ==
            Requests(z, capacity, k) + if z.at + k < z.n || capacity <= z.at + k then 1 else 0
  {
  }

  /** After the requests for the first `k` elements have been granted exactly. */
  ghost predicate ExactSoFar(z: Sizes, capacity: nat, k: nat, more: nat)
    requires k <= z.m && z.at <= z.n
  {
    Insertion(z, capacity, ExactGrants(Requests(z, capacity, k) + more)) ==
    Inserting(z, k, Max(capacity, z.at + k), Min(k, z.n - z.at), ExactGrants(more))
  }

  lemma ExactBegins(z: Sizes, capacity: nat, more: nat)
    requires z.at <= z.n <= capacity
    ensures ExactSoFar(z, capacity, 0, more)
  {
    assert Requests(z, capacity, 0) == 0;
  }

  lemma ExactSoFarSaves(z: Sizes, capacity: nat, k: nat, more: nat)
    requires k < z.m && z.at <= z.n <= capacity && z.at + k < z.n && ExactSoFar(z, capacity, k, more + 1)
    ensures ExactSoFar(z, capacity, k + 1, more)
  {
    RequestsStep(z, capacity, k);
    ExactSave(z, k, capacity, more);
  }

  lemma ExactSoFarFills(z: Sizes, capacity: nat, k: nat, more: nat)
    requires k < z.m && z.n <= z.at + k < capacity && z.at <= z.n && ExactSoFar(z, capacity, k, more)
    ensures ExactSoFar(z, capacity, k + 1, more)
  {
    RequestsStep(z, capacity, k);
    FreeStep(z, k, capacity, z.n - z.at, ExactGrants(more));
  }

  lemma ExactSoFarGrows(z: Sizes, capacity: nat, k: nat, more: nat)
    requires k < z.m && z.at <= z.n <= capacity <= z.at + k && ExactSoFar(z, capacity, k, more + 1)
    ensures ExactSoFar(z, capacity, k + 1, more)
  {
    RequestsStep(z, capacity, k);
    ExactGrowth(z, k, z.n - z.at, more);
  }

  /** Under exact grants every saved element and every new one beyond the capacity takes a request. */
  lemma {:induction false} ExactCourse(z: Sizes, capacity: nat, k: nat, more: nat)
    requires k <= z.m && z.at <= z.n <= capacity
    ensures ExactSoFar(z, capacity, k, more)
    decreases k
  {
    if k == 0 {
      ExactBegins(z, capacity, more);
    } else {
      var i, next := k - 1, more + 1;
      if z.at + i < z.n {
        ExactCourse(z, capacity, i, next);
        ExactSoFarSaves(z, capacity, i, more);
      } else if z.at + i < capacity {
        ExactCourse(z, capacity, i, more);
        ExactSoFarFills(z, capacity, i, more);
      } else {
        ExactCourse(z, capacity, i, next);
        ExactSoFarGrows(z, capacity, i, more);
      }
    }
  }

  /** Every place where an insertion may stop is reached: by a refusal after as many exact grants as it takes. */
  lemma StopIsReached(z: Sizes, capacity: nat, k: nat)
    requires z.at <= z.n <= capacity && MayStop(z, capacity, k)
    ensures Insertion(z, capacity, ExactGrants(Requests(z, capacity, k))).ending == Stopped(k)
  {
    ExactCourse(z, capacity, k, 0);
    if k == z.m {
      ExactGrant(z.n - z.at, k, 0);
    } else if z.at + k < z.n {
      ExactGrant(k + 1, k, 0);
    } else {
      ExactGrant(z.at + k + 1, z.at + k, 0);
    }
  }

  /** And so is the loss of the tail. */
  lemma DropIsReached(z: Sizes, capacity: nat)
    requires z.at <= z.n <= capacity && MayDrop(z, capacity)
    ensures exists answers :: Insertion(z, capacity, answers).ending == Dropped
  {
    var held, spare := Max(capacity, z.at + z.m), Min(z.m, z.n - z.at);
    var more := if z.at + z.m < z.n then 1 else 0;
    ExactCourse(z, capacity, z.m, more);
    if z.at + z.m < z.n {
      ExactGrant(z.n - z.at, spare, more);
    }
    ExactGrant(z.n + z.m, held, 0);
    assert Insertion(z, capacity, ExactGrants(Requests(z, capacity, z.m) + more)).ending == Dropped;
  }

  /** Overwriting changes nothing exactly when the same elements stood there. */
  lemma OverwritingKeepsIff<T>(before: seq<T>, x: seq<T>, at: nat)
    requires at <= |before|
    ensures Overwritten(before, x, at) == before <==> at + |x| <= |before| && before[at..at + |x|] == x
  {
    var after := Overwritten(before, x, at);
    assert after[at..at + |x|] == x;
    if at + |x| <= |before| && before[at..at + |x|] == x {
      assert before == before[..at] + before[at..at + |x|] + before[at + |x|..];
    }
  }

  /** The contents change in none of these ways: the elements that would be left are those that stand there. */
  predicate Harmless<T(==)>(before: seq<T>, src: seq<T>, at: nat, capacity: nat)
    requires at <= |before|
  {
    var z := Sizes(|before|, |src|, at);
    && (forall k | 0 <= k <= |src| && MayStop(z, capacity, k) ::
          at + k <= |before| && before[at..at + k] == src[..k])
    && (MayDrop(z, capacity) ==> src == before[at..])
  }

  lemma LeftIsSameIff<T>(before: seq<T>, src: seq<T>, at: nat, ending: Ending)
    requires at <= |before| && (ending.Stopped? ==> ending.k <= |src|)
    ensures ending.Stopped? ==>
              (Left(before, src, at, ending) == before <==>
               at + ending.k <= |before| && before[at..at + ending.k] == src[..ending.k])
    ensures ending.Dropped? ==> (Left(before, src, at, ending) == before <==> src == before[at..])
  {
    if ending.Stopped? {
      OverwritingKeepsIff(before, src[..ending.k], at);
    }
    assert before == before[..at] + before[at..];
    assert (before[..at] + src)[at..] == src;
  }

  ghost predicate FailuresKeep<T>(before: seq<T>, src: seq<T>, at: nat, capacity: nat)
    requires at <= |before|
  {
    forall answers ::
      var ending := Insertion(Sizes(|before|, |src|, at), capacity, answers).ending;
      ending != Finished ==> Left(before, src, at, ending) == before
  }

  /** No failure of the allocator changes the contents exactly when none of the possible endings would. */
  lemma FailuresKeepIff<T>(before: seq<T>, src: seq<T>, at: nat, capacity: nat)
    requires at <= |before| <= capacity
    ensures FailuresKeep(before, src, at, capacity) <==> Harmless(before, src, at, capacity)
  {
    var z := Sizes(|before|, |src|, at);
    if Harmless(before, src, at, capacity) {
      forall answers
        ensures var ending := Insertion(z, capacity, answers).ending;
                ending != Finished ==> Left(before, src, at, ending) == before
      {
        EndsThere(z, capacity, 0, capacity, 0, answers);
        LeftIsSameIff(before, src, at, Insertion(z, capacity, answers).ending);
      }
    }
    if FailuresKeep(before, src, at, capacity) {
      forall k | 0 <= k <= |src| && MayStop(z, capacity, k)
        ensures at + k <= |before| && before[at..at + k] == src[..k]
      {
        StopIsReached(z, capacity, k);
        LeftIsSameIff(before, src, at, Stopped(k));
      }
      if MayDrop(z, capacity) {
        DropIsReached(z, capacity);
        LeftIsSameIff(before, src, at, Dropped);
      }
    }
  }

  lemma NothingSpilled<T>(before: seq<T>, src: seq<T>, at: nat, contents: seq<T>, saved: seq<T>)
    requires at <= |before| && Spilled(before, src, at, |src|, contents, saved) && saved == []
    ensures contents == Inserted(before, src, at)
  {
    assert src[..|src|] == src;
    assert src == [] || at == |before|;
  }

  /** The allocator: what it will answer to the requests to come. */
  class Memory {
    var answers: seq<bool>

    constructor (answers: seq<bool>)
      ensures this.answers == answers
    {
      this.answers := answers;
    }

    /** allocateStrict: memory of exactly `n` elements, or none. */
    method AllocateStrict<T(0)>(n: nat) returns (p: array?<T>)
      modifies this
      ensures Grant(p != null, if p != null then n else 0, answers) == Answered(n, 0, old(answers))
      ensures p != null ==> fresh(p) && p.Length == n
    {
      if answers == [] {
        return null;
      }
      var granted := answers[0];
      answers := answers[1..];
      if !granted {
        return null;
      }
      p := new T[n];
    }

    /** StrategicAllocationManager::allocateImpl: twice as much as asked for, else what was asked for. */
    method Allocate<T(0)>(n: nat) returns (p: array?<T>, granted: nat)
      requires 0 < n
      modifies this
      ensures Grant(p != null, granted, answers) == Room(n, 0, old(answers))
      ensures p != null ==> fresh(p) && p.Length == granted
    {
      granted := 2 * n;
      p := AllocateStrict(granted);
      if p == null {
        granted := n;
        p := AllocateStrict(granted);
      }
      if p == null {
        granted := 0;
      }
    }
  }

  class Vector<T(0)> {
    const memory: Memory
    var buffer: array<T>
    var size: nat
    var capacity: nat
    /** How many elements reallocations have moved so far. */
    ghost var moved: nat

    ghost predicate Valid()
      reads this
    {
      size <= capacity == buffer.Length
    }

    ghost function Contents(): (s: seq<T>)
      reads this, buffer
      requires Valid()
    {
      buffer[..size]
    }

    constructor (memory: Memory)
      ensures this.memory == memory
      ensures Valid() && fresh(buffer) && Contents() == [] && capacity == 0 && moved == 0
    {
      this.memory := memory;
      buffer := new T[0];
      size, capacity, moved := 0, 0, 0;
    }

    method ReserveInternal(n: nat, strict: bool) returns (status: Status)
      requires Valid()
      modifies this, memory
      ensures Valid() && Contents() == old(Contents()) && (buffer == old(buffer) || fresh(buffer))
      ensures status == NoError || status == ErrorNoMemory
      ensures Grant(status == NoError, capacity, memory.answers) ==
              if strict then ExactRoom(n, old(capacity), old(memory.answers))
              else Room(n, old(capacity), old(memory.answers))
      ensures n <= old(capacity) || status != NoError ==> buffer == old(buffer) && moved == old(moved)
      ensures old(capacity) < n && status == NoError ==> moved == old(moved) + size
    {
      if n > capacity {
        var p: array?<T>;
        var granted := n;
        if strict {
          p := memory.AllocateStrict(n);
        } else {
          p, granted := memory.Allocate(n);
        }
        if p == null {
          return ErrorNoMemory;
        }
        GrownPrefix(p[..], buffer[..size]);
        CopyElements(p, 0, buffer[..size]);
        assert p[..][..size] == p[..size];
        buffer, capacity := p, granted;
        moved := moved + size;
      }
      return NoError;
    }

    /** memcpy and memmove: `s` is what the source held before. */
    method CopyElements(p: array<T>, at: nat, s: seq<T>)
      requires at + |s| <= p.Length
      modifies p
      ensures p[..] == Spliced(old(p[..]), at, s)
    {
      forall i | 0 <= i < |s| {
        p[at + i] := s[i];
      }
    }

    method Reserve(n: nat) returns (status: Status)
      requires Valid()
      modifies this, memory
      ensures Valid() && Contents() == old(Contents()) && (buffer == old(buffer) || fresh(buffer))
      ensures status == NoError || status == ErrorNoMemory
      ensures Grant(status == NoError, capacity, memory.answers) ==
              ExactRoom(n, old(capacity), old(memory.answers))
      ensures status == ErrorNoMemory <==>
              old(capacity) < n && (old(memory.answers) == [] || !old(memory.answers)[0])
      ensures capacity == if old(capacity) < n && status == NoError then n else old(capacity)
      ensures memory.answers == if n <= old(capacity) || old(memory.answers) == [] then old(memory.answers)
                                else old(memory.answers)[1..]
    {
      status := ReserveInternal(n, true);
    }

    method AddSpaceIfNeed(n: nat) returns (status: Status)
      requires Valid()
      modifies this, memory
      ensures Valid() && Contents() == old(Contents()) && (buffer == old(buffer) || fresh(buffer))
      ensures status == NoError || status == ErrorNoMemory
      ensures Grant(status == NoError, capacity, memory.answers) ==
              Room(size + n, old(capacity), old(memory.answers))
      ensures size + n <= old(capacity) || status != NoError ==> buffer == old(buffer) && moved == old(moved)
      ensures old(capacity) < size + n && status == NoError ==> moved == old(moved) + size
    {
      if size + n > capacity {
        status := ReserveInternal(size + n, false);
      } else {
        status := NoError;
      }
    }

    method PushBackN(p: Source<T>, n: nat) returns (status: Status)
      requires Valid() && (p.Elements? ==> n <= |p.items|)
      modifies this, buffer, memory
      ensures Valid() && (buffer == old(buffer) || fresh(buffer))
      ensures status == ErrorInvalidArgument <==> p.NullPointer? && n != 0
      ensures status == NoError || status == ErrorInvalidArgument || status == ErrorNoMemory
      ensures status != ErrorInvalidArgument ==>
                Grant(status == NoError, capacity, memory.answers) ==
                Room(old(size) + n, old(capacity), old(memory.answers))
      ensures status == ErrorInvalidArgument ==>
                capacity == old(capacity) && memory.answers == old(memory.answers)
      ensures status != NoError ==> Contents() == old(Contents()) && moved == old(moved)
      ensures status == NoError ==> Contents() == old(Contents()) + if p.Elements? then p.items[..n] else []
      ensures status == NoError ==> GrownBy(old(size), old(capacity), old(moved), n, capacity, moved)
    {
      if p.NullPointer? && n != 0 {
        return ErrorInvalidArgument;
      }
      status := AddSpaceIfNeed(n);
      if status != NoError {
        return;
      }
      var s := if p.Elements? then p.items[..n] else [];
      AppendedInPlace(buffer[..], size, s);
      assert buffer[..][..size] == buffer[..size];
      CopyElements(buffer, size, s);
      size := size + n;
      assert buffer[..][..size] == buffer[..size];
    }

    method PushBack(value: T) returns (status: Status)
      requires Valid()
      modifies this, buffer, memory
      ensures Valid() && (buffer == old(buffer) || fresh(buffer))
      ensures status == NoError || status == ErrorNoMemory
      ensures Grant(status == NoError, capacity, memory.answers) ==
              Room(old(size) + 1, old(capacity), old(memory.answers))
      ensures Contents() == old(Contents()) + if status == NoError then [value] else []
      ensures status != NoError ==> moved == old(moved)
      ensures status == NoError ==> GrownBy(old(size), old(capacity), old(moved), 1, capacity, moved)
    {
      status := AddSpaceIfNeed(1);
      if status != NoError {
        return;
      }
      ghost var before := Contents();
      buffer[size] := value;
      size := size + 1;
      assert Contents() == before + [value];
    }

    /** replace: never leaves a gap, grows when the new elements reach beyond the end. */
    method Replace(p: Source<T>, n: nat, offset: nat) returns (status: Status, newOffset: nat)
      requires Valid() && (p.Elements? ==> n <= |p.items|)
      modifies this, buffer, memory
      ensures Valid() && (buffer == old(buffer) || fresh(buffer))
      ensures status == ErrorInvalidArgument <==> p.NullPointer? && n != 0
      ensures status == ErrorOverflow <==> !(p.NullPointer? && n != 0) && old(size) < offset
      ensures status == NoError || status == ErrorInvalidArgument || status == ErrorOverflow || status == ErrorNoMemory
      ensures status != NoError ==> Contents() == old(Contents())
      ensures status == NoError || status == ErrorNoMemory ==>
                Grant(status == NoError, capacity, memory.answers) ==
                Room(if offset + n > old(size) then offset + n else old(size), old(capacity), old(memory.answers))
      ensures status == ErrorInvalidArgument || status == ErrorOverflow ==>
                capacity == old(capacity) && memory.answers == old(memory.answers)
      ensures status == NoError ==>
                && Contents() == Overwritten(old(Contents()), if p.Elements? then p.items[..n] else [], offset)
                && newOffset == offset + n
    {
      newOffset := 0;
      if p.NullPointer? && n != 0 {
        return ErrorInvalidArgument, newOffset;
      }
      if offset > size {
        return ErrorOverflow, newOffset;
      }
      var s := if p.Elements? then p.items[..n] else [];
      ghost var before := Contents();
      var newSize := if offset + n > size then offset + n else size;
      if newSize > capacity {
        var newP, granted := memory.Allocate(newSize);
        if newP == null {
          return ErrorNoMemory, newOffset;
        }
        ReplacedGrown(newP[..], before, s, offset);
        assert buffer[..offset] == before[..offset];
        CopyElements(newP, 0, buffer[..offset]);
        CopyElements(newP, offset, s);
        moved := moved + offset;
        buffer, capacity := newP, granted;
      } else {
        ReplacedInPlace(buffer[..], size, s, offset);
        assert buffer[..][..size] == before;
        CopyElements(buffer, offset, s);
      }
      size := newSize;
      newOffset := offset + n;
      assert buffer[..][..size] == buffer[..size];
      status := NoError;
    }

    method Insert(p: Source<T>, n: nat, offset: nat) returns (status: Status, newOffset: nat)
      requires Valid() && (p.Elements? ==> n <= |p.items|)
      modifies this, buffer, memory
      ensures Valid() && (buffer == old(buffer) || fresh(buffer))
      ensures status == ErrorInvalidArgument <==> p.NullPointer? && n != 0
      ensures status == ErrorOverflow <==> !(p.NullPointer? && n != 0) && old(size) < offset
      ensures status == NoError || status == ErrorInvalidArgument || status == ErrorOverflow || status == ErrorNoMemory
      ensures status != NoError ==> Contents() == old(Contents())
      ensures status == NoError || status == ErrorNoMemory ==>
                Grant(status == NoError, capacity, memory.answers) ==
                Room(old(size) + n, old(capacity), old(memory.answers))
      ensures status == ErrorInvalidArgument || status == ErrorOverflow ==>
                capacity == old(capacity) && memory.answers == old(memory.answers)
      ensures status == NoError ==>
                && Contents() == Inserted(old(Contents()), if p.Elements? then p.items[..n] else [], offset)
                && newOffset == offset + n
    {
      newOffset := 0;
      if p.NullPointer? && n != 0 {
        return ErrorInvalidArgument, newOffset;
      }
      if offset > size {
        return ErrorOverflow, newOffset;
      }
      var s := if p.Elements? then p.items[..n] else [];
      ghost var before := Contents();
      var newSize := size + n;
      if newSize > capacity {
        status := InsertGrown(s, offset, newSize);
        if status != NoError {
          return;
        }
      } else if newSize > size {
        InsertInPlace(s, offset);
      } else {
        assert s == [] && Inserted(before, s, offset) == before;
      }
      size := newSize;
      newOffset := offset + n;
      assert buffer[..][..size] == buffer[..size];
      status := NoError;
    }

    /** The elements and the new ones between them move to new memory; the size is not set yet. */
    method InsertGrown(s: seq<T>, offset: nat, newSize: nat) returns (status: Status)
      requires Valid() && offset <= size && newSize == size + |s| && capacity < newSize
      modifies this, memory
      ensures Valid() && (if status == NoError then fresh(buffer) else buffer == old(buffer)) && size == old(size)
      ensures status == NoError || status == ErrorNoMemory
      ensures Grant(status == NoError, capacity, memory.answers) ==
              Room(newSize, old(capacity), old(memory.answers))
      ensures status == NoError ==>
                newSize <= buffer.Length && buffer[..newSize] == Inserted(old(Contents()), s, offset)
    {
      var newP, granted := memory.Allocate(newSize);
      if newP == null {
        return ErrorNoMemory;
      }
      ghost var before := Contents();
      InsertedGrown(newP[..], before, s, offset);
      assert buffer[..offset] == before[..offset] && buffer[offset..size] == before[offset..];
      CopyElements(newP, 0, buffer[..offset]);
      CopyElements(newP, offset, s);
      CopyElements(newP, offset + |s|, buffer[offset..size]);
      moved := moved + size;
      buffer, capacity := newP, granted;
      assert buffer[..][..newSize] == buffer[..newSize];
      status := NoError;
    }

    /**
      * insert of an iterator range in a single pass: elements in the way are saved in a temporary vector, the
      * buffer grows in the middle of the loop, and what has been saved follows at the end.
      */
    method InsertRange(src: seq<T>, destBegin: nat) returns (status: Status, destEnd: nat)
      requires Valid()
      modifies this, buffer, memory
      ensures Valid() && (buffer == old(buffer) || fresh(buffer))
      ensures status == ErrorOverflow <==> old(size) < destBegin
      ensures status == ErrorOverflow ==>
                Contents() == old(Contents()) && capacity == old(capacity) && memory.answers == old(memory.answers)
      ensures status == NoError || status == ErrorOverflow || status == ErrorNoMemory
      ensures destBegin <= old(size) ==>
                var course := Insertion(Sizes(old(size), |src|, destBegin), old(capacity), old(memory.answers));
                && (status == NoError <==> course.ending == Finished)
                && Contents() == Left(old(Contents()), src, destBegin, course.ending)
                && capacity == course.capacity && memory.answers == course.answers
      ensures status == NoError ==> destEnd == destBegin + |src|
    {
      destEnd := destBegin;
      if size < destBegin {
        return ErrorOverflow, destEnd;
      }
      ghost var before, z := Contents(), Sizes(size, |src|, destBegin);
      var temp := new Vector<T>(memory);
      var oldSize := size;
      status, destEnd := SpillAll(temp, src, destBegin, z);
      if status != NoError {
        return;
      }
      if temp.size != 0 {
        RestSaved(before, src, destBegin, Contents(), temp.Contents());
        status := Reattach(temp, before, src, z, oldSize, destEnd);
      } else {
        NothingSpilled(before, src, destBegin, Contents(), temp.Contents());
      }
    }

    /** The course of an insertion goes on from here. */
    ghost predicate OnCourse(temp: Vector<T>, z: Sizes, k: nat, course: Course)
      reads this, temp, memory
    {
      k <= z.m && z.at <= z.n && course == Inserting(z, k, capacity, temp.capacity, memory.answers)
    }

    /** The loop over the range; it grows the buffer when it meets its end. */
    method SpillAll(temp: Vector<T>, src: seq<T>, destBegin: nat, ghost z: Sizes) returns (status: Status, destEnd: nat)
      requires Valid() && destBegin <= size && z == Sizes(size, |src|, destBegin)
      requires temp.Valid() && temp != this && temp.buffer != buffer && temp.memory == memory
      requires temp.Contents() == [] && temp.capacity == 0
      modifies this, buffer, temp, temp.buffer, memory
      ensures Valid() && temp.Valid() && (buffer == old(buffer) || fresh(buffer))
      ensures (temp.buffer == old(temp.buffer) || fresh(temp.buffer))
      ensures temp.buffer != buffer
      ensures status == NoError || status == ErrorNoMemory
      ensures var course := Insertion(z, old(capacity), old(memory.answers));
              if status == NoError then
                && course == Closing(z, capacity, temp.capacity, memory.answers)
                && destEnd == destBegin + |src|
                && Spilled(old(Contents()), src, destBegin, |src|, Contents(), temp.Contents())
              else
                Ends(old(Contents()), src, z, course)
    {
      ghost var before, course := Contents(), Insertion(z, capacity, memory.answers);
      var k := 0;
      destEnd := destBegin;
      assert Spilled(before, src, destBegin, 0, Contents(), temp.Contents());
      while k < |src|
        invariant k <= |src| && destEnd == destBegin + k
        invariant Valid() && temp.Valid() && (buffer == old(buffer) || fresh(buffer))
        invariant temp.buffer != buffer && (temp.buffer == old(temp.buffer) || fresh(temp.buffer))
        invariant Spilled(before, src, destBegin, k, Contents(), temp.Contents())
        invariant OnCourse(temp, z, k, course)
        decreases |src| - k, if destEnd < capacity then 0 else 1
      {
        if destEnd < capacity {
          status := SpillOne(temp, before, src, z, k, destEnd, course);
          if status != NoError {
            return;
          }
          k, destEnd := k + 1, destEnd + 1;
        } else {
          status := GrowByOne(temp, before, src, z, k, destEnd, course);
          if status != NoError {
            return;
          }
        }
      }
      status := NoError;
    }

    /** The buffer is full in the middle of an insertion. */
    method GrowByOne(temp: Vector<T>, ghost before: seq<T>, ghost src: seq<T>, ghost z: Sizes, ghost k: nat, at: nat,
                     ghost course: Course) returns (status: Status)
      requires Valid() && temp.Valid() && temp != this && temp.buffer != buffer
      requires z.at <= |before| && z == Sizes(|before|, |src|, z.at) && k < |src| && z.at + k == at == capacity
      requires Contents() == Overwritten(before, src[..k], z.at) && OnCourse(temp, z, k, course)
      modifies this, memory
      ensures Valid() && Contents() == old(Contents()) && (buffer == old(buffer) || fresh(buffer))
      ensures status == NoError || status == ErrorNoMemory
      ensures status == NoError ==> at < capacity && OnCourse(temp, z, k, course)
      ensures status == ErrorNoMemory ==> Ends(before, src, z, course)
    {
      status := ReserveInternal(at + 1, false);
    }

    /** An insertion that has ended for want of memory. */
    ghost predicate Ends(before: seq<T>, src: seq<T>, z: Sizes, course: Course)
      reads this, buffer, memory
      requires Valid() && z.at <= |before|
    {
      && course.ending != Finished && capacity == course.capacity && memory.answers == course.answers
      && Contents() == Left(before, src, z.at, course.ending)
    }

    /** One element of the range takes its place; the one that stood there is saved. */
    method SpillOne(temp: Vector<T>, ghost before: seq<T>, src: seq<T>, ghost z: Sizes, k: nat, at: nat,
                    ghost course: Course) returns (status: Status)
      requires Valid() && temp.Valid() && temp != this && temp.buffer != buffer && temp.memory == memory
      requires z.at <= |before| && z == Sizes(|before|, |src|, z.at) && k < |src| && z.at + k == at < capacity
      requires Spilled(before, src, z.at, k, Contents(), temp.Contents()) && OnCourse(temp, z, k, course)
      modifies this`size, buffer, temp, temp.buffer, memory
      ensures Valid() && temp.Valid() && (temp.buffer == old(temp.buffer) || fresh(temp.buffer))
      ensures status == NoError || status == ErrorNoMemory
      ensures status == NoError ==>
                Spilled(before, src, z.at, k + 1, Contents(), temp.Contents()) && OnCourse(temp, z, k + 1, course)
      ensures status == ErrorNoMemory ==> Ends(before, src, z, course)
    {
      ghost var current, saved := Contents(), temp.Contents();
      if size > at {
        SavesNext(before, src, z.at, k, current, saved);
        status := temp.PushBack(buffer[at]);
        if status != NoError {
          return;
        }
      }
      assert Contents() == current;
      buffer[at] := src[k];
      if size == at {
        size := at + 1;
      }
      assert Contents() == if at < |current| then current[at := src[k]] else current + [src[k]];
      SpillsNext(before, src, z.at, k, current, Contents());
      status := NoError;
    }

    /** The end of an insertion that has saved elements: they and the rest of the old ones follow the new ones. */
    method Reattach(temp: Vector<T>, ghost before: seq<T>, ghost src: seq<T>, ghost z: Sizes, oldSize: nat,
                    destEnd: nat) returns (status: Status)
      requires Valid() && temp.Valid() && temp != this && temp.buffer != buffer && temp.memory == memory
      requires z == Sizes(|before|, |src|, z.at) && z.at <= |before| == oldSize && destEnd == z.at + |src|
      requires 0 < z.m && z.at < z.n && Contents() == Overwritten(before, src, z.at)
      requires size == (if destEnd < oldSize then oldSize else destEnd) && Contents()[..destEnd] == before[..z.at] + src
      requires temp.Contents() + Contents()[destEnd..] == before[z.at..]
      modifies this, buffer, temp, temp.buffer, memory
      ensures Valid() && (buffer == old(buffer) || fresh(buffer))
      ensures status == NoError || status == ErrorNoMemory
      ensures var course := Closing(z, old(capacity), old(temp.capacity), old(memory.answers));
              && (status == NoError <==> course.ending == Finished)
              && Contents() == Left(before, src, z.at, course.ending)
              && capacity == course.capacity && memory.answers == course.answers
    {
      ghost var course := Closing(z, capacity, temp.capacity, memory.answers);
      if oldSize > destEnd {
        status := SaveRest(temp, before, z, destEnd, oldSize);
        if status != NoError {
          assert course == Course(Stopped(|src|), capacity, memory.answers) && src[..|src|] == src;
          return;
        }
      } else {
        assert Contents()[destEnd..] == [] && temp.Contents() + [] == temp.Contents();
      }
      assert course == Following(z, capacity, memory.answers);
      status := Finish(temp, before, src, z, destEnd);
    }

    /** What stands behind the new elements is dropped, and all that was saved follows. */
    method Finish(temp: Vector<T>, ghost before: seq<T>, ghost src: seq<T>, ghost z: Sizes, destEnd: nat)
        returns (status: Status)
      requires Valid() && temp.Valid() && temp != this && temp.buffer != buffer && z.at <= |before|
      requires destEnd == z.at + |src| <= size && Contents()[..destEnd] == before[..z.at] + src
      requires temp.Contents() == before[z.at..]
      modifies this, buffer, memory
      ensures Valid() && (buffer == old(buffer) || fresh(buffer))
      ensures status == NoError || status == ErrorNoMemory
      ensures Grant(status == NoError, capacity, memory.answers) ==
              Room(|before| + |src|, old(capacity), old(memory.answers))
      ensures Contents() == if status == NoError then Inserted(before, src, z.at) else before[..z.at] + src
    {
      ghost var current := Contents();
      size := destEnd;
      assert Contents() == current[..destEnd];
      status := Follow(temp.buffer[..temp.size]);
    }

    /** The old elements that no new one has replaced are saved behind those that have made way. */
    method SaveRest(temp: Vector<T>, ghost before: seq<T>, ghost z: Sizes, destEnd: nat, oldSize: nat)
        returns (status: Status)
      requires Valid() && temp.Valid() && temp != this && temp.buffer != buffer && temp.memory == memory
      requires destEnd <= oldSize == size && z.at <= |before|
      requires temp.Contents() + Contents()[destEnd..] == before[z.at..]
      modifies temp, temp.buffer, memory
      ensures temp.Valid() && (temp.buffer == old(temp.buffer) || fresh(temp.buffer))
      ensures Contents() == old(Contents())
      ensures status == NoError || status == ErrorNoMemory
      ensures Grant(status == NoError, temp.capacity, memory.answers) ==
              Room(|before| - z.at, old(temp.capacity), old(memory.answers))
      ensures status == NoError ==> temp.Contents() == before[z.at..]
    {
      assert buffer[destEnd..oldSize] == Contents()[destEnd..];
      var rest := Elements(buffer[destEnd..oldSize]);
      assert rest.items[..oldSize - destEnd] == rest.items;
      assert |temp.Contents() + rest.items| == |before| - z.at;
      status := temp.PushBackN(rest, oldSize - destEnd);
    }

    /** The saved elements follow what the vector holds. */
    method Follow(saved: seq<T>) returns (status: Status)
      requires Valid()
      modifies this, buffer, memory
      ensures Valid() && (buffer == old(buffer) || fresh(buffer))
      ensures status == NoError || status == ErrorNoMemory
      ensures Grant(status == NoError, capacity, memory.answers) ==
              Room(old(size) + |saved|, old(capacity), old(memory.answers))
      ensures Contents() == old(Contents()) + if status == NoError then saved else []
    {
      ghost var before := Contents();
      status := AddSpaceIfNeed(|saved|);
      if status != NoError {
        return;
      }
      AppendedInPlace(buffer[..], size, saved);
      assert buffer[..][..size] == before;
      CopyElements(buffer, size, saved);
      size := size + |saved|;
      assert buffer[..][..size] == buffer[..size];
    }

    /** The elements from `offset` on make way, in the same buffer. */
    method InsertInPlace(s: seq<T>, offset: nat)
      requires Valid() && offset <= size && size + |s| <= capacity
      modifies buffer
      ensures buffer[..][..size + |s|] == Inserted(old(Contents()), s, offset)
    {
      InsertedInPlace(buffer[..], size, s, offset);
      assert buffer[..][offset..size] == buffer[offset..size] && buffer[..][..size] == buffer[..size];
      if offset != size {
        CopyElements(buffer, offset + |s|, buffer[offset..size]);
      } else {
        assert Spliced(buffer[..], offset + |s|, buffer[offset..size]) == buffer[..];
      }
      CopyElements(buffer, offset, s);
    }
  }

  // ---------------------------------------------------------------- growth

  /** The capacity after `n` more elements, and the moves that took. */
  ghost predicate GrownBy(size: nat, capacity: nat, moved: nat, n: nat, newCapacity: nat, newMoved: nat) {
    if size + n <= capacity
    then newCapacity == capacity && newMoved == moved
    else (newCapacity == size + n || newCapacity == 2 * (size + n)) && newMoved == moved + size
  }

  /** Sizes, capacities and moves along a run of pushes whose doubling allocations all succeed. */
  datatype Growth = Growth(size: nat, capacity: nat, moved: nat)

  function Pushed(g: Growth, n: nat): Growth {
    if g.size + n <= g.capacity
    then g.(size := g.size + n)
    else Growth(g.size + n, 2 * (g.size + n), g.moved + g.size)
  }

  function PushedAll(g: Growth, run: seq<nat>): Growth
    decreases |run|
  {
    if run == [] then g else PushedAll(Pushed(g, run[0]), run[1..])
  }

  ghost predicate Grew(g: Growth, n: nat, h: Growth) {
    h.size == g.size + n && GrownBy(g.size, g.capacity, g.moved, n, h.capacity, h.moved)
  }

  /** A push that was granted twice what it needed, if it needed more memory at all. */
  ghost predicate Doubles(g: Growth, n: nat, h: Growth) {
    Grew(g, n, h) && (g.size + n <= g.capacity || h.capacity == 2 * h.size)
  }

  lemma DoublesIsPushed(g: Growth, n: nat, h: Growth)
    ensures Doubles(g, n, h) <==> h == Pushed(g, n)
  {
  }

  /** Over any run the elements moved stay below the capacity, and that below twice the size. */
  lemma {:induction false} GrowthIsAmortized(g: Growth, run: seq<nat>)
    requires g.moved <= g.capacity <= 2 * g.size
    ensures var h := PushedAll(g, run); h.moved <= h.capacity <= 2 * h.size
    decreases |run|
  {
    if run != [] {
      GrowthIsAmortized(Pushed(g, run[0]), run[1..]);
    }
  }

  lemma {:induction false} PushedAllAppend(g: Growth, run: seq<nat>, n: nat)
    ensures PushedAll(g, run + [n]) == Pushed(PushedAll(g, run), n)
    decreases |run|
  {
    if run == [] {
      assert [n][1..] == [];
    } else {
      assert (run + [n])[1..] == run[1..] + [n];
      PushedAllAppend(Pushed(g, run[0]), run[1..], n);
    }
  }

  function Flat<T>(run: seq<seq<T>>): seq<T> {
    if run == [] then [] else Flat(run[..|run| - 1]) + run[|run| - 1]
  }

  function Lengths<T>(run: seq<seq<T>>): (ns: seq<nat>)
    ensures |ns| == |run|
  {
    seq(|run|, i requires 0 <= i < |run| => |run[i]|)
  }

  lemma OneMore<T>(run: seq<seq<T>>, k: nat)
    requires k < |run|
    ensures Flat(run[..k + 1]) == Flat(run[..k]) + run[k]
    ensures Lengths(run[..k + 1]) == Lengths(run[..k]) + [|run[k]|]
  {
    assert run[..k + 1][..k] == run[..k];
  }

  ghost function GrowthOf<T(0)>(v: Vector<T>): Growth
    reads v
  {
    Growth(v.size, v.capacity, v.moved)
  }

  /** Every step of a run was granted twice what it needed. */
  ghost predicate AllDouble<T>(steps: seq<Growth>, run: seq<seq<T>>)
  {
    |steps| == |run| + 1 && forall i | 0 <= i < |run| :: Doubles(steps[i], |run[i]|, steps[i + 1])
  }

  /** The next `n` requests are granted. */
  predicate AllGranted(answers: seq<bool>, n: nat) {
    n <= |answers| && forall i | 0 <= i < n :: answers[i]
  }

  lemma GrantDoubles(needed: nat, capacity: nat, answers: seq<bool>, n: nat)
    requires AllGranted(answers, n) && 0 < n
    ensures var room := Room(needed, capacity, answers);
            room.ok && AllGranted(room.answers, n - 1) && (capacity < needed ==> room.capacity == 2 * needed)
  {
  }

  /** One push of a run. */
  method PushNext<T(0)>(v: Vector<T>, x: seq<T>, ghost generous: bool, ghost n: nat) returns (status: Status)
    requires v.Valid() && 0 < n && (generous ==> AllGranted(v.memory.answers, n))
    modifies v, v.buffer, v.memory
    ensures v.Valid() && (v.buffer == old(v.buffer) || fresh(v.buffer))
    ensures status == NoError || status == ErrorNoMemory
    ensures status == NoError ==>
              v.Contents() == old(v.Contents()) + x && Grew(old(GrowthOf(v)), |x|, GrowthOf(v))
    ensures generous ==>
              && status == NoError && AllGranted(v.memory.answers, n - 1)
              && Doubles(old(GrowthOf(v)), |x|, GrowthOf(v))
  {
    if generous {
      GrantDoubles(v.size + |x|, v.capacity, v.memory.answers, n);
    }
    assert x[..|x|] == x;
    status := v.PushBackN(Elements(x), |x|);
  }

  /**
    * Any run of pushes on a new vector: as long as the doubled requests are granted, the elements moved by all
    * reallocations together stay below the capacity, and that below twice the size.
    */
  method PushRun<T(0)>(v: Vector<T>, run: seq<seq<T>>) returns (status: Status, ghost steps: seq<Growth>)
    requires v.Valid() && v.Contents() == [] && v.capacity == 0 && v.moved == 0
    modifies v, v.buffer, v.memory
    ensures v.Valid()
    ensures status == NoError || status == ErrorNoMemory
    ensures AllGranted(old(v.memory.answers), |run|) ==> status == NoError && AllDouble(steps, run)
    ensures status == NoError ==> v.Contents() == Flat(run)
    ensures |steps| <= |run| + 1 && (status == NoError ==> |steps| == |run| + 1)
    ensures status == NoError ==>
              && steps[0] == Growth(0, 0, 0) && steps[|run|] == GrowthOf(v)
              && forall i | 0 <= i < |run| :: Grew(steps[i], |run[i]|, steps[i + 1])
    ensures status == NoError && AllDouble(steps, run) ==>
              && GrowthOf(v) == PushedAll(Growth(0, 0, 0), Lengths(run))
              && v.moved <= v.capacity <= 2 * v.size
  {
    steps := [GrowthOf(v)];
    ghost var generous := AllGranted(v.memory.answers, |run|);
    for k := 0 to |run|
      invariant v.Valid() && (v.buffer == old(v.buffer) || fresh(v.buffer))
      invariant v.Contents() == Flat(run[..k])
      invariant |steps| == k + 1 && steps[0] == Growth(0, 0, 0) && steps[k] == GrowthOf(v)
      invariant forall i | 0 <= i < k :: Grew(steps[i], |run[i]|, steps[i + 1])
      invariant generous ==> AllGranted(v.memory.answers, |run| - k)
      invariant generous ==> forall i | 0 <= i < k :: Doubles(steps[i], |run[i]|, steps[i + 1])
    {
      OneMore(run, k);
      status := PushNext(v, run[k], generous, |run| - k);
      if status != NoError {
        return;
      }
      steps := steps + [GrowthOf(v)];
    }
    assert run[..|run|] == run;
    status := NoError;
    if AllDouble(steps, run) {
      DoublingRun(steps, run, |run|);
      GrowthIsAmortized(Growth(0, 0, 0), Lengths(run));
    }
  }

  lemma {:induction false} DoublingRun<T>(steps: seq<Growth>, run: seq<seq<T>>, k: nat)
    requires k <= |run| && |steps| == |run| + 1 && AllDouble(steps, run)
    ensures steps[k] == PushedAll(steps[0], Lengths(run[..k]))
  {
    if k != 0 {
      DoublingRun(steps, run, k - 1);
      OneMore(run, k - 1);
      DoublesIsPushed(steps[k - 1], |run[k - 1]|, steps[k]);
      PushedAllAppend(steps[0], Lengths(run[..k - 1]), |run[k - 1]|);
    }
  }
}
