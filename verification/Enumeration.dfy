/** Reading the object-list, whole or in index chunks, and the snapshot a load
    publishes (varcache.go). */
module Enumeration {
  import opened Octets
  import opened Values
  import opened Metadata

  // ----- the object-list

  const ARRAY_INDEX_CLASS: uint32 := 2
  const INVALID_ARRAY_INDEX: uint32 := 42

  /** From this length on the 32-bit chunk counter passes 2^32. */
  const FIRST_WRAPPING_LENGTH: nat := 0x1_0000_0000 - 45

  const LAST_UINT32: nat := 0xFFFF_FFFF

  /** The source's uint32 addition. */
  function Add32(a: nat, b: nat): uint32 { (a + b) % 0x1_0000_0000 }

  /** A truthful device: index 0 is the length, then come the elements. */
  function Element(dev: Device, i: nat): Reply<seq<Value>>
    requires |dev.objectList| < 0x1_0000_0000_0000_0000
  {
    if i == 0 then Got([UnsignedInt(|dev.objectList|)])
    else if i <= |dev.objectList| then Got([dev.objectList[i - 1]])
    else Failed(DeviceError(ARRAY_INDEX_CLASS, INVALID_ARRAY_INDEX))
  }

  predicate Countable(dev: Device) { |dev.objectList| < 0x1_0000_0000_0000_0000 }

  /** The elements of one ReadPropertyMultiple reply; any error among them is the outcome. */
  function Collect(dev: Device, start: nat, end: nat): Reply<seq<Value>>
    requires Countable(dev)
    decreases end + 1 - start
  {
    if start > end then Got([])
    else
      var v := Element(dev, start);
      if v.Failed? then v
      else
        var rest := Collect(dev, start + 1, end);
        if rest.Failed? then rest else Got(v.value + rest.value)
  }

  function ReadSingles(env: Env, dev: Device, l: Progress, start: nat, end: nat): (Reply<seq<Value>>, Progress)
    requires Countable(dev)
    decreases end + 1 - start
  {
    if start > end then (Got([]), l)
    else
      var (v, l1) := ReadProperty(env, l, Element(dev, start));
      if v.Failed? then (v, l1)
      else
        var (rest, l2) := ReadSingles(env, dev, l1, start + 1, end);
        (if rest.Failed? then rest else Got(v.value + rest.value), l2)
  }

  /** readIndexes */
  function ReadIndexes(env: Env, dev: Device, l: Progress, start: nat, end: nat): (Reply<seq<Value>>, Progress)
    requires Countable(dev)
  {
    if l.noRPM then ReadSingles(env, dev, l, start, end)
    else
      var (f, l1) := ReadMultiple(env, l);
      if f.None? then (Collect(dev, start, end), l1)
      else
        var (again, l2) := NoteRPMFailure(env, l1, f.value);
        if !again then (Failed(f.value), l2) else ReadSingles(env, dev, l2, start, end)
  }

  /** NeverEnds: the loop can end only with an error. */
  datatype Listing = Listed(values: seq<Value>) | Unlisted(failure: Failure) | NeverEnds

  /** Chunks start at 1, 51, 101, ...; each time the counter passes 2^32 the
      starts move up by 4, to 5, 55, ..., and so on up to 45, 95, ... */
  predicate ChunkStart(start: nat) { start % INDEX_CHUNK % 4 == 1 && start % INDEX_CHUNK <= 45 }

  /** The first start of this pass whose chunk passes 2^32. */
  function Boundary(start: nat): nat { 0x1_0000_0000 - 46 + start % INDEX_CHUNK }

  lemma ChunkRemainder(x: nat, q: nat, r: nat)
    requires x == q * INDEX_CHUNK + r && r < INDEX_CHUNK
    ensures x % INDEX_CHUNK == r
  {
  }

  lemma NextStart(start: nat)
    requires ChunkStart(start) && start <= LAST_UINT32
    ensures start < Boundary(start) ==>
      && Add32(start, INDEX_CHUNK) == start + INDEX_CHUNK <= Boundary(start)
      && Add32(start, INDEX_CHUNK - 1) == start + INDEX_CHUNK - 1
      && ChunkStart(start + INDEX_CHUNK) && (start + INDEX_CHUNK) % INDEX_CHUNK == start % INDEX_CHUNK
      && Boundary(start + INDEX_CHUNK) == Boundary(start)
    ensures start >= Boundary(start) ==>
      && start == Boundary(start)
      && Add32(start, INDEX_CHUNK) == start % INDEX_CHUNK + 4
      && Add32(start, INDEX_CHUNK - 1) == start % INDEX_CHUNK + 3
      && (start < LAST_UINT32 ==> ChunkStart(start % INDEX_CHUNK + 4))
      && (start < LAST_UINT32 ==> (start % INDEX_CHUNK + 4) % INDEX_CHUNK == start % INDEX_CHUNK + 4)
  {
    var q, r := start / INDEX_CHUNK, start % INDEX_CHUNK;
    assert start == q * INDEX_CHUNK + r && Boundary(start) == 85899345 * INDEX_CHUNK + r;
    ChunkRemainder(start + INDEX_CHUNK, q + 1, r);
    if r <= 41 { ChunkRemainder(r + 4, 0, r + 4); }
  }

  /** The chunk loop from start up to n, in 32-bit arithmetic. With n the largest
      32-bit number its guard holds of every start. */
  function ReadRange(env: Env, dev: Device, l: Progress, start: nat, n: uint32): (Listing, Progress)
    requires Countable(dev) && ChunkStart(start) && start <= LAST_UINT32
    decreases 45 - start % INDEX_CHUNK, n as int + 1 - start
  {
    if n == LAST_UINT32 then (NeverEnds, l)
    else if start > n then (Listed([]), l)
    else
      NextStart(start);
      var end := if Add32(start, INDEX_CHUNK - 1) < n then Add32(start, INDEX_CHUNK - 1) else n;
      var (chunk, l1) := ReadIndexes(env, dev, l, start, end);
      if chunk.Failed? then (Unlisted(chunk.failure), l1)
      else
        var (rest, l2) := ReadRange(env, dev, l1, Add32(start, INDEX_CHUNK), n);
        (if rest.Listed? then Listed(chunk.value + rest.values) else rest, l2)
  }

  /** readObjectList */
  function ReadObjectList(env: Env, dev: Device, l: Progress): (Listing, Progress)
    requires Countable(dev)
  {
    var (whole, l1) := ReadProperty(env, l, Got(dev.objectList));
    if whole.Got? then (Listed(whole.value), l1)
    else
      var (again, l2) := RetryPiecewise(env, l1, whole.failure);
      if !again then (Unlisted(whole.failure), l2)
      else
        var (length, l3) := ReadProperty(env, l2, Element(dev, 0));
        if length.Failed? then (Unlisted(length.failure), l3)
        else if |length.value| != 1 || !length.value[0].UnsignedInt? then (Unlisted(BadLength), l3)
        else ReadRange(env, dev, l3, 1, length.value[0].u % 0x1_0000_0000)
  }

  // ----- the chunks partition the list

  lemma {:induction false} CollectElements(dev: Device, start: nat, end: nat)
    requires Countable(dev) && 0 < start <= end + 1 <= |dev.objectList| + 1
    ensures Collect(dev, start, end) == Got(dev.objectList[start - 1..end])
    decreases end + 1 - start
  {
    if start <= end {
      CollectElements(dev, start + 1, end);
      assert dev.objectList[start - 1..end] == [dev.objectList[start - 1]] + dev.objectList[start..end];
    } else {
      assert dev.objectList[start - 1..end] == [];
    }
  }

  lemma {:induction false} ReadSinglesElements(env: Env, dev: Device, l: Progress, start: nat, end: nat)
    requires Countable(dev) && 0 < start <= end + 1 <= |dev.objectList| + 1
    ensures var (r, l') := ReadSingles(env, dev, l, start, end);
            && (r.Got? ==> r.value == dev.objectList[start - 1..end]) && l'.t >= l.t
            && (ReadsWork(env, l.t) ==> r.Got?)
    decreases end + 1 - start
  {
    if start <= end {
      ReadSinglesElements(env, dev, ReadProperty(env, l, Element(dev, start)).1, start + 1, end);
      assert dev.objectList[start - 1..end] == [dev.objectList[start - 1]] + dev.objectList[start..end];
    } else {
      assert dev.objectList[start - 1..end] == [];
    }
  }

  lemma ReadIndexesElements(env: Env, dev: Device, l: Progress, start: nat, end: nat)
    requires Countable(dev) && 0 < start <= end + 1 <= |dev.objectList| + 1
    ensures var (r, l') := ReadIndexes(env, dev, l, start, end);
            && (r.Got? ==> r.value == dev.objectList[start - 1..end]) && l'.t >= l.t
            && (ReadsWork(env, l.t) && RPMsRecover(env, l.t) ==> r.Got?)
  {
    hide Collect, ReadSingles, Element;
    CollectElements(dev, start, end);
    ReadSinglesElements(env, dev, l, start, end);
    if !l.noRPM && ReadMultiple(env, l).0.Some? {
      var (f, l1) := ReadMultiple(env, l);
      ReadSinglesElements(env, dev, NoteRPMFailure(env, l1, f.value).1, start, end);
    }
  }

  /** A failed ReadPropertyMultiple after which smaller reads may succeed. */
  predicate Recoverable(f: Failure) { f.Abort? || f.Timeout? || f == Reject(9) }

  /** From a moment on, ReadPropertyMultiple fails in no other way. */
  ghost predicate RPMsRecover(env: Env, start: nat) {
    forall t :: t >= start && env.rpm(t).Some? ==> Recoverable(env.rpm(t).value)
  }

  /** Pass k starts at 4k + 1; the first start of it whose chunk passes 2^32. */
  function PassEnd(k: nat): nat { 0x1_0000_0000 - 45 + 4 * k }

  /** What the loop lists from a start of pass k on: the elements up to n or, where
      the counter wraps first, up to the end of the pass, and then another pass. */
  function Passes(dev: Device, k: nat, start: nat, n: nat): seq<Value>
    requires 0 < start && n <= |dev.objectList| && n < LAST_UINT32
    decreases LAST_UINT32 - 4 * k
  {
    if start > n then []
    else if n < PassEnd(k) then dev.objectList[start - 1..n]
    else
      (if start < PassEnd(k) then dev.objectList[start - 1..PassEnd(k) - 1] else [])
      + Passes(dev, k + 1, 4 * k + 5, n)
  }

  lemma SplitSlice(list: seq<Value>, a: nat, m: nat, b: nat)
    requires a <= m <= b <= |list|
    ensures list[a..b] == list[a..m] + list[m..b]
  {
  }

  /** A chunk that ends within the pass leaves the rest of the pass to go. */
  lemma ChunkOfPass(dev: Device, k: nat, start: nat, n: nat)
    requires 0 < start <= n <= |dev.objectList| && n < LAST_UINT32 && start + INDEX_CHUNK <= PassEnd(k)
    ensures var end := if start + INDEX_CHUNK - 1 < n then start + INDEX_CHUNK - 1 else n;
            Passes(dev, k, start, n) == dev.objectList[start - 1..end] + Passes(dev, k, start + INDEX_CHUNK, n)
  {
    var next := start + INDEX_CHUNK;
    if next <= n {
      SplitSlice(dev.objectList, start - 1, next - 1, if n < PassEnd(k) then n else PassEnd(k) - 1);
    }
  }

  /** Starts of pass k, and what follows them. */
  predicate InPass(k: nat, start: nat) { k <= 11 && start % INDEX_CHUNK == 4 * k + 1 && start <= LAST_UINT32 }

  lemma NextInPass(k: nat, start: nat)
    requires InPass(k, start)
    ensures ChunkStart(start)
    ensures start < PassEnd(k) ==>
      && Add32(start, INDEX_CHUNK) == start + INDEX_CHUNK <= PassEnd(k)
      && Add32(start, INDEX_CHUNK - 1) == start + INDEX_CHUNK - 1 && InPass(k, start + INDEX_CHUNK)
    ensures start >= PassEnd(k) ==>
      && start == PassEnd(k) && Add32(start, INDEX_CHUNK) == 4 * k + 5 && Add32(start, INDEX_CHUNK - 1) == 4 * k + 4
      && (k < 11 ==> InPass(k + 1, 4 * k + 5))
  {
    NextStart(start);
  }

  /** One turn of the chunk loop. */
  lemma ReadRangeStep(env: Env, dev: Device, l: Progress, start: nat, next: nat, end: nat, n: uint32)
    requires Countable(dev) && n < LAST_UINT32 && start <= n && ChunkStart(start) && ChunkStart(next)
    requires Add32(start, INDEX_CHUNK) == next && next <= LAST_UINT32
    requires end == if Add32(start, INDEX_CHUNK - 1) < n then Add32(start, INDEX_CHUNK - 1) else n
    ensures var (chunk, l1) := ReadIndexes(env, dev, l, start, end);
            ReadRange(env, dev, l, start, n)
            == if chunk.Failed? then (Unlisted(chunk.failure), l1)
               else
                 var (rest, l2) := ReadRange(env, dev, l1, next, n);
                 (if rest.Listed? then Listed(chunk.value + rest.values) else rest, l2)
  {
    hide ReadIndexes, Add32, ChunkStart;
  }

  lemma ReadRangeStops(env: Env, dev: Device, l: Progress, k: nat, start: nat, n: uint32)
    requires Countable(dev) && n <= |dev.objectList| && n < LAST_UINT32 && n < start <= LAST_UINT32 && ChunkStart(start)
    ensures ReadRange(env, dev, l, start, n) == (Listed([]), l) && Passes(dev, k, start, n) == []
  {
    hide ChunkStart;
  }

  lemma PassOver(dev: Device, k: nat, n: nat)
    requires PassEnd(k) <= n <= |dev.objectList| && n < LAST_UINT32
    ensures Passes(dev, k, PassEnd(k), n) == Passes(dev, k + 1, 4 * k + 5, n)
  {
  }

  /** Where the rest of the list is read from, after the chunk from start on. */
  function NextPass(k: nat, start: nat): nat { if start < PassEnd(k) then k else k + 1 }

  function NextOf(k: nat, start: nat): nat { if start < PassEnd(k) then start + INDEX_CHUNK else 4 * k + 5 }

  function EndOf(k: nat, start: nat, n: nat): nat {
    if start >= PassEnd(k) then 4 * k + 4 else if start + INDEX_CHUNK - 1 < n then start + INDEX_CHUNK - 1 else n
  }

  /** What one chunk contributes to the passes. */
  lemma ChunkElements(env: Env, dev: Device, l: Progress, k: nat, start: nat, n: nat)
    requires Countable(dev) && 0 < start <= n <= |dev.objectList| && n < LAST_UINT32 && k <= 11
    requires start + INDEX_CHUNK <= PassEnd(k) || start == PassEnd(k)
    ensures var (r, l') := ReadIndexes(env, dev, l, start, EndOf(k, start, n));
            && (r.Got? ==> Passes(dev, k, start, n) == r.value + Passes(dev, NextPass(k, start), NextOf(k, start), n))
            && l'.t >= l.t && (ReadsWork(env, l.t) && RPMsRecover(env, l.t) ==> r.Got?)
  {
    hide ReadIndexes, Passes, RPMsRecover, ReadsWork;
    if start < PassEnd(k) {
      ReadIndexesElements(env, dev, l, start, EndOf(k, start, n));
      ChunkOfPass(dev, k, start, n);
    } else {
      EmptyChunk(env, dev, l, start, EndOf(k, start, n));
      PassOver(dev, k, n);
      assert [] + Passes(dev, k + 1, 4 * k + 5, n) == Passes(dev, k + 1, 4 * k + 5, n);
    }
  }

  /** Under every pattern of failures, a list that is returned is the passes'; and
      one is returned unless a single read fails, the context expires, or a
      ReadPropertyMultiple fails in a way that smaller reads cannot mend. */
  lemma {:induction false} ReadRangeElements(env: Env, dev: Device, l: Progress, k: nat, start: nat, n: nat)
    requires Countable(dev) && n <= |dev.objectList| && n < LAST_UINT32 && InPass(k, start) && ChunkStart(start)
    ensures var (r, _) := ReadRange(env, dev, l, start, n);
            && !r.NeverEnds? && (r.Listed? ==> r.values == Passes(dev, k, start, n))
            && (ReadsWork(env, l.t) && RPMsRecover(env, l.t) ==> r.Listed?)
    decreases 11 - k, n + 1 - start
  {
    if start > n {
      ReadRangeStops(env, dev, l, k, start, n);
    } else {
      NextInPass(k, start);
      hide Add32, InPass, ChunkStart, ReadIndexes, ReadRange, Passes;
      var next, end := NextOf(k, start), EndOf(k, start, n);
      assert InPass(NextPass(k, start), next);
      NextInPass(NextPass(k, start), next);
      ReadRangeStep(env, dev, l, start, next, end, n);
      ChunkElements(env, dev, l, k, start, n);
      var (chunk, l1) := ReadIndexes(env, dev, l, start, end);
      if chunk.Got? { ReadRangeElements(env, dev, l1, NextPass(k, start), next, n); }
    }
  }

  lemma EmptyChunk(env: Env, dev: Device, l: Progress, start: nat, end: nat)
    requires Countable(dev) && start > end
    ensures var (r, l') := ReadIndexes(env, dev, l, start, end);
            && (r.Got? ==> r.value == []) && l'.t >= l.t
            && (ReadsWork(env, l.t) && RPMsRecover(env, l.t) ==> r.Got?)
  {
  }

  /** How often the counter wraps on the way through pass k to n. */
  function Wraps(k: nat, n: nat): nat { if n < PassEnd(k) then 0 else (n - PassEnd(k)) / 4 + 1 }

  /** Each wrap lists all but 50 of 2^32 elements once more. */
  lemma {:induction false} PassesLength(dev: Device, k: nat, start: nat, n: nat)
    requires 0 < start <= n <= |dev.objectList| && n < LAST_UINT32 && start <= PassEnd(k)
    ensures |Passes(dev, k, start, n)| == n + 1 - start + Wraps(k, n) * (0x1_0000_0000 - 50)
    ensures Wraps(k, n) <= 11
    decreases LAST_UINT32 - 4 * k
  {
    if n >= PassEnd(k) {
      PassesLength(dev, k + 1, 4 * k + 5, n);
      assert Wraps(k, n) == Wraps(k + 1, n) + 1;
    }
  }

  predicate ExactOrError(r: Listing, dev: Device) { r.Unlisted? || r == Listed(dev.objectList) }

  ghost predicate AlwaysExact(dev: Device)
    requires Countable(dev)
  {
    forall env: Env, l: Progress :: ExactOrError(ReadObjectList(env, dev, l).0, dev)
  }

  /** The whole read aborts; everything else is answered. */
  function OnlyWholeReadFails(): Env {
    Env((t: nat) => None, (t: nat) => if t == 0 then Some(Abort(4)) else None, (t: nat) => false)
  }

  lemma ShortListIsExact(env: Env, dev: Device, l: Progress)
    requires |dev.objectList| < FIRST_WRAPPING_LENGTH
    ensures ExactOrError(ReadObjectList(env, dev, l).0, dev)
  {
    hide ReadRange;
    var (whole, l1) := ReadProperty(env, l, Got(dev.objectList));
    if whole.Failed? {
      var (length, l3) := ReadProperty(env, RetryPiecewise(env, l1, whole.failure).1, Element(dev, 0));
      ReadRangeElements(env, dev, l3, 0, 1, |dev.objectList|);
      assert dev.objectList[1 - 1..|dev.objectList|] == dev.objectList;
    }
  }

  /** What the piecewise read lists when everything in it is answered. */
  lemma PiecewiseLists(dev: Device)
    requires Countable(dev)
    ensures var n := |dev.objectList| % 0x1_0000_0000;
            ReadObjectList(OnlyWholeReadFails(), dev, Progress(false, 0, 0, 0)).0
            == if n == LAST_UINT32 then NeverEnds else Listed(Passes(dev, 0, 1, n))
  {
    hide ReadRange, Passes;
    var n := |dev.objectList| % 0x1_0000_0000;
    if n < LAST_UINT32 {
      ReadRangeElements(OnlyWholeReadFails(), dev, Progress(false, 3, 0, 2), 0, 1, n);
    } else {
      LongestNeverEnds(OnlyWholeReadFails(), dev, Progress(false, 3, 0, 2));
    }
  }

  lemma LongestNeverEnds(env: Env, dev: Device, l: Progress)
    requires Countable(dev)
    ensures ReadRange(env, dev, l, 1, LAST_UINT32).0 == NeverEnds
  {
  }

  lemma LongListIsNot(dev: Device)
    requires Countable(dev) && |dev.objectList| >= FIRST_WRAPPING_LENGTH
    ensures !ExactOrError(ReadObjectList(OnlyWholeReadFails(), dev, Progress(false, 0, 0, 0)).0, dev)
  {
    PiecewiseLists(dev);
    var n := |dev.objectList| % 0x1_0000_0000;
    if n < LAST_UINT32 { PassesAreAnother(dev, |dev.objectList|, n); }
    hide ReadObjectList, Passes, OnlyWholeReadFails;
  }

  lemma PassesAreAnother(dev: Device, len: nat, n: nat)
    requires len == |dev.objectList| >= FIRST_WRAPPING_LENGTH && n == len % 0x1_0000_0000 < LAST_UINT32
    ensures |Passes(dev, 0, 1, n)| != len
  {
    if n == 0 {
      NothingPassed(dev);
    } else {
      PassesLength(dev, 0, 1, n);
      WrapsFrom(n);
      hide Passes, Wraps;
      WrappedLength(len, Wraps(0, n));
    }
  }

  lemma WrappedLength(len: nat, w: nat)
    requires w <= 11 && (w == 0 ==> len >= 0x1_0000_0000)
    ensures len % 0x1_0000_0000 + w * (0x1_0000_0000 - 50) != len
  {
    assert len == len / 0x1_0000_0000 * 0x1_0000_0000 + len % 0x1_0000_0000;
  }

  lemma WrapsFrom(n: nat)
    ensures n >= FIRST_WRAPPING_LENGTH <==> Wraps(0, n) >= 1
  {
  }

  lemma NothingPassed(dev: Device)
    ensures Passes(dev, 0, 1, 0) == []
  {
  }

  /** The first lengths that wrap: the list comes back with all but its first four
      elements, short of a few, listed twice. */
  lemma WrongListAtTheLimit(dev: Device)
    requires FIRST_WRAPPING_LENGTH <= |dev.objectList| < FIRST_WRAPPING_LENGTH + 4
    ensures ReadObjectList(OnlyWholeReadFails(), dev, Progress(false, 0, 0, 0)).0
         == Listed(dev.objectList[..FIRST_WRAPPING_LENGTH - 1] + dev.objectList[4..])
  {
    PiecewiseLists(dev);
    hide ReadObjectList, OnlyWholeReadFails, Passes;
    PassesAtTheLimit(dev, |dev.objectList|);
  }

  lemma PassesAtTheLimit(dev: Device, n: nat)
    requires FIRST_WRAPPING_LENGTH <= n == |dev.objectList| < FIRST_WRAPPING_LENGTH + 4
    ensures Passes(dev, 0, 1, n) == dev.objectList[..FIRST_WRAPPING_LENGTH - 1] + dev.objectList[4..]
  {
    assert Passes(dev, 1, 5, n) == dev.objectList[4..n];
    assert Passes(dev, 0, 1, n) == dev.objectList[0..FIRST_WRAPPING_LENGTH - 1] + Passes(dev, 1, 5, n);
  }

  /** Whole or piecewise, by whichever mix of requests and under every pattern of
      failures, the answer is the device's object-list exactly and in order or an
      error -- if and only if the list is too short for the counter to wrap. */
  lemma ListIsExactIff(dev: Device)
    requires Countable(dev)
    ensures AlwaysExact(dev) <==> |dev.objectList| < FIRST_WRAPPING_LENGTH
  {
    hide ReadObjectList, ExactOrError;
    if |dev.objectList| < FIRST_WRAPPING_LENGTH {
      forall env: Env, l: Progress ensures ExactOrError(ReadObjectList(env, dev, l).0, dev) {
        ShortListIsExact(env, dev, l);
      }
    } else {
      LongListIsNot(dev);
    }
  }

  // ----- when the list is read in spite of failures

  /** A whole read that aborts or times out ends in the whole list all the same, if
      the context lives, single reads work from then on, and ReadPropertyMultiple
      works, aborts, times out, or is not supported -- at each moment as it likes. */
  lemma ListSurvivesFailures(env: Env, dev: Device, l: Progress)
    requires |dev.objectList| < FIRST_WRAPPING_LENGTH
    requires env.single(l.t).Some? && (env.single(l.t).value.Abort? || env.single(l.t).value.Timeout?)
    requires ReadsWork(env, l.t + 1) && RPMsRecover(env, l.t + 1)
    ensures ReadObjectList(env, dev, l).0 == Listed(dev.objectList)
    ensures ReadObjectList(env, dev, l).1.t > l.t
  {
    hide ReadRange;
    var n := |dev.objectList|;
    var l3 := Progress(l.noRPM, l.t + 3, l.rpms, l.singles + 2);
    ReadRangeElements(env, dev, l3, 0, 1, n);
    ReadRangeLater(env, dev, l3, 1, n);
    assert dev.objectList[1 - 1..n] == dev.objectList;
  }

  lemma {:induction false} ReadSinglesLater(env: Env, dev: Device, l: Progress, start: nat, end: nat)
    requires Countable(dev)
    ensures ReadSingles(env, dev, l, start, end).1.t >= l.t
    decreases end + 1 - start
  {
    if start <= end {
      ReadSinglesLater(env, dev, ReadProperty(env, l, Element(dev, start)).1, start + 1, end);
    }
  }

  lemma ReadIndexesLater(env: Env, dev: Device, l: Progress, start: nat, end: nat)
    requires Countable(dev)
    ensures ReadIndexes(env, dev, l, start, end).1.t >= l.t
  {
    hide ReadSingles, Collect;
    ReadSinglesLater(env, dev, l, start, end);
    if !l.noRPM && ReadMultiple(env, l).0.Some? {
      var (f, l1) := ReadMultiple(env, l);
      ReadSinglesLater(env, dev, NoteRPMFailure(env, l1, f.value).1, start, end);
    }
  }

  lemma {:induction false} ReadRangeLater(env: Env, dev: Device, l: Progress, start: nat, n: uint32)
    requires Countable(dev) && ChunkStart(start) && start <= LAST_UINT32
    ensures ReadRange(env, dev, l, start, n).1.t >= l.t
    decreases 45 - start % INDEX_CHUNK, n as int + 1 - start
  {
    if n < LAST_UINT32 && start <= n {
      NextStart(start);
      hide ReadIndexes, ChunkStart, Boundary, Add32;
      var end := if Add32(start, INDEX_CHUNK - 1) < n then Add32(start, INDEX_CHUNK - 1) else n;
      ReadIndexesLater(env, dev, l, start, end);
      var (chunk, l1) := ReadIndexes(env, dev, l, start, end);
      if chunk.Got? { ReadRangeLater(env, dev, l1, Add32(start, INDEX_CHUNK), n); }
    }
  }

  lemma ReadObjectListLater(env: Env, dev: Device, l: Progress)
    requires Countable(dev)
    ensures ReadObjectList(env, dev, l).1.t > l.t
  {
    hide ReadRange;
    var l3 := Progress(l.noRPM, l.t + 3, l.rpms, l.singles + 2);
    ReadRangeLater(env, dev, l3, 1, |dev.objectList| % 0x1_0000_0000);
  }

  /** Every other failure of the whole read is returned, and so is an expiry of the
      context right after it. */
  lemma OtherWholeFailures(env: Env, dev: Device, l: Progress)
    requires Countable(dev) && env.single(l.t).Some?
    requires !(env.single(l.t).value.Abort? || env.single(l.t).value.Timeout?) || env.expired(l.t + 1)
    ensures ReadObjectList(env, dev, l).0 == Unlisted(env.single(l.t).value)
  {
    hide ReadRange;
  }

  /** And so is every other failure of a chunk's ReadPropertyMultiple; a rejection of
      the service sends this and all later chunks to single reads, which fail the
      list with their own failures. */
  lemma ChunkMeaning(env: Env, dev: Device, l: Progress, start: nat, end: nat)
    requires Countable(dev) && 0 < start <= end <= |dev.objectList|
    ensures var (r, l') := ReadIndexes(env, dev, l, start, end);
            && (!l.noRPM && env.rpm(l.t) == None ==>
                  r == Got(dev.objectList[start - 1..end]) && l' == Progress(false, l.t + 1, l.rpms + 1, l.singles))
            && (!l.noRPM && env.rpm(l.t).Some? && !Recoverable(env.rpm(l.t).value) ==> r == Failed(env.rpm(l.t).value))
            && (!l.noRPM && env.rpm(l.t).Some? && env.rpm(l.t) != Some(Reject(9)) && env.expired(l.t + 1) ==>
                  r == Failed(env.rpm(l.t).value))
            && (l.noRPM && env.single(l.t).Some? ==> r == Failed(env.single(l.t).value))
            && (l'.noRPM <==> l.noRPM || env.rpm(l.t) == Some(Reject(9)))
            && l'.rpms == l.rpms + (if l.noRPM then 0 else 1)
  {
    CollectElements(dev, start, end);
    hide Collect;
    ReadSinglesFlag(env, dev, l, start, end);
    if !l.noRPM && env.rpm(l.t).Some? {
      var (f, l1) := ReadMultiple(env, l);
      ReadSinglesFlag(env, dev, NoteRPMFailure(env, l1, f.value).1, start, end);
    }
  }

  lemma {:induction false} ReadSinglesFlag(env: Env, dev: Device, l: Progress, start: nat, end: nat)
    requires Countable(dev)
    ensures var l' := ReadSingles(env, dev, l, start, end).1; l'.noRPM == l.noRPM && l'.rpms == l.rpms
    decreases end + 1 - start
  {
    if start <= end {
      ReadSinglesFlag(env, dev, ReadProperty(env, l, Element(dev, start)).1, start + 1, end);
    }
  }

  // ----- load

  datatype Snapshot = Snapshot(instance: uint32, vars: seq<Variable>, byID: map<ObjectIdentifier, Variable>)

  datatype Loaded = Published(snapshot: Snapshot) | NotLoaded(failure: Failure) | NeverLoads

  function ObjectsOf(list: seq<Value>): seq<Variable> {
    if list == [] then []
    else (if list[0].ObjectID? then [Variable(list[0].oid, [], [], [])] else []) + ObjectsOf(list[1..])
  }

  /** The metadata of all objects, RPM_CHUNK at a time. */
  function ReadChunks(env: Env, dev: Device, l: Progress, all: seq<Variable>): MetadataResult
    decreases |all|
  {
    if all == [] then (None, [], l)
    else
      var end := if RPM_CHUNK < |all| then RPM_CHUNK else |all|;
      var (e, chunk, l1) := ReadMetadata(env, dev, l, all[..end]);
      if e.Some? then (e, chunk + all[end..], l1)
      else
        var (e', rest, l2) := ReadChunks(env, dev, l1, all[end..]);
        (e', chunk + rest, l2)
  }

  /** Objects without a readable name are left out. */
  function Named(all: seq<Variable>): seq<Variable> {
    if all == [] then [] else (if all[0].name != [] then [all[0]] else []) + Named(all[1..])
  }

  function ById(vars: seq<Variable>): map<ObjectIdentifier, Variable> {
    if vars == [] then map[] else ById(vars[..|vars| - 1])[vars[|vars| - 1].obj := vars[|vars| - 1]]
  }

  /** load; who is the outcome of identifying the device. */
  function Load(env: Env, dev: Device, who: Reply<uint32>): Loaded
    requires Countable(dev)
  {
    if who.Failed? then NotLoaded(who.failure)
    else
      match ReadObjectList(env, dev, Progress(false, 0, 0, 0))
      case (NeverEnds, _) => NeverLoads
      case (Unlisted(failure), _) => NotLoaded(failure)
      case (Listed(list), l) =>
        match ReadChunks(env, dev, l, ObjectsOf(list))
        case (Some(failure), _, _) => NotLoaded(failure)
        case (None, all, _) => Published(Snapshot(who.value, Named(all), ById(Named(all))))
  }

  // ----- what a published snapshot is

  function Ids(vars: seq<Variable>): seq<ObjectIdentifier> {
    if vars == [] then [] else [vars[0].obj] + Ids(vars[1..])
  }

  predicate Subsequence<T(==)>(a: seq<T>, b: seq<T>) {
    a == [] || (b != [] && Subsequence(if a[0] == b[0] then a[1..] else a, b[1..]))
  }

  /** byID holds exactly the listed variables' identifiers, each with a listed variable of it. */
  predicate Indexes(byID: map<ObjectIdentifier, Variable>, vars: seq<Variable>) {
    && (forall o :: o in byID ==> byID[o] in vars && byID[o].obj == o)
    && (forall v :: v in vars ==> v.obj in byID)
  }

  /** Every variable carries the non-empty name that the device itself gives its object. */
  predicate TrulyNamed(dev: Device, vars: seq<Variable>) {
    forall v :: v in vars ==> v.name != [] && dev.property(v.obj, 77) == Got([CharacterString(v.name)])
  }

  /** What every published snapshot is, whatever the device answers: no empty name,
      and an index that agrees with the list. */
  predicate WellFormed(s: Snapshot) {
    (forall v :: v in s.vars ==> v.name != []) && Indexes(s.byID, s.vars)
  }

  lemma {:induction false} NamedHaveNames(all: seq<Variable>)
    ensures forall v :: v in Named(all) ==> v.name != [] && v in all
  {
    if all != [] { NamedHaveNames(all[1..]); }
  }

  lemma PublishedIsWellFormed(env: Env, dev: Device, who: Reply<uint32>)
    requires Countable(dev) && Load(env, dev, who).Published?
    ensures WellFormed(Load(env, dev, who).snapshot)
  {
    hide ReadObjectList, ReadChunks, Named, ById, Indexes;
    var (list, l) := ReadObjectList(env, dev, Progress(false, 0, 0, 0));
    var all := ReadChunks(env, dev, l, ObjectsOf(list.values)).1;
    NamedHaveNames(all);
    ByIdIndexes(Named(all));
  }

  lemma {:induction false} ReadChunksGenuine(env: Env, dev: Device, l: Progress, all: seq<Variable>)
    ensures AllGenuine(dev, all, ReadChunks(env, dev, l, all).1)
    decreases |all|
  {
    hide ReadMetadata, AllGenuine;
    UnchangedOrFilled(dev, all);
    if all != [] {
      var end := if RPM_CHUNK < |all| then RPM_CHUNK else |all|;
      var (e, chunk, l1) := ReadMetadata(env, dev, l, all[..end]);
      ReadMetadataOutcome(env, dev, l, all[..end]);
      UnchangedOrFilled(dev, all[end..]);
      ReadChunksGenuine(env, dev, l1, all[end..]);
      assert all == all[..end] + all[end..];
      JoinGenuine(dev, all[..end], all[end..], chunk, all[end..]);
      JoinGenuine(dev, all[..end], all[end..], chunk, ReadChunks(env, dev, l1, all[end..]).1);
    }
  }

  predicate Unread(all: seq<Variable>) { forall i :: 0 <= i < |all| ==> all[i].name == [] }

  lemma {:induction false} ObjectsUnread(list: seq<Value>)
    ensures Unread(ObjectsOf(list))
  {
    if list != [] { ObjectsUnread(list[1..]); }
  }

  lemma {:induction false} NamedIsGenuine(dev: Device, was: seq<Variable>, all: seq<Variable>)
    requires Unread(was) && AllGenuine(dev, was, all)
    ensures TrulyNamed(dev, Named(all)) && Subsequence(Ids(Named(all)), Ids(was))
  {
    if all != [] {
      assert Genuine(dev, was[0], all[0]);
      hide Genuine;
      NamedIsGenuine(dev, was[1..], all[1..]);
      assert Ids(was)[1..] == Ids(was[1..]);
      if all[0].name != [] {
        assert Named(all)[1..] == Named(all[1..]);
        assert Ids(Named(all))[1..] == Ids(Named(all[1..]));
      } else {
        assert Named(all) == Named(all[1..]);
        SubsequenceOfLonger(Ids(Named(all[1..])), Ids(was[1..]), was[0].obj);
      }
    }
  }

  lemma {:induction false} SubsequenceOfLonger<T>(a: seq<T>, b: seq<T>, x: T)
    requires Subsequence(a, b)
    ensures Subsequence(a, [x] + b)
  {
    assert ([x] + b)[1..] == b;
    if a != [] && a[0] == x {
      SubsequenceTail(a, b);
    }
  }

  lemma {:induction false} SubsequenceTail<T>(a: seq<T>, b: seq<T>)
    requires a != [] && Subsequence(a, b)
    ensures Subsequence(a[1..], b)
  {
    if a[0] == b[0] {
      if |a| > 1 && a[1] == b[0] { SubsequenceTail(a[1..], b[1..]); }
    } else {
      SubsequenceTail(a, b[1..]);
      if |a| > 1 && a[1] == b[0] { SubsequenceTail(a[1..], b[1..]); }
    }
  }

  lemma {:induction false} ByIdIndexes(vars: seq<Variable>)
    ensures Indexes(ById(vars), vars)
  {
    if vars != [] {
      ByIdIndexes(vars[..|vars| - 1]);
      assert vars == vars[..|vars| - 1] + [vars[|vars| - 1]];
    }
  }

  /** Under every pattern of failures, what a load publishes carries only names that
      the device itself gives (never an empty one), in object-list order, and its
      index agrees with its list. */
  lemma PublishedIsGenuine(env: Env, dev: Device, who: Reply<uint32>)
    requires |dev.objectList| < FIRST_WRAPPING_LENGTH && Load(env, dev, who).Published?
    ensures var s := Load(env, dev, who).snapshot;
            && who == Got(s.instance) && TrulyNamed(dev, s.vars) && Indexes(s.byID, s.vars)
            && Subsequence(Ids(s.vars), Ids(ObjectsOf(dev.objectList)))
  {
    hide ReadObjectList, ReadChunks, TrulyNamed, Indexes, Subsequence, Ids, Named, ById, AllGenuine, ObjectsOf, Unread;
    var (list, l) := ReadObjectList(env, dev, Progress(false, 0, 0, 0));
    ShortListIsExact(env, dev, Progress(false, 0, 0, 0));
    ReadChunksGenuine(env, dev, l, ObjectsOf(dev.objectList));
    var all := ReadChunks(env, dev, l, ObjectsOf(dev.objectList)).1;
    ObjectsUnread(dev.objectList);
    NamedIsGenuine(dev, ObjectsOf(dev.objectList), all);
    ByIdIndexes(Named(all));
  }

  // ----- completeness

  /** The objects of a list are those of its parts, in order; other values do not count. */
  lemma {:induction false} ObjectsConcat(a: seq<Value>, b: seq<Value>)
    ensures ObjectsOf(a + b) == ObjectsOf(a) + ObjectsOf(b)
    decreases |a|
  {
    if a == [] {
      assert a + b == b;
    } else {
      assert (a + b)[1..] == a[1..] + b;
      ObjectsConcat(a[1..], b);
    }
  }

  lemma ObjectsOne(v: Value)
    ensures Ids(ObjectsOf([v])) == match v case ObjectID(o) => [o] case _ => []
  {
    assert ObjectsOf([v][1..]) == [];
  }

  lemma {:induction false} ObjectsMembers(list: seq<Value>, o: ObjectIdentifier)
    ensures (exists v :: v in ObjectsOf(list) && v.obj == o) <==> ObjectID(o) in list
  {
    if list != [] {
      ObjectsMembers(list[1..], o);
      assert list == [list[0]] + list[1..];
      var first := if list[0].ObjectID? then [Variable(list[0].oid, [], [], [])] else [];
      assert ObjectsOf(list) == first + ObjectsOf(list[1..]);
      if list[0] == ObjectID(o) {
        assert ObjectsOf(list)[0].obj == o;
      } else if v :| v in ObjectsOf(list[1..]) && v.obj == o {
        assert v in ObjectsOf(list);
      }
    }
  }

  lemma {:induction false} ReadChunksNamesAll(env: Env, dev: Device, l: Progress, all: seq<Variable>)
    requires SinglesWork(env, l.t) && Distinct(all)
    ensures var (e, c, _) := ReadChunks(env, dev, l, all);
            (e.None? ==> AllNamed(dev, all, c)) && (ReadsWork(env, l.t) ==> e.None?)
    decreases |all|
  {
    hide ReadMetadata, ReadsWork, SinglesWork, AllNamed, Distinct;
    if all == [] {
      NothingToName(dev);
    } else {
      var end := if RPM_CHUNK < |all| then RPM_CHUNK else |all|;
      DistinctHalves(all, end);
      var (e, chunk, l1) := ReadMetadata(env, dev, l, all[..end]);
      PathIndependence(env, dev, l, all[..end]);
      StillWorks(env, dev, l, all[..end], l.t);
      ReadChunksNamesAll(env, dev, l1, all[end..]);
      var (e', rest, _) := ReadChunks(env, dev, l1, all[end..]);
      if e.None? && e'.None? { JoinNamed(dev, all[..end], all[end..], chunk, rest); }
    }
  }

  lemma NothingToName(dev: Device)
    ensures AllNamed(dev, [], [])
  {
  }

  predicate Lists(vars: seq<Variable>, o: ObjectIdentifier, name: Name) {
    exists i :: 0 <= i < |vars| && vars[i].obj == o && vars[i].name == name
  }

  lemma {:induction false} NamedLists(dev: Device, was: seq<Variable>, all: seq<Variable>,
                                      o: ObjectIdentifier, name: Name)
    requires Unread(was) && AllGenuine(dev, was, all) && AllNamed(dev, was, all)
    ensures Lists(Named(all), o, name)
       <==> name != [] && (exists v :: v in was && v.obj == o) && dev.property(o, 77) == Got([CharacterString(name)])
  {
    if all != [] {
      assert Genuine(dev, was[0], all[0]) && DirectlyNamed(dev, was[0], all[0]) && was[0].name == [];
      var first := if all[0].name != [] then [all[0]] else [];
      NamedLists(dev, was[1..], all[1..], o, name);
      assert was == [was[0]] + was[1..];
      assert all[0].obj == was[0].obj;
      assert was[0].obj == o && name != [] ==>
        (all[0].name == name <==> dev.property(o, 77) == Got([CharacterString(name)]));
      hide Genuine, DirectlyNamed;
      ListsConcat(first, Named(all[1..]), o, name);
      assert Lists(first, o, name) <==> name != [] && all[0].obj == o && all[0].name == name by {
        if name != [] && all[0].obj == o && all[0].name == name { assert first[0].obj == o; }
      }
      assert (exists v :: v in was && v.obj == o) <==> was[0].obj == o || exists v :: v in was[1..] && v.obj == o by {
        if v :| v in was[1..] && v.obj == o { assert v in was; }
        if was[0].obj == o { assert was[0] in was; }
      }
    }
  }

  lemma ListsConcat(a: seq<Variable>, b: seq<Variable>, o: ObjectIdentifier, name: Name)
    ensures Lists(a + b, o, name) <==> Lists(a, o, name) || Lists(b, o, name)
  {
    if i :| 0 <= i < |a| && a[i].obj == o && a[i].name == name { assert (a + b)[i].obj == o; }
    if i :| 0 <= i < |b| && b[i].obj == o && b[i].name == name { assert (a + b)[|a| + i].obj == o; }
  }

  /** What is published is complete even if the context expired meanwhile: as long as
      no single read fails after the list's, a load that publishes at all publishes
      exactly the objects of the list whose object-name is a non-empty string, under
      that name. ReadPropertyMultiple may fail in any way. */
  lemma PublishedIsWhole(env: Env, dev: Device, instance: uint32, o: ObjectIdentifier, name: Name)
    requires |dev.objectList| < FIRST_WRAPPING_LENGTH && Distinct(ObjectsOf(dev.objectList)) && SinglesWork(env, 1)
    requires Load(env, dev, Got(instance)).Published?
    ensures Load(env, dev, Got(instance)).snapshot.instance == instance
    ensures Lists(Load(env, dev, Got(instance)).snapshot.vars, o, name)
       <==> name != [] && ObjectID(o) in dev.objectList && dev.property(o, 77) == Got([CharacterString(name)])
  {
    var start := Progress(false, 0, 0, 0);
    ShortListIsExact(env, dev, start);
    ReadObjectListLater(env, dev, start);
    hide ReadObjectList, ReadChunks, Named, ById, AllGenuine, AllNamed, ObjectsOf, Unread, Lists, Distinct;
    var l := ReadObjectList(env, dev, start).1;
    assert SinglesWork(env, l.t);
    ReadChunksGenuine(env, dev, l, ObjectsOf(dev.objectList));
    ReadChunksNamesAll(env, dev, l, ObjectsOf(dev.objectList));
    ObjectsUnread(dev.objectList);
    ObjectsMembers(dev.objectList, o);
    NamedLists(dev, ObjectsOf(dev.objectList), ReadChunks(env, dev, l, ObjectsOf(dev.objectList)).1, o, name);
  }

  /** And it is published: if the whole list is read, or that fails only by an abort
      or a timeout and ReadPropertyMultiple then by nothing that smaller reads cannot
      mend, and if single reads work from then on and the context lives. */
  lemma PublishedIsComplete(env: Env, dev: Device, instance: uint32, o: ObjectIdentifier, name: Name)
    requires |dev.objectList| < FIRST_WRAPPING_LENGTH && Distinct(ObjectsOf(dev.objectList)) && ReadsWork(env, 1)
    requires env.single(0) == None
             || ((env.single(0).value.Abort? || env.single(0).value.Timeout?) && RPMsRecover(env, 1))
    ensures Load(env, dev, Got(instance)).Published?
    ensures Load(env, dev, Got(instance)).snapshot.instance == instance
    ensures Lists(Load(env, dev, Got(instance)).snapshot.vars, o, name)
       <==> name != [] && ObjectID(o) in dev.objectList && dev.property(o, 77) == Got([CharacterString(name)])
  {
    var start := Progress(false, 0, 0, 0);
    if env.single(0).Some? { ListSurvivesFailures(env, dev, start); }
    var (list, l) := ReadObjectList(env, dev, start);
    assert list == Listed(dev.objectList) && l.t >= 1;
    assert ReadsWork(env, l.t);
    hide ReadObjectList, ReadChunks, Named, ById, ObjectsOf, Lists, Distinct;
    ReadChunksNamesAll(env, dev, l, ObjectsOf(dev.objectList));
    PublishedIsWhole(env, dev, instance, o, name);
  }

  lemma {:induction false} ReadChunksError(env: Env, dev: Device, l: Progress, all: seq<Variable>)
    ensures ReadChunks(env, dev, l, all).0.Some? ==> exists t :: env.expired(t)
    decreases |all|
  {
    hide ReadMetadata, AllGenuine;
    if all != [] {
      var end := if RPM_CHUNK < |all| then RPM_CHUNK else |all|;
      ReadMetadataOutcome(env, dev, l, all[..end]);
      ReadChunksError(env, dev, ReadMetadata(env, dev, l, all[..end]).2, all[end..]);
    }
  }

  /** A load fails only with the failure of identifying the device or of reading its
      list, or when the context expired: one odd object never fails a device. */
  lemma LoadFailures(env: Env, dev: Device, who: Reply<uint32>)
    requires Countable(dev)
    ensures who.Failed? ==> Load(env, dev, who) == NotLoaded(who.failure)
    ensures var list := ReadObjectList(env, dev, Progress(false, 0, 0, 0)).0;
            && (who.Got? && list.Unlisted? ==> Load(env, dev, who) == NotLoaded(list.failure))
            && (who.Got? && list.Listed? && Load(env, dev, who).NotLoaded? ==> exists t :: env.expired(t))
  {
    hide ReadObjectList, ReadChunks, ObjectsOf, Named, ById;
    var (list, l) := ReadObjectList(env, dev, Progress(false, 0, 0, 0));
    if list.Listed? { ReadChunksError(env, dev, l, ObjectsOf(list.values)); }
  }
}
