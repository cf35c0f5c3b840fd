/** The loader as the source writes it (varcache.go): a sticky field, chunks filled
    in place through sub-ranges of one array, and loops -- each method proved to
    do what the functions of Metadata and Enumeration say. */
module Enumerator {
  import opened Octets
  import opened Values
  import opened Metadata
  import opened Enumeration

  type PropertyAnswer = (PropertyIdentifier, Reply<seq<Value>>)

  /** One ReadAccessResult: answers about properties of one object. */
  datatype AccessAnswer = AccessAnswer(obj: ObjectIdentifier, answers: seq<PropertyAnswer>)

  /** The switch of readMetadataRPM. */
  function Apply(v: Variable, a: PropertyAnswer): Variable {
    if a.1.Failed? then v
    else if a.0 == OBJECT_NAME then v.(name := CharString(a.1.value))
    else if a.0 == DESCRIPTION then v.(description := CharString(a.1.value))
    else if a.0 == UNITS then v.(units := a.1.value)
    else v
  }

  predicate Among(chunk: seq<Variable>, o: ObjectIdentifier) { exists i :: 0 <= i < |chunk| && chunk[i].obj == o }

  predicate Answered(results: seq<AccessAnswer>, o: ObjectIdentifier, p: PropertyIdentifier) {
    exists k, m :: 0 <= k < |results| && 0 <= m < |results[k].answers|
                   && results[k].obj == o && results[k].answers[m].0 == p
  }

  /** A truthful reply about the objects of a chunk: what it says about them is so,
      and it answers every property requested. Results and answers may come in any
      order, repeat, be split up, and concern other objects and properties too. */
  predicate Truthful(dev: Device, chunk: seq<Variable>, results: seq<AccessAnswer>) {
    && (forall k, m :: 0 <= k < |results| && 0 <= m < |results[k].answers| && Among(chunk, results[k].obj) ==>
          results[k].answers[m].1 == dev.property(results[k].obj, results[k].answers[m].0))
    && (forall i :: 0 <= i < |chunk| ==>
          && Answered(results, chunk[i].obj, OBJECT_NAME) && Answered(results, chunk[i].obj, DESCRIPTION)
          && Answered(results, chunk[i].obj, UNITS))
  }

  /** The reply of a device that answers in the order of the request. */
  function InOrder(dev: Device, chunk: seq<Variable>): seq<AccessAnswer> {
    seq(|chunk|, i requires 0 <= i < |chunk| => InOrderAnswer(dev, chunk[i].obj))
  }

  function InOrderAnswer(dev: Device, o: ObjectIdentifier): AccessAnswer {
    AccessAnswer(o, [(OBJECT_NAME, dev.property(o, OBJECT_NAME)), (DESCRIPTION, dev.property(o, DESCRIPTION)),
                     (UNITS, dev.property(o, UNITS))])
  }

  lemma AnswersAll(dev: Device, results: seq<AccessAnswer>, k: nat, o: ObjectIdentifier)
    requires k < |results| && results[k] == InOrderAnswer(dev, o)
    ensures Answered(results, o, OBJECT_NAME) && Answered(results, o, DESCRIPTION) && Answered(results, o, UNITS)
  {
    var answers := results[k].answers;
    assert results[k].obj == o && answers[0].0 == OBJECT_NAME && answers[1].0 == DESCRIPTION && answers[2].0 == UNITS;
  }

  lemma InOrderIsTruthful(dev: Device, chunk: seq<Variable>)
    ensures Truthful(dev, chunk, InOrder(dev, chunk))
  {
    hide Answered, Among;
    forall i | 0 <= i < |chunk|
      ensures Answered(InOrder(dev, chunk), chunk[i].obj, OBJECT_NAME)
      ensures Answered(InOrder(dev, chunk), chunk[i].obj, DESCRIPTION)
      ensures Answered(InOrder(dev, chunk), chunk[i].obj, UNITS)
    {
      AnswersAll(dev, InOrder(dev, chunk), i, chunk[i].obj);
    }
  }

  predicate IsIndex(byID: map<ObjectIdentifier, nat>, chunk: seq<Variable>) {
    && (forall i :: 0 <= i < |chunk| ==> chunk[i].obj in byID)
    && (forall o :: o in byID ==> byID[o] < |chunk| && chunk[byID[o]].obj == o)
    && (forall o, j :: o in byID && byID[o] < j < |chunk| ==> chunk[j].obj != o)
  }

  lemma IndexIsLast(byID: map<ObjectIdentifier, nat>, chunk: seq<Variable>, i: nat)
    requires IsIndex(byID, chunk) && i < |chunk|
    ensures LastOfItsObject(chunk, i) <==> byID[chunk[i].obj] == i
  {
    assert chunk[byID[chunk[i].obj]].obj == chunk[i].obj;
  }

  type Seen = set<(ObjectIdentifier, PropertyIdentifier)>

  /** A variable with the answers seen so far put in place. */
  function FilledWith(dev: Device, v: Variable, seen: Seen): Variable {
    var all := Filled(dev, v);
    Variable(v.obj, if (v.obj, OBJECT_NAME) in seen then all.name else v.name,
      if (v.obj, DESCRIPTION) in seen then all.description else v.description,
      if (v.obj, UNITS) in seen then all.units else v.units)
  }

  lemma OneMoreAnswer(dev: Device, v: Variable, seen: Seen, p: PropertyIdentifier)
    ensures Apply(FilledWith(dev, v, seen), (p, dev.property(v.obj, p))) == FilledWith(dev, v, seen + {(v.obj, p)})
  {
  }

  predicate Placed(dev: Device, byID: map<ObjectIdentifier, nat>, was: seq<Variable>, now: seq<Variable>, seen: Seen)
    requires IsIndex(byID, was)
  {
    && |now| == |was|
    && (forall j :: 0 <= j < |was| ==>
          now[j] == (if byID[was[j].obj] == j then FilledWith(dev, was[j], seen) else was[j]))
  }

  lemma NothingPlaced(dev: Device, byID: map<ObjectIdentifier, nat>, was: seq<Variable>)
    requires IsIndex(byID, was)
    ensures Placed(dev, byID, was, was, {})
  {
  }

  lemma PlaceOne(dev: Device, byID: map<ObjectIdentifier, nat>, was: seq<Variable>, now: seq<Variable>, seen: Seen,
                 obj: ObjectIdentifier, p: PropertyIdentifier)
    requires IsIndex(byID, was) && Placed(dev, byID, was, now, seen) && obj in byID
    ensures var v := byID[obj];
            Placed(dev, byID, was, now[v := Apply(now[v], (p, dev.property(obj, p)))], seen + {(obj, p)})
  {
    var v := byID[obj];
    OneMoreAnswer(dev, was[v], seen, p);
    hide Apply;
    forall j | 0 <= j < |was| && j != v && byID[was[j].obj] == j
      ensures FilledWith(dev, was[j], seen + {(obj, p)}) == FilledWith(dev, was[j], seen)
    {
      assert was[j].obj != obj;
    }
    hide FilledWith;
  }

  lemma AllPlaced(dev: Device, byID: map<ObjectIdentifier, nat>, was: seq<Variable>, now: seq<Variable>, seen: Seen)
    requires IsIndex(byID, was) && Placed(dev, byID, was, now, seen)
    requires forall j :: 0 <= j < |was| ==>
      (was[j].obj, OBJECT_NAME) in seen && (was[j].obj, DESCRIPTION) in seen && (was[j].obj, UNITS) in seen
    ensures now == FilledChunk(dev, was)
  {
    forall j | 0 <= j < |was| ensures now[j] == FilledChunk(dev, was)[j] {
      hide Filled, LastOfItsObject, FilledWith;
      IndexIsLast(byID, was, j);
      AllAnswers(dev, was[j], seen);
    }
  }

  lemma AllAnswers(dev: Device, v: Variable, seen: Seen)
    requires (v.obj, OBJECT_NAME) in seen && (v.obj, DESCRIPTION) in seen && (v.obj, UNITS) in seen
    ensures FilledWith(dev, v, seen) == Filled(dev, v)
  {
  }

  /** Every answer about an object of the index was seen. */
  predicate SeenUpTo(byID: map<ObjectIdentifier, nat>, results: seq<AccessAnswer>, k: nat, seen: Seen)
    requires k <= |results|
  {
    forall i, m :: 0 <= i < k && 0 <= m < |results[i].answers| && results[i].obj in byID ==>
      (results[i].obj, results[i].answers[m].0) in seen
  }

  lemma TruthOf(dev: Device, chunk: seq<Variable>, results: seq<AccessAnswer>, k: nat)
    requires Truthful(dev, chunk, results) && k < |results| && Among(chunk, results[k].obj)
    ensures forall m :: 0 <= m < |results[k].answers| ==>
      results[k].answers[m] == (results[k].answers[m].0, dev.property(results[k].obj, results[k].answers[m].0))
  {
  }

  lemma SameLength(dev: Device, byID: map<ObjectIdentifier, nat>, was: seq<Variable>, now: seq<Variable>, seen: Seen)
    requires IsIndex(byID, was) && Placed(dev, byID, was, now, seen)
    ensures |was| == |now|
  {
  }

  lemma NothingSeen(byID: map<ObjectIdentifier, nat>, results: seq<AccessAnswer>, seen: Seen)
    ensures SeenUpTo(byID, results, 0, seen)
  {
  }

  lemma MoreSeen(byID: map<ObjectIdentifier, nat>, results: seq<AccessAnswer>, k: nat, seen: Seen, now: Seen)
    requires k < |results| && SeenUpTo(byID, results, k, seen) && seen <= now
    requires results[k].obj in byID ==>
      forall m :: 0 <= m < |results[k].answers| ==> (results[k].obj, results[k].answers[m].0) in now
    ensures SeenUpTo(byID, results, k + 1, now)
  {
  }

  lemma AllSeen(dev: Device, byID: map<ObjectIdentifier, nat>, was: seq<Variable>, results: seq<AccessAnswer>,
                seen: Seen)
    requires IsIndex(byID, was) && Truthful(dev, was, results) && SeenUpTo(byID, results, |results|, seen)
    ensures forall j :: 0 <= j < |was| ==>
      (was[j].obj, OBJECT_NAME) in seen && (was[j].obj, DESCRIPTION) in seen && (was[j].obj, UNITS) in seen
  {
    forall j | 0 <= j < |was|
      ensures (was[j].obj, OBJECT_NAME) in seen && (was[j].obj, DESCRIPTION) in seen && (was[j].obj, UNITS) in seen
    {
      hide SeenUpTo, Answered;
      AnswerSeen(byID, results, was[j].obj, OBJECT_NAME, seen);
      AnswerSeen(byID, results, was[j].obj, DESCRIPTION, seen);
      AnswerSeen(byID, results, was[j].obj, UNITS, seen);
    }
  }

  lemma AnswerSeen(byID: map<ObjectIdentifier, nat>, results: seq<AccessAnswer>, o: ObjectIdentifier,
                   p: PropertyIdentifier, seen: Seen)
    requires o in byID && Answered(results, o, p) && SeenUpTo(byID, results, |results|, seen)
    ensures (o, p) in seen
  {
  }

  lemma IndexedIsAmong(byID: map<ObjectIdentifier, nat>, chunk: seq<Variable>, o: ObjectIdentifier)
    requires IsIndex(byID, chunk) && o in byID
    ensures Among(chunk, o) && byID[o] < |chunk|
  {
    assert chunk[byID[o]].obj == o;
  }

  // ----- the loop reading names one by one

  /** With done finished and rest to go, the outcome of the whole is already decided
      by the outcome of the rest. */
  predicate NamesContinue(env: Env, dev: Device, whole: MetadataResult,
                          done: seq<Variable>, l: Progress, rest: seq<Variable>) {
    var (e, c, l') := ReadNames(env, dev, l, rest);
    whole == (e, done + c, l')
  }

  lemma NextName(env: Env, dev: Device, whole: MetadataResult,
                 done: seq<Variable>, l: Progress, rest: seq<Variable>)
    requires rest != [] && NamesContinue(env, dev, whole, done, l, rest)
    ensures var (r, l1) := ReadProperty(env, l, dev.property(rest[0].obj, OBJECT_NAME));
            var (expired, l2) := ContextErr(env, l1);
            if r.Got? then NamesContinue(env, dev, whole, done + [rest[0].(name := CharString(r.value))], l1, rest[1..])
            else if expired then whole == (Some(r.failure), done + rest, l2)
            else NamesContinue(env, dev, whole, done + [rest[0]], l2, rest[1..])
  {
    hide CharString, ReadProperty;
    var c := ReadNames(env, dev, l, rest).1;
    if c != [] { assert done + c == done + [c[0]] + c[1..]; }
  }

  lemma NamesBegin(env: Env, dev: Device, l: Progress, chunk: seq<Variable>)
    ensures NamesContinue(env, dev, ReadNames(env, dev, l, chunk), [], l, chunk)
  {
    assert [] + ReadNames(env, dev, l, chunk).1 == ReadNames(env, dev, l, chunk).1;
  }

  lemma NamesEnd(env: Env, dev: Device, whole: MetadataResult,
                 done: seq<Variable>, l: Progress)
    requires NamesContinue(env, dev, whole, done, l, [])
    ensures whole == (None, done, l)
  {
    assert done + [] == done;
  }

  // ----- the loop over chunks

  predicate ChunksContinue(env: Env, dev: Device, whole: MetadataResult,
                           done: seq<Variable>, l: Progress, rest: seq<Variable>) {
    var (e, c, l') := ReadChunks(env, dev, l, rest);
    whole == (e, done + c, l')
  }

  lemma ChunksBegin(env: Env, dev: Device, l: Progress, all: seq<Variable>)
    ensures ChunksContinue(env, dev, ReadChunks(env, dev, l, all), [], l, all)
  {
    assert [] + ReadChunks(env, dev, l, all).1 == ReadChunks(env, dev, l, all).1;
  }

  lemma ChunksEnd(env: Env, dev: Device, whole: MetadataResult,
                  done: seq<Variable>, l: Progress)
    requires ChunksContinue(env, dev, whole, done, l, [])
    ensures whole == (None, done, l)
  {
    assert done + [] == done;
  }

  lemma NextChunk(env: Env, dev: Device, whole: MetadataResult,
                  done: seq<Variable>, l: Progress, rest: seq<Variable>)
    requires rest != [] && ChunksContinue(env, dev, whole, done, l, rest)
    ensures var end := if RPM_CHUNK < |rest| then RPM_CHUNK else |rest|;
            var (e, chunk, l1) := ReadMetadata(env, dev, l, rest[..end]);
            if e.Some? then whole == (e, done + chunk + rest[end..], l1)
            else ChunksContinue(env, dev, whole, done + chunk, l1, rest[end..])
  {
    hide ReadMetadata;
    var end := if RPM_CHUNK < |rest| then RPM_CHUNK else |rest|;
    var (e, chunk, l1) := ReadMetadata(env, dev, l, rest[..end]);
    assert done + chunk + rest[end..] == done + (chunk + rest[end..]);
    var c := ReadChunks(env, dev, l1, rest[end..]).1;
    assert done + chunk + c == done + (chunk + c);
  }

  // ----- the loops reading the list

  lemma Appending(a: seq<Value>, b: seq<Value>, c: seq<Value>)
    ensures (a + b) + c == a + (b + c) && a + [] == a && [] + a == a
  {
  }

  function Prefixed(values: seq<Value>, rest: Reply<seq<Value>>): Reply<seq<Value>> {
    if rest.Failed? then rest else Got(values + rest.value)
  }

  predicate SinglesContinue(whole: (Reply<seq<Value>>, Progress), values: seq<Value>,
                            rest: (Reply<seq<Value>>, Progress)) {
    whole == (Prefixed(values, rest.0), rest.1)
  }

  predicate RangeContinues(whole: (Listing, Progress), list: seq<Value>, rest: (Listing, Progress)) {
    whole == (if rest.0.Listed? then Listed(list + rest.0.values) else rest.0, rest.1)
  }

  // ----- slices

  lemma Slices<T>(s: seq<T>, lo: nat, mid: nat, hi: nat)
    requires lo <= mid <= hi <= |s|
    ensures s[lo..hi] == s[lo..mid] + s[mid..hi]
    ensures s[lo..hi][..mid - lo] == s[lo..mid] && s[lo..hi][mid - lo..] == s[mid..hi]
  {
  }

  lemma SameSlice<T>(s: seq<T>, t: seq<T>, lo: nat, hi: nat)
    requires lo <= hi <= |s| == |t| && forall k :: lo <= k < hi ==> s[k] == t[k]
    ensures s[lo..hi] == t[lo..hi]
  {
  }

  ghost predicate AlwaysTruthful(dev: Device, reply: (seq<Variable>, nat) -> seq<AccessAnswer>) {
    forall chunk: seq<Variable>, t: nat :: Truthful(dev, chunk, reply(chunk, t))
  }

  class Loader {
    var noRPM: bool
    var t: nat
    var rpms: nat
    var singles: nat
    const env: Env
    const dev: Device
    const reply: (seq<Variable>, nat) -> seq<AccessAnswer>

    function Now(): Progress
      reads this
    {
      Progress(noRPM, t, rpms, singles)
    }

    /** Whatever order the device answers in at whatever moment, it tells the truth. */
    ghost predicate Honest() { AlwaysTruthful(dev, reply) }

    constructor (env: Env, dev: Device, reply: (seq<Variable>, nat) -> seq<AccessAnswer>)
      requires AlwaysTruthful(dev, reply)
      ensures this.env == env && this.dev == dev && Honest() && Now() == Progress(false, 0, 0, 0)
    {
      this.env, this.dev, this.reply := env, dev, reply;
      noRPM, t, rpms, singles := false, 0, 0, 0;
    }

    method Read(truth: Reply<seq<Value>>) returns (r: Reply<seq<Value>>)
      modifies this
      ensures (r, Now()) == ReadProperty(env, old(Now()), truth)
    {
      r := if env.single(t).Some? then Failed(env.single(t).value) else truth;
      t, singles := t + 1, singles + 1;
    }

    method ReadMany() returns (f: Option<Failure>)
      modifies this
      ensures (f, Now()) == ReadMultiple(env, old(Now()))
    {
      f := env.rpm(t);
      t, rpms := t + 1, rpms + 1;
    }

    method Expired() returns (e: bool)
      modifies this
      ensures (e, Now()) == ContextErr(env, old(Now()))
    {
      e := env.expired(t);
      t := t + 1;
    }

    method RetrySmaller(f: Failure) returns (again: bool)
      modifies this
      ensures (again, Now()) == RetryPiecewise(env, old(Now()), f)
    {
      var e := Expired();
      again := !e && (f.Abort? || f.Timeout?);
    }

    method NoteFailure(f: Failure) returns (again: bool)
      modifies this
      ensures (again, Now()) == NoteRPMFailure(env, old(Now()), f)
    {
      if f == Reject(UNRECOGNIZED_SERVICE) {
        noRPM := true;
        return true;
      }
      again := RetrySmaller(f);
    }

    /** The single reads of readMetadata. */
    method NameOneByOne(a: array<Variable>, lo: nat, hi: nat) returns (e: Option<Failure>)
      requires lo <= hi <= a.Length
      modifies this, a
      ensures (e, a[lo..hi], Now()) == ReadNames(env, dev, old(Now()), old(a[lo..hi]))
      ensures forall k :: 0 <= k < a.Length && !(lo <= k < hi) ==> a[k] == old(a[k])
    {
      hide NamesContinue, ReadProperty, ContextErr;
      ghost var was := a[..];
      ghost var whole := ReadNames(env, dev, Now(), a[lo..hi]);
      assert NamesContinue(env, dev, whole, [], Now(), was[lo..hi]) by { NamesBegin(env, dev, Now(), was[lo..hi]); }
      var i := lo;
      assert a[lo..i] == [];
      while i < hi
        invariant lo <= i <= hi
        invariant forall k :: 0 <= k < a.Length && (k < lo || i <= k) ==> a[k] == was[k]
        invariant NamesContinue(env, dev, whole, a[lo..i], Now(), was[i..hi])
      {
        ghost var done, rest := a[lo..i], was[i..hi];
        assert a[lo..hi] == done + rest && rest[1..] == was[i + 1..hi];
        NextName(env, dev, whole, done, Now(), rest);
        var r := Read(dev.property(a[i].obj, OBJECT_NAME));
        if r.Failed? {
          var expired := Expired();
          if expired {
            return Some(r.failure);
          }
        } else {
          a[i] := a[i].(name := CharString(r.value));
        }
        i := i + 1;
        assert a[lo..i] == done + [a[i - 1]];
      }
      assert was[i..hi] == [];
      NamesEnd(env, dev, whole, a[lo..hi], Now());
      return None;
    }
 
    /** Finds every variable by its identifier; of several with one identifier, the last. */
    method IndexChunk(a: array<Variable>, lo: nat, hi: nat) returns (byID: map<ObjectIdentifier, nat>)
      requires lo <= hi <= a.Length
      ensures IsIndex(byID, a[lo..hi])
    {
      byID := map[];
      var i := lo;
      while i < hi
        invariant lo <= i <= hi
        invariant IsIndex(byID, a[lo..i])
      {
        assert a[lo..i + 1] == a[lo..i] + [a[i]];
        byID := byID[a[i].obj := i - lo];
        i := i + 1;
      }
    }

    /** The reply of a successful ReadPropertyMultiple, put in place. */
    method Fill(a: array<Variable>, lo: nat, hi: nat, results: seq<AccessAnswer>)
      requires lo <= hi <= a.Length && Truthful(dev, a[lo..hi], results)
      modifies a
      ensures a[lo..hi] == FilledChunk(dev, old(a[lo..hi]))
      ensures forall k :: 0 <= k < a.Length && !(lo <= k < hi) ==> a[k] == old(a[k])
    {
      hide Placed, FilledChunk, IsIndex, Truthful, Answered, SeenUpTo;
      ghost var was := a[lo..hi];
      var byID := IndexChunk(a, lo, hi);
      ghost var seen: Seen := {};
      NothingPlaced(dev, byID, was);
      NothingSeen(byID, results, seen);
      var k := 0;
      while k < |results|
        invariant 0 <= k <= |results|
        invariant forall k :: 0 <= k < a.Length && !(lo <= k < hi) ==> a[k] == old(a[k])
        invariant Placed(dev, byID, was, a[lo..hi], seen) && SeenUpTo(byID, results, k, seen)
      {
        ghost var before := seen;
        if results[k].obj in byID {
          seen := ApplyAnswers(a, lo, hi, byID, was, seen, results, k);
        }
        MoreSeen(byID, results, k, before, seen);
        k := k + 1;
      }
      AllSeen(dev, byID, was, results, seen);
      assert a[lo..hi] == FilledChunk(dev, was) by { AllPlaced(dev, byID, was, a[lo..hi], seen); }
    }

    static method PutAnswer(a: array<Variable>, i: nat, answer: PropertyAnswer)
      requires i < a.Length
      modifies a
      ensures a[i] == Apply(old(a[i]), answer)
      ensures forall k :: 0 <= k < a.Length && k != i ==> a[k] == old(a[k])
    {
      if answer.1.Got? {
        match answer.0 {
          case 77 => a[i] := a[i].(name := CharString(answer.1.value));
          case 28 => a[i] := a[i].(description := CharString(answer.1.value));
          case 117 => a[i] := a[i].(units := answer.1.value);
          case _ =>
        }
      }
    }

    /** One result's answers, put into the variable of its object. */
    method ApplyAnswers(a: array<Variable>, lo: nat, hi: nat, byID: map<ObjectIdentifier, nat>,
                        ghost was: seq<Variable>, ghost seen: Seen, results: seq<AccessAnswer>, k: nat)
      returns (ghost now: Seen)
      requires lo <= hi <= a.Length && k < |results| && results[k].obj in byID
      requires IsIndex(byID, was) && Placed(dev, byID, was, a[lo..hi], seen) && Truthful(dev, was, results)
      modifies a
      ensures Placed(dev, byID, was, a[lo..hi], now)
      ensures now >= seen
      ensures forall m :: 0 <= m < |results[k].answers| ==> (results[k].obj, results[k].answers[m].0) in now
      ensures forall k :: 0 <= k < a.Length && !(lo <= k < hi) ==> a[k] == old(a[k])
    {
      hide Placed, IsIndex, Truthful, Answered, Apply, Among;
      var obj, answers := results[k].obj, results[k].answers;
      IndexedIsAmong(byID, was, obj);
      TruthOf(dev, was, results, k);
      SameLength(dev, byID, was, a[lo..hi], seen);
      var v := byID[obj];
      now := seen;
      var m := 0;
      while m < |answers|
        invariant 0 <= m <= |answers|
        invariant Placed(dev, byID, was, a[lo..hi], now) && now >= seen
        invariant forall i :: 0 <= i < m ==> (obj, answers[i].0) in now
        invariant forall k :: 0 <= k < a.Length && !(lo <= k < hi) ==> a[k] == old(a[k])
      {
        ghost var before := a[lo..hi];
        PlaceOne(dev, byID, was, before, now, obj, answers[m].0);
        PutAnswer(a, lo + v, answers[m]);
        assert a[lo..hi] == before[v := Apply(before[v], answers[m])];
        now := now + {(obj, answers[m].0)};
        m := m + 1;
      }
    }

    /** readMetadata, halving the sub-range in place. */
    method FillMetadata(a: array<Variable>, lo: nat, hi: nat) returns (e: Option<Failure>)
      requires lo <= hi <= a.Length && Honest()
      modifies this, a
      ensures (e, a[lo..hi], Now()) == ReadMetadata(env, dev, old(Now()), old(a[lo..hi]))
      ensures forall k :: 0 <= k < a.Length && !(lo <= k < hi) ==> a[k] == old(a[k])
      decreases hi - lo, 1
    {
      hide ReadNames, FilledChunk, ReadMultiple, ContextErr, NoteRPMFailure, Truthful;
      ghost var chunk := a[lo..hi];
      if !noRPM {
        var f := ReadMany();
        if f.None? {
          Fill(a, lo, hi, reply(a[lo..hi], t));
          return None;
        }
        var expired := Expired();
        if expired {
          return f;
        }
        var again := NoteFailure(f.value);
        if again && !noRPM && hi - lo > 1 {
          e := FillHalves(a, lo, hi);
          return;
        }
      }
      e := NameOneByOne(a, lo, hi);
    }

    method FillHalves(a: array<Variable>, lo: nat, hi: nat) returns (e: Option<Failure>)
      requires lo + 1 < hi <= a.Length && Honest()
      modifies this, a
      ensures (e, a[lo..hi], Now()) == ReadHalves(env, dev, old(Now()), old(a[lo..hi]))
      ensures forall k :: 0 <= k < a.Length && !(lo <= k < hi) ==> a[k] == old(a[k])
      decreases hi - lo, 0
    {
      hide ReadMetadata, AlwaysTruthful;
      var mid := lo + (hi - lo) / 2;
      ghost var s0 := a[..];
      Slices(s0, lo, mid, hi);
      e := FillMetadata(a, lo, mid);
      ghost var s1 := a[..];
      SameSlice(s0, s1, mid, hi);
      Slices(s1, lo, mid, hi);
      if e.None? {
        e := FillMetadata(a, mid, hi);
        SameSlice(s1, a[..], lo, mid);
        Slices(a[..], lo, mid, hi);
      }
    }

    // ----- the object-list

    /** The single reads of readIndexes. */
    method ListOneByOne(start: nat, end: nat) returns (r: Reply<seq<Value>>)
      requires Countable(dev)
      modifies this
      ensures (r, Now()) == ReadSingles(env, dev, old(Now()), start, end)
    {
      var values: seq<Value> := [];
      var i := start;
      ghost var all := ReadSingles(env, dev, Now(), start, end).0;
      if all.Got? { Appending(all.value, [], []); }
      while i <= end
        invariant SinglesContinue(ReadSingles(env, dev, old(Now()), start, end), values,
                                  ReadSingles(env, dev, Now(), i, end))
        decreases end + 1 - i
      {
        var v := Read(Element(dev, i));
        if v.Failed? {
          return v;
        }
        ghost var rest := ReadSingles(env, dev, Now(), i + 1, end).0;
        if rest.Got? { Appending(values, v.value, rest.value); }
        values := values + v.value;
        i := i + 1;
      }
      Appending(values, [], []);
      return Got(values);
    }

    /** readIndexes */
    method ListIndexes(start: nat, end: nat) returns (r: Reply<seq<Value>>)
      requires Countable(dev)
      modifies this
      ensures (r, Now()) == ReadIndexes(env, dev, old(Now()), start, end)
    {
      hide ReadSingles, ReadMultiple, NoteRPMFailure, Collect;
      if !noRPM {
        var f := ReadMany();
        if f.None? {
          r := CollectAnswers(start, end);
          return;
        }
        var again := NoteFailure(f.value);
        if !again {
          return Failed(f.value);
        }
      }
      r := ListOneByOne(start, end);
    }

    method CollectAnswers(start: nat, end: nat) returns (r: Reply<seq<Value>>)
      requires Countable(dev)
      ensures r == Collect(dev, start, end)
    {
      var values: seq<Value> := [];
      var i := start;
      if Collect(dev, start, end).Got? { Appending(Collect(dev, start, end).value, [], []); }
      while i <= end
        invariant Collect(dev, start, end) == Prefixed(values, Collect(dev, i, end))
        decreases end + 1 - i
      {
        var answer := Element(dev, i);
        if answer.Failed? {
          return answer;
        }
        ghost var rest := Collect(dev, i + 1, end);
        if rest.Got? { Appending(values, answer.value, rest.value); }
        values := values + answer.value;
        i := i + 1;
      }
      Appending(values, [], []);
      return Got(values);
    }

    /** readObjectList */
    method List() returns (r: Listing)
      requires Countable(dev)
      modifies this
      ensures (r, Now()) == ReadObjectList(env, dev, old(Now()))
    {
      var whole := Read(Got(dev.objectList));
      if whole.Got? {
        return Listed(whole.value);
      }
      var again := RetrySmaller(whole.failure);
      if !again {
        return Unlisted(whole.failure);
      }
      var length := Read(Element(dev, 0));
      if length.Failed? {
        return Unlisted(length.failure);
      }
      if |length.value| != 1 || !length.value[0].UnsignedInt? {
        return Unlisted(BadLength);
      }
      r := ListChunks(length.value[0].u % 0x1_0000_0000);
    }

    /** The chunk loop, its counter in 32 bits. */
    method ListChunks(n: uint32) returns (r: Listing)
      requires Countable(dev)
      modifies this
      ensures (r, Now()) == ReadRange(env, dev, old(Now()), 1, n)
    {
      hide ReadIndexes, Boundary;
      if n == LAST_UINT32 {
        return NeverEnds;
      }
      var list: seq<Value> := [];
      var start: uint32 := 1;
      ghost var all := ReadRange(env, dev, Now(), 1, n).0;
      if all.Listed? { Appending(all.values, [], []); }
      while start <= n
        invariant ChunkStart(start)
        invariant RangeContinues(ReadRange(env, dev, old(Now()), 1, n), list, ReadRange(env, dev, Now(), start, n))
        decreases 45 - start % INDEX_CHUNK, n as int + 1 - start
      {
        NextStart(start);
        var end := if Add32(start, INDEX_CHUNK - 1) < n then Add32(start, INDEX_CHUNK - 1) else n;
        var chunk := ListIndexes(start, end);
        if chunk.Failed? {
          return Unlisted(chunk.failure);
        }
        ghost var rest := ReadRange(env, dev, Now(), Add32(start, INDEX_CHUNK), n).0;
        if rest.Listed? { Appending(list, chunk.value, rest.values); }
        list := list + chunk.value;
        start := Add32(start, INDEX_CHUNK);
      }
      Appending(list, [], []);
      return Listed(list);
    }

    /** The chunk loop of load. */
    method FillChunks(a: array<Variable>) returns (e: Option<Failure>)
      requires Honest()
      modifies this, a
      ensures (e, a[..], Now()) == ReadChunks(env, dev, old(Now()), old(a[..]))
    {
      hide ReadMetadata, ChunksContinue, ReadChunks, AlwaysTruthful;
      ghost var was := a[..];
      ghost var whole := ReadChunks(env, dev, Now(), a[..]);
      ChunksBegin(env, dev, Now(), was);
      var start := 0;
      assert a[..start] == [] && was[start..] == was;
      while start < a.Length
        invariant 0 <= start <= a.Length
        invariant forall k :: start <= k < a.Length ==> a[k] == was[k]
        invariant ChunksContinue(env, dev, whole, a[..start], Now(), was[start..])
      {
        var end := if start + RPM_CHUNK < a.Length then start + RPM_CHUNK else a.Length;
        ghost var done, rest := a[..start], was[start..];
        NextChunk(env, dev, whole, done, Now(), rest);
        assert a[start..end] == rest[..end - start] && rest[end - start..] == was[end..];
        e := FillMetadata(a, start, end);
        assert a[..end] == done + a[start..end];
        if e.Some? {
          assert a[..] == done + a[start..end] + was[end..];
          return;
        }
        start := end;
      }
      assert was[start..] == [] && a[..start] == a[..];
      ChunksEnd(env, dev, whole, a[..], Now());
      return None;
    }
  }

  /** load */
  method LoadDevice(env: Env, dev: Device, who: Reply<uint32>, reply: (seq<Variable>, nat) -> seq<AccessAnswer>)
    returns (r: Loaded)
    requires Countable(dev) && AlwaysTruthful(dev, reply)
    ensures r == Load(env, dev, who)
  {
    hide ReadObjectList, ReadChunks, ObjectsOf, Named, ById;
    if who.Failed? {
      return NotLoaded(who.failure);
    }
    var l := new Loader(env, dev, reply);
    var list := l.List();
    match list {
      case NeverEnds => return NeverLoads;
      case Unlisted(failure) => return NotLoaded(failure);
      case Listed(values) =>
        var objects := ListedObjects(values);
        var all := new Variable[|objects|](i requires 0 <= i < |objects| => objects[i]);
        assert all[..] == objects;
        var e := l.FillChunks(all);
        if e.Some? {
          return NotLoaded(e.value);
        }
        var vars := KeepNamed(all);
        var byID := IndexVars(vars);
        return Published(Snapshot(who.value, vars, byID));
    }
  }

  method ListedObjects(list: seq<Value>) returns (all: seq<Variable>)
    ensures all == ObjectsOf(list)
  {
    hide ObjectsOf;
    all := [];
    var i := 0;
    ghost var whole := ObjectsOf(list);
    assert list[i..] == list && all + whole == whole;
    while i < |list|
      invariant 0 <= i <= |list|
      invariant whole == all + ObjectsOf(list[i..])
    {
      assert list[i..][1..] == list[i + 1..];
      NextObject(all, list[i..]);
      if list[i].ObjectID? {
        all := all + [Variable(list[i].oid, [], [], [])];
      }
      i := i + 1;
    }
    assert list[i..] == [] && ObjectsOf([]) == [] by { NoObjects(); }
  }

  lemma NoObjects()
    ensures ObjectsOf([]) == []
  {
  }

  lemma NextObject(all: seq<Variable>, list: seq<Value>)
    requires list != []
    ensures all + ObjectsOf(list)
      == (if list[0].ObjectID? then all + [Variable(list[0].oid, [], [], [])] else all) + ObjectsOf(list[1..])
  {
    var first := if list[0].ObjectID? then [Variable(list[0].oid, [], [], [])] else [];
    var rest := ObjectsOf(list[1..]);
    assert ObjectsOf(list) == first + rest;
    hide ObjectsOf;
    assert all + (first + rest) == (all + first) + rest && all + [] == all;
  }

  method KeepNamed(a: array<Variable>) returns (vars: seq<Variable>)
    ensures vars == Named(a[..])
  {
    vars := [];
    var i := 0;
    while i < a.Length
      invariant 0 <= i <= a.Length
      invariant Named(a[..]) == vars + Named(a[i..])
    {
      assert a[i..][1..] == a[i + 1..];
      ghost var rest := Named(a[i + 1..]);
      assert vars + ([a[i]] + rest) == vars + [a[i]] + rest && [] + rest == rest;
      if a[i].name != [] {
        vars := vars + [a[i]];
      }
      i := i + 1;
    }
  }

  method IndexVars(vars: seq<Variable>) returns (byID: map<ObjectIdentifier, Variable>)
    ensures byID == ById(vars)
  {
    byID := map[];
    var i := 0;
    while i < |vars|
      invariant 0 <= i <= |vars|
      invariant byID == ById(vars[..i])
    {
      assert vars[..i + 1][..i] == vars[..i];
      byID := byID[vars[i].obj := vars[i]];
      i := i + 1;
    }
    assert vars[..i] == vars;
  }
}
