/** Enumerating a device (varcache.go) against a fixed, truthful device on an
    unreliable path: any request may fail in any way, and the context may expire
    at any moment. Every such pattern is an Env; the theorems hold for all. */
module Metadata {
  import opened Octets
  import opened Values

  type Name = bytes

  const OBJECT_NAME: PropertyIdentifier := 77
  const DESCRIPTION: PropertyIdentifier := 28
  const UNITS: PropertyIdentifier := 117

  const RPM_CHUNK := 16
  const INDEX_CHUNK := 50
  const UNRECOGNIZED_SERVICE := 9

  datatype Variable = Variable(obj: ObjectIdentifier, name: Name, description: Name, units: seq<Value>)

  datatype Failure =
    | Abort(reason: uint8) | Reject(reason: uint8) | Timeout | DeviceError(errorClass: uint32, code: uint32)
    | BadLength | Other

  datatype Reply<+T> = Got(value: T) | Failed(failure: Failure)

  /** What the device would answer to each read: its object-list, and every other
      property of every object (or the error it would report). */
  datatype Device = Device(
    objectList: seq<Value>, property: (ObjectIdentifier, PropertyIdentifier) -> Reply<seq<Value>>)

  /** Moments are numbered; at moment t a ReadPropertyMultiple or a ReadProperty
      request may fail, and the context may be found expired. */
  datatype Env = Env(rpm: nat -> Option<Failure>, single: nat -> Option<Failure>, expired: nat -> bool)

  /** The loader's sticky flag, the current moment, and the requests made so far. */
  datatype Progress = Progress(noRPM: bool, t: nat, rpms: nat, singles: nat)

  function CharString(values: seq<Value>): Name {
    if |values| == 1 && values[0].CharacterString? then values[0].text else []
  }

  // ----- requests

  function ReadProperty(env: Env, l: Progress, truth: Reply<seq<Value>>): (Reply<seq<Value>>, Progress) {
    (if env.single(l.t).Some? then Failed(env.single(l.t).value) else truth, l.(t := l.t + 1, singles := l.singles + 1))
  }

  /** Whether a ReadPropertyMultiple fails. */
  function ReadMultiple(env: Env, l: Progress): (Option<Failure>, Progress) {
    (env.rpm(l.t), l.(t := l.t + 1, rpms := l.rpms + 1))
  }

  function ContextErr(env: Env, l: Progress): (bool, Progress) { (env.expired(l.t), l.(t := l.t + 1)) }

  function RetryPiecewise(env: Env, l: Progress, f: Failure): (bool, Progress) {
    var (expired, l') := ContextErr(env, l);
    (!expired && (f.Abort? || f.Timeout?), l')
  }

  function NoteRPMFailure(env: Env, l: Progress, f: Failure): (bool, Progress) {
    if f == Reject(UNRECOGNIZED_SERVICE) then (true, l.(noRPM := true)) else RetryPiecewise(env, l, f)
  }

  // ----- metadata

  /** The error if any, the chunk as it is left, and the progress. */
  type MetadataResult = (Option<Failure>, seq<Variable>, Progress)

  /** The variable after a successful reply about it; properties reported as
      errors leave their fields alone. */
  function Filled(dev: Device, v: Variable): Variable {
    var name := dev.property(v.obj, OBJECT_NAME);
    var description := dev.property(v.obj, DESCRIPTION);
    var units := dev.property(v.obj, UNITS);
    Variable(v.obj,
      if name.Got? then CharString(name.value) else v.name,
      if description.Got? then CharString(description.value) else v.description,
      if units.Got? then units.value else v.units)
  }

  /** The source finds a result's variable by object identifier; of several
      variables with one identifier, the last gets the result. */
  predicate LastOfItsObject(chunk: seq<Variable>, i: nat)
    requires i < |chunk|
  {
    forall j :: i < j < |chunk| ==> chunk[j].obj != chunk[i].obj
  }

  function FilledChunk(dev: Device, chunk: seq<Variable>): (c: seq<Variable>)
    ensures |c| == |chunk|
  {
    seq(|chunk|, i requires 0 <= i < |chunk| =>
      if LastOfItsObject(chunk, i) then Filled(dev, chunk[i]) else chunk[i])
  }

  /** Reading just object-name, variable by variable. */
  function ReadNames(env: Env, dev: Device, l: Progress, chunk: seq<Variable>): MetadataResult
    decreases |chunk|
  {
    if chunk == [] then (None, [], l)
    else
      var (r, l1) := ReadProperty(env, l, dev.property(chunk[0].obj, OBJECT_NAME));
      if r.Got? then
        var (e, c, l2) := ReadNames(env, dev, l1, chunk[1..]);
        (e, [chunk[0].(name := CharString(r.value))] + c, l2)
      else
        var (expired, l2) := ContextErr(env, l1);
        if expired then (Some(r.failure), chunk, l2)
        else
          var (e, c, l3) := ReadNames(env, dev, l2, chunk[1..]);
          (e, [chunk[0]] + c, l3)
  }

  /** readMetadata */
  function ReadMetadata(env: Env, dev: Device, l: Progress, chunk: seq<Variable>): MetadataResult
    decreases |chunk|, 1
  {
    if l.noRPM then ReadNames(env, dev, l, chunk)
    else
      var (f, l1) := ReadMultiple(env, l);
      if f.None? then (None, FilledChunk(dev, chunk), l1)
      else
        var (expired, l2) := ContextErr(env, l1);
        if expired then (f, chunk, l2)
        else
          var (again, l3) := NoteRPMFailure(env, l2, f.value);
          if again && !l3.noRPM && |chunk| > 1 then ReadHalves(env, dev, l3, chunk)
          else ReadNames(env, dev, l3, chunk)
  }

  function ReadHalves(env: Env, dev: Device, l: Progress, chunk: seq<Variable>): MetadataResult
    requires |chunk| > 1
    decreases |chunk|, 0
  {
    var mid := |chunk| / 2;
    var (e, a, l1) := ReadMetadata(env, dev, l, chunk[..mid]);
    if e.Some? then (e, a + chunk[mid..], l1)
    else
      var (e', b, l2) := ReadMetadata(env, dev, l1, chunk[mid..]);
      (e', a + b, l2)
  }

  // ----- what every outcome of readMetadata keeps

  /** The text that values are: theirs if they are one character string, else none. */
  predicate Says(values: seq<Value>, text: Name) {
    values == [CharacterString(text)] || (text == [] && !(|values| == 1 && values[0].CharacterString?))
  }

  lemma CharStringSays(values: seq<Value>, text: Name)
    ensures Says(values, text) <==> text == CharString(values)
  {
    if |values| == 1 && values[0].CharacterString? {
      assert values == [CharacterString(values[0].text)];
    }
  }

  /** What a variable may be afterwards: each field what it was, or what a direct
      read of that property of that object gives. */
  predicate Genuine(dev: Device, was: Variable, now: Variable) {
    && now.obj == was.obj
    && (now.name == was.name
        || (dev.property(was.obj, 77).Got? && Says(dev.property(was.obj, 77).value, now.name)))
    && (now.description == was.description
        || (dev.property(was.obj, 28).Got? && Says(dev.property(was.obj, 28).value, now.description)))
    && (now.units == was.units || dev.property(was.obj, 117) == Got(now.units))
  }

  lemma FilledIsGenuine(dev: Device, v: Variable)
    ensures Genuine(dev, v, v) && Genuine(dev, v, Filled(dev, v)) && Genuine(dev, v, v.(name := Filled(dev, v).name))
  {
    var name, description := dev.property(v.obj, OBJECT_NAME), dev.property(v.obj, DESCRIPTION);
    if name.Got? { CharStringSays(name.value, CharString(name.value)); }
    if description.Got? { CharStringSays(description.value, CharString(description.value)); }
  }

  predicate AllGenuine(dev: Device, was: seq<Variable>, now: seq<Variable>) {
    |now| == |was| && forall i :: 0 <= i < |was| ==> Genuine(dev, was[i], now[i])
  }

  /** Order and identifiers stay; what was read is the device's own; an error means
      that the context had expired. */
  predicate MetadataOutcome(env: Env, dev: Device, l: Progress, chunk: seq<Variable>,
                            e: Option<Failure>, c: seq<Variable>, l': Progress) {
    AllGenuine(dev, chunk, c) && l'.t >= l.t && (e.Some? ==> l'.t > l.t && env.expired(l'.t - 1))
  }

  lemma {:induction false} ReadNamesOutcome(env: Env, dev: Device, l: Progress, chunk: seq<Variable>)
    ensures var (e, c, l') := ReadNames(env, dev, l, chunk);
            MetadataOutcome(env, dev, l, chunk, e, c, l') && l'.noRPM == l.noRPM
    decreases |chunk|
  {
    if chunk != [] {
      FilledIsGenuine(dev, chunk[0]);
      UnchangedIsGenuine(dev, chunk);
      var (r, l1) := ReadProperty(env, l, dev.property(chunk[0].obj, OBJECT_NAME));
      assert r.Got? ==> chunk[0].(name := CharString(r.value)) == chunk[0].(name := Filled(dev, chunk[0]).name);
      hide Genuine, Filled, CharString;
      if r.Got? {
        ReadNamesOutcome(env, dev, l1, chunk[1..]);
      } else if !ContextErr(env, l1).0 {
        ReadNamesOutcome(env, dev, ContextErr(env, l1).1, chunk[1..]);
      }
    }
  }

  lemma JoinGenuine(dev: Device, a: seq<Variable>, b: seq<Variable>, c: seq<Variable>, d: seq<Variable>)
    requires AllGenuine(dev, a, c) && AllGenuine(dev, b, d)
    ensures AllGenuine(dev, a + b, c + d)
  {
  }

  /** For every pattern of failures. */
  lemma {:induction false} ReadMetadataOutcome(env: Env, dev: Device, l: Progress, chunk: seq<Variable>)
    ensures var (e, c, l') := ReadMetadata(env, dev, l, chunk);
            MetadataOutcome(env, dev, l, chunk, e, c, l')
    decreases |chunk|
  {
    hide ReadNames, FilledChunk, AllGenuine;
    UnchangedOrFilled(dev, chunk);
    if l.noRPM {
      ReadNamesOutcome(env, dev, l, chunk);
    } else {
      var (f, l1) := ReadMultiple(env, l);
      var (expired, l2) := ContextErr(env, l1);
      if f.Some? && !expired {
        var (again, l3) := NoteRPMFailure(env, l2, f.value);
        if again && !l3.noRPM && |chunk| > 1 {
          var mid := |chunk| / 2;
          var (e, a, l4) := ReadMetadata(env, dev, l3, chunk[..mid]);
          ReadMetadataOutcome(env, dev, l3, chunk[..mid]);
          ReadMetadataOutcome(env, dev, l4, chunk[mid..]);
          UnchangedOrFilled(dev, chunk[mid..]);
          assert chunk == chunk[..mid] + chunk[mid..];
          JoinGenuine(dev, chunk[..mid], chunk[mid..], a, chunk[mid..]);
          JoinGenuine(dev, chunk[..mid], chunk[mid..], a, ReadMetadata(env, dev, l4, chunk[mid..]).1);
        } else {
          ReadNamesOutcome(env, dev, l3, chunk);
        }
      }
    }
  }

  lemma UnchangedOrFilled(dev: Device, chunk: seq<Variable>)
    ensures AllGenuine(dev, chunk, chunk) && AllGenuine(dev, chunk, FilledChunk(dev, chunk))
  {
    forall i | 0 <= i < |chunk|
      ensures Genuine(dev, chunk[i], chunk[i]) && Genuine(dev, chunk[i], Filled(dev, chunk[i]))
    {
      FilledIsGenuine(dev, chunk[i]);
    }
    hide Genuine, Filled;
  }

  lemma UnchangedIsGenuine(dev: Device, chunk: seq<Variable>)
    ensures AllGenuine(dev, chunk, chunk)
  {
  }

  // ----- path independence

  predicate Distinct(chunk: seq<Variable>) {
    forall i, j :: 0 <= i < j < |chunk| ==> chunk[i].obj != chunk[j].obj
  }

  /** From a moment on, single reads are answered and the context lives;
      ReadPropertyMultiple may fail in any way at any time. */
  ghost predicate ReadsWork(env: Env, start: nat) {
    SinglesWork(env, start) && forall t :: t >= start ==> !env.expired(t)
  }

  /** From a moment on, single reads are answered; the context may expire. */
  ghost predicate SinglesWork(env: Env, start: nat) { forall t :: t >= start ==> env.single(t).None? }

  /** The name is what a direct read of object-name gives, if it gives anything. */
  predicate DirectlyNamed(dev: Device, was: Variable, now: Variable) {
    match dev.property(was.obj, 77)
    case Got(values) => Says(values, now.name)
    case Failed(_) => now.name == was.name
  }

  lemma FilledIsNamed(dev: Device, was: Variable, now: Variable)
    ensures DirectlyNamed(dev, was, now) <==> now.name == Filled(dev, was).name
  {
    var name := dev.property(was.obj, OBJECT_NAME);
    if name.Got? { CharStringSays(name.value, now.name); }
  }

  predicate AllNamed(dev: Device, was: seq<Variable>, now: seq<Variable>) {
    |now| == |was| && forall i :: 0 <= i < |was| ==> DirectlyNamed(dev, was[i], now[i])
  }

  /** All three fields are what direct reads give, where they give anything. */
  predicate DirectlyRead(dev: Device, was: Variable, now: Variable) {
    && now.obj == was.obj && DirectlyNamed(dev, was, now)
    && (match dev.property(was.obj, 28)
        case Got(values) => Says(values, now.description)
        case Failed(_) => now.description == was.description)
    && (match dev.property(was.obj, 117)
        case Got(values) => now.units == values
        case Failed(_) => now.units == was.units)
  }

  predicate AllRead(dev: Device, was: seq<Variable>, now: seq<Variable>) {
    |now| == |was| && forall i :: 0 <= i < |was| ==> DirectlyRead(dev, was[i], now[i])
  }

  lemma FilledIsRead(dev: Device, v: Variable)
    ensures DirectlyRead(dev, v, Filled(dev, v))
  {
    FilledIsNamed(dev, v, Filled(dev, v));
    var description := dev.property(v.obj, DESCRIPTION);
    if description.Got? { CharStringSays(description.value, CharString(description.value)); }
  }

  lemma FilledChunkIsRead(dev: Device, chunk: seq<Variable>)
    requires Distinct(chunk)
    ensures AllRead(dev, chunk, FilledChunk(dev, chunk)) && AllNamed(dev, chunk, FilledChunk(dev, chunk))
  {
    forall i | 0 <= i < |chunk|
      ensures DirectlyRead(dev, chunk[i], FilledChunk(dev, chunk)[i])
      ensures DirectlyNamed(dev, chunk[i], FilledChunk(dev, chunk)[i])
    {
      assert LastOfItsObject(chunk, i);
      FilledIsRead(dev, chunk[i]);
    }
  }

  lemma JoinNamed(dev: Device, a: seq<Variable>, b: seq<Variable>, c: seq<Variable>, d: seq<Variable>)
    requires AllNamed(dev, a, c) && AllNamed(dev, b, d)
    ensures AllNamed(dev, a + b, c + d)
  {
    hide DirectlyNamed;
  }

  lemma {:induction false} ReadNamesNamesAll(env: Env, dev: Device, l: Progress, chunk: seq<Variable>)
    requires SinglesWork(env, l.t)
    ensures var (e, c, _) := ReadNames(env, dev, l, chunk);
            (e.None? ==> AllNamed(dev, chunk, c)) && (ReadsWork(env, l.t) ==> e.None?)
    decreases |chunk|
  {
    if chunk != [] {
      var (r, l1) := ReadProperty(env, l, dev.property(chunk[0].obj, OBJECT_NAME));
      var l2 := if r.Got? then l1 else ContextErr(env, l1).1;
      var first := if r.Got? then chunk[0].(name := CharString(r.value)) else chunk[0];
      FilledIsNamed(dev, chunk[0], first);
      assert AllNamed(dev, [chunk[0]], [first]);
      hide AllNamed;
      ReadNamesNamesAll(env, dev, l2, chunk[1..]);
      if ReadNames(env, dev, l2, chunk[1..]).0.None? {
        JoinNamed(dev, [chunk[0]], chunk[1..], [first], ReadNames(env, dev, l2, chunk[1..]).1);
        assert chunk == [chunk[0]] + chunk[1..];
      }
    }
  }

  lemma StillWorks(env: Env, dev: Device, l: Progress, chunk: seq<Variable>, start: nat)
    requires SinglesWork(env, start) && start <= l.t
    ensures SinglesWork(env, l.t) && SinglesWork(env, ReadMetadata(env, dev, l, chunk).2.t)
    ensures ReadsWork(env, start) ==>
      ReadsWork(env, l.t) && ReadsWork(env, ReadMetadata(env, dev, l, chunk).2.t) && !env.expired(l.t)
  {
    ReadMetadataOutcome(env, dev, l, chunk);
  }

  lemma DistinctHalves(chunk: seq<Variable>, mid: nat)
    requires Distinct(chunk) && mid <= |chunk|
    ensures Distinct(chunk[..mid]) && Distinct(chunk[mid..]) && chunk == chunk[..mid] + chunk[mid..]
  {
  }

  /** Whatever goes wrong with ReadPropertyMultiple, and wherever chunks are split,
      every variable ends up with the name a direct read of it gives, or the context
      expired and the chunk ends in an error. */
  lemma {:induction false} PathIndependence(env: Env, dev: Device, l: Progress, chunk: seq<Variable>)
    requires SinglesWork(env, l.t) && Distinct(chunk)
    ensures var (e, c, _) := ReadMetadata(env, dev, l, chunk);
            (e.None? ==> AllNamed(dev, chunk, c)) && (ReadsWork(env, l.t) ==> e.None?)
    decreases |chunk|
  {
    FilledChunkIsRead(dev, chunk);
    var (f, l1) := ReadMultiple(env, l);
    StillWorks(env, dev, l1, chunk, l.t);
    hide ReadNames, Filled, AllNamed, ReadsWork, SinglesWork, Distinct;
    if l.noRPM {
      ReadNamesNamesAll(env, dev, l, chunk);
    } else if f.Some? {
      var (expired, l2) := ContextErr(env, l1);
      var (again, l3) := NoteRPMFailure(env, l2, f.value);
      StillWorks(env, dev, l3, chunk, l.t);
      if expired {
      } else if again && !l3.noRPM && |chunk| > 1 {
        var mid := |chunk| / 2;
        DistinctHalves(chunk, mid);
        var (e, a, l4) := ReadMetadata(env, dev, l3, chunk[..mid]);
        StillWorks(env, dev, l3, chunk[..mid], l.t);
        PathIndependence(env, dev, l3, chunk[..mid]);
        PathIndependence(env, dev, l4, chunk[mid..]);
        var (e', b, _) := ReadMetadata(env, dev, l4, chunk[mid..]);
        if e.None? && e'.None? { JoinNamed(dev, chunk[..mid], chunk[mid..], a, b); }
      } else {
        ReadNamesNamesAll(env, dev, l3, chunk);
      }
    }
  }

  // ----- which way a chunk is read

  /** One ReadPropertyMultiple that is answered gives the whole chunk's metadata. */
  lemma AnsweredAtOnce(env: Env, dev: Device, l: Progress, chunk: seq<Variable>)
    requires !l.noRPM && env.rpm(l.t) == None && Distinct(chunk)
    ensures var (e, c, l') := ReadMetadata(env, dev, l, chunk);
            e == None && AllRead(dev, chunk, c) && l' == Progress(false, l.t + 1, l.rpms + 1, l.singles)
  {
    hide Filled, AllRead, AllNamed;
    FilledChunkIsRead(dev, chunk);
  }

  /** After an abort or a timeout, the chunk is read as its two halves, one after the
      other. The context is looked at twice before. */
  lemma AbortHalves(env: Env, dev: Device, l: Progress, chunk: seq<Variable>)
    requires !l.noRPM && |chunk| > 1 && !env.expired(l.t + 1) && !env.expired(l.t + 2)
    requires env.rpm(l.t).Some? && (env.rpm(l.t).value.Abort? || env.rpm(l.t).value.Timeout?)
    ensures var mid := |chunk| / 2;
            var (e, a, l1) := ReadMetadata(env, dev, Progress(false, l.t + 3, l.rpms + 1, l.singles), chunk[..mid]);
            var (e', b, l2) := ReadMetadata(env, dev, l1, chunk[mid..]);
            ReadMetadata(env, dev, l, chunk) == if e.Some? then (e, a + chunk[mid..], l1) else (e', a + b, l2)
  {
    var l3 := Progress(false, l.t + 3, l.rpms + 1, l.singles);
    assert ReadMetadata(env, dev, l, chunk) == ReadHalves(env, dev, l3, chunk);
  }

  /** So a chunk too large for one reply, whose halves are not, is read in full. */
  lemma HalvesAreRead(env: Env, dev: Device, l: Progress, chunk: seq<Variable>)
    requires !l.noRPM && |chunk| > 1 && !env.expired(l.t + 1) && !env.expired(l.t + 2) && Distinct(chunk)
    requires env.rpm(l.t).Some? && (env.rpm(l.t).value.Abort? || env.rpm(l.t).value.Timeout?)
    requires env.rpm(l.t + 3) == None && env.rpm(l.t + 4) == None
    ensures var (e, c, l') := ReadMetadata(env, dev, l, chunk);
            e == None && AllRead(dev, chunk, c) && l' == Progress(false, l.t + 5, l.rpms + 3, l.singles)
  {
    var mid := |chunk| / 2;
    AbortHalves(env, dev, l, chunk);
    DistinctHalves(chunk, mid);
    var l1 := Progress(false, l.t + 3, l.rpms + 1, l.singles);
    var (_, a, l2) := ReadMetadata(env, dev, l1, chunk[..mid]);
    AnsweredAtOnce(env, dev, l1, chunk[..mid]);
    AnsweredAtOnce(env, dev, l2, chunk[mid..]);
    hide ReadMetadata, DirectlyRead, Distinct;
  }

  lemma {:induction false} ReadNamesCount(env: Env, dev: Device, l: Progress, chunk: seq<Variable>)
    requires ReadsWork(env, l.t)
    ensures var l' := ReadNames(env, dev, l, chunk).2;
            l'.singles == l.singles + |chunk| && l'.rpms == l.rpms && l'.noRPM == l.noRPM
    decreases |chunk|
  {
    if chunk != [] {
      var (r, l1) := ReadProperty(env, l, dev.property(chunk[0].obj, OBJECT_NAME));
      ReadNamesCount(env, dev, if r.Got? then l1 else ContextErr(env, l1).1, chunk[1..]);
    }
  }

  /** After any other failure, or for a single object, or with the service known to
      be missing, the names are read one by one; the service is known to be missing
      from the one rejection on that says so. */
  lemma NamesOneByOne(env: Env, dev: Device, l: Progress, chunk: seq<Variable>)
    requires ReadsWork(env, l.t) && Distinct(chunk)
    requires l.noRPM || (env.rpm(l.t).Some? &&
      (|chunk| <= 1 || !(env.rpm(l.t).value.Abort? || env.rpm(l.t).value.Timeout?)))
    ensures var (e, c, l') := ReadMetadata(env, dev, l, chunk);
            && e == None && AllNamed(dev, chunk, c) && l'.singles == l.singles + |chunk|
            && l'.rpms == l.rpms + (if l.noRPM then 0 else 1)
            && (l'.noRPM <==> l.noRPM || env.rpm(l.t) == Some(Reject(9)))
  {
    PathIndependence(env, dev, l, chunk);
    hide AllNamed;
    if l.noRPM {
      ReadNamesCount(env, dev, l, chunk);
    } else {
      var l2 := ContextErr(env, ReadMultiple(env, l).1).1;
      var l3 := NoteRPMFailure(env, l2, env.rpm(l.t).value).1;
      ReadNamesCount(env, dev, l3, chunk);
      hide ReadNames, ReadHalves;
    }
  }

  // ----- request bounds

  lemma {:induction false} ReadNamesRequests(env: Env, dev: Device, l: Progress, chunk: seq<Variable>)
    ensures var (_, _, l') := ReadNames(env, dev, l, chunk);
            l'.rpms == l.rpms && l.singles <= l'.singles <= l.singles + |chunk| && l'.noRPM == l.noRPM
    decreases |chunk|
  {
    if chunk != [] {
      var (r, l1) := ReadProperty(env, l, dev.property(chunk[0].obj, OBJECT_NAME));
      ReadNamesRequests(env, dev, if r.Got? then l1 else ContextErr(env, l1).1, chunk[1..]);
    }
  }

  /** A chunk of k objects costs at most 2k - 1 ReadPropertyMultiple requests and k
      single reads; once the device is known not to support the service, none of
      the former, and it is never asked again. */
  lemma {:induction false} ReadMetadataRequests(env: Env, dev: Device, l: Progress, chunk: seq<Variable>)
    requires |chunk| > 0
    ensures var (_, _, l') := ReadMetadata(env, dev, l, chunk);
            && l'.rpms <= l.rpms + 2 * |chunk| - 1 && l'.singles <= l.singles + |chunk|
            && (l.noRPM ==> l'.noRPM && l'.rpms == l.rpms)
    decreases |chunk|
  {
    hide ReadNames, FilledChunk;
    if l.noRPM {
      ReadNamesRequests(env, dev, l, chunk);
    } else {
      var (f, l1) := ReadMultiple(env, l);
      var (expired, l2) := ContextErr(env, l1);
      if f.Some? && !expired {
        var (again, l3) := NoteRPMFailure(env, l2, f.value);
        if again && !l3.noRPM && |chunk| > 1 {
          var mid := |chunk| / 2;
          ReadMetadataRequests(env, dev, l3, chunk[..mid]);
          ReadMetadataRequests(env, dev, ReadMetadata(env, dev, l3, chunk[..mid]).2, chunk[mid..]);
        } else {
          ReadNamesRequests(env, dev, l3, chunk);
        }
      }
    }
  }
}
