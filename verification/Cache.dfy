/** The variable cache (varcache.go): concurrent getters and one refresher over
    shared entries, as a step system over all interleavings. A load ends with
    some snapshot or with an error. Entry objects outlive their map slots, since
    getters keep pointers to them; each is identified by its position in store. */
module Cache {
  import opened Octets
  import opened Metadata
  import opened Enumeration

  type Host = string
  type EntryId = nat
  type GetterId = nat
  type LoadId = nat

  /** A snapshot together with the load that produced it. */
  datatype Stored = Stored(load: LoadId, snapshot: Snapshot)

  datatype Entry = Entry(host: Host, data: Option<Stored>, lastUsed: int, holder: Option<GetterId>)

  datatype Status = Running | Succeeded(snapshot: Snapshot) | Broken

  /** Loads are numbered in the order they start; starter is the getter that began it,
      or nobody for the refresher. */
  datatype LoadRecord = LoadRecord(host: Host, entry: EntryId, starter: Option<GetterId>, status: Status)

  datatype Outcome = Served(stored: Stored) | LoadFailed(load: LoadId)

  /** Where a call of get is: after its lookup, after noting the use, waiting for
      the entry's load mutex, holding it, loading, with the result, returned. */
  datatype Getter =
    | Looked(host: Host, e: EntryId) | Touched(host: Host, e: EntryId) | Waiting(host: Host, e: EntryId)
    | Locked(host: Host, e: EntryId) | Loading(host: Host, e: EntryId, k: LoadId)
    | Loaded(host: Host, e: EntryId, k: LoadId) | Returned(host: Host, outcome: Outcome)
  {
    predicate HoldsLock(id: EntryId) { (Locked? || Loading? || Loaded?) && e == id }
  }

  /** Where the refresher is: sweeping (with the cache's mutex held), then taking
      the entries found one after the other. */
  datatype Refresher =
    | Idle
    | Sweeping(idleBefore: int, todo: set<Host>, work: set<EntryId>)
    | Working(work: set<EntryId>)
    | Refreshing(work: set<EntryId>, e: EntryId, k: LoadId)
    | Refreshed(work: set<EntryId>, e: EntryId, k: LoadId)

  datatype State = State(
    entries: map<Host, EntryId>, store: seq<Entry>, loads: seq<LoadRecord>, getters: map<GetterId, Getter>,
    refresher: Refresher, now: int, closing: bool)

  datatype Event =
    | Tick(elapsed: nat) | Close
    | Call(g: GetterId, host: Host) | Touch(g: GetterId) | Check(g: GetterId)
    | Acquire(g: GetterId) | Recheck(g: GetterId)
    | LoadEnds(g: GetterId, result: Option<Snapshot>) | Finish(g: GetterId)
    | SweepBegins(idle: nat) | Sweep(host: Host) | SweepEnds | Pick(e: EntryId)
    | RefreshLoadEnds(result: Option<Snapshot>) | RefreshFinish | RefreshEnds

  function Init(now: int): State { State(map[], [], [], map[], Idle, now, false) }

  /** What load publishes (PublishedIsWellFormed). */
  predicate ResultOk(result: Option<Snapshot>) { result.Some? ==> WellFormed(result.value) }

  predicate Enabled(s: State, e: Event) {
    match e
    case Tick(_) => true
    case Close => true
    case Call(g, _) => g !in s.getters && !s.refresher.Sweeping?
    case Touch(g) => g in s.getters && s.getters[g].Looked? && s.getters[g].e < |s.store|
    case Check(g) => g in s.getters && s.getters[g].Touched? && s.getters[g].e < |s.store|
    case Acquire(g) =>
      g in s.getters && s.getters[g].Waiting? && s.getters[g].e < |s.store| && s.store[s.getters[g].e].holder.None?
    case Recheck(g) => g in s.getters && s.getters[g].Locked? && s.getters[g].e < |s.store|
    case LoadEnds(g, result) =>
      g in s.getters && s.getters[g].Loading? && s.getters[g].k < |s.loads| && ResultOk(result)
    case Finish(g) =>
      g in s.getters && s.getters[g].Loaded? && s.getters[g].k < |s.loads| && s.getters[g].e < |s.store|
    case SweepBegins(_) => s.refresher.Idle? && !s.closing
    case Sweep(host) =>
      s.refresher.Sweeping? && host in s.refresher.todo && host in s.entries && s.entries[host] < |s.store|
    case SweepEnds => s.refresher.Sweeping? && s.refresher.todo == {}
    case Pick(e) => s.refresher.Working? && e in s.refresher.work && e < |s.store|
    case RefreshLoadEnds(result) => s.refresher.Refreshing? && s.refresher.k < |s.loads| && ResultOk(result)
    case RefreshFinish => s.refresher.Refreshed? && s.refresher.k < |s.loads| && s.refresher.e < |s.store|
    case RefreshEnds => s.refresher.Working? && s.refresher.work == {}
  }

  function Ended(loads: seq<LoadRecord>, k: LoadId, result: Option<Snapshot>): seq<LoadRecord>
    requires k < |loads|
  {
    loads[k := loads[k].(status := if result.Some? then Succeeded(result.value) else Broken)]
  }

  predicate OfGet(e: Event) {
    e.Call? || e.Touch? || e.Check? || e.Acquire? || e.Recheck? || e.LoadEnds? || e.Finish?
  }

  predicate OfRefresh(e: Event) {
    e.SweepBegins? || e.Sweep? || e.SweepEnds? || e.Pick? || e.RefreshLoadEnds? || e.RefreshFinish? || e.RefreshEnds?
  }

  /** get, step by step. */
  function GetStep(s: State, e: Event): State
    requires Enabled(s, e) && OfGet(e)
  {
    match e
    case Call(g, host) =>
      if host in s.entries then s.(getters := s.getters[g := Looked(host, s.entries[host])])
      else s.(store := s.store + [Entry(host, None, 0, None)], entries := s.entries[host := |s.store|],
              getters := s.getters[g := Looked(host, |s.store|)])
    case Touch(g) =>
      var c := s.getters[g];
      s.(store := s.store[c.e := s.store[c.e].(lastUsed := s.now)], getters := s.getters[g := Touched(c.host, c.e)])
    case Check(g) =>
      var c := s.getters[g];
      var data := s.store[c.e].data;
      s.(getters := s.getters[g := if data.Some? then Returned(c.host, Served(data.value)) else Waiting(c.host, c.e)])
    case Acquire(g) =>
      var c := s.getters[g];
      s.(store := s.store[c.e := s.store[c.e].(holder := Some(g))], getters := s.getters[g := Locked(c.host, c.e)])
    case Recheck(g) =>
      var c := s.getters[g];
      var data := s.store[c.e].data;
      if data.Some? then
        s.(store := s.store[c.e := s.store[c.e].(holder := None)],
           getters := s.getters[g := Returned(c.host, Served(data.value))])
      else
        s.(loads := s.loads + [LoadRecord(c.host, c.e, Some(g), Running)],
           getters := s.getters[g := Loading(c.host, c.e, |s.loads|)])
    case LoadEnds(g, result) =>
      var c := s.getters[g];
      s.(loads := Ended(s.loads, c.k, result), getters := s.getters[g := Loaded(c.host, c.e, c.k)])
    case Finish(g) =>
      var c := s.getters[g];
      match s.loads[c.k].status
      case Succeeded(snapshot) =>
        s.(store := s.store[c.e := s.store[c.e].(data := Some(Stored(c.k, snapshot)), holder := None)],
           getters := s.getters[g := Returned(c.host, Served(Stored(c.k, snapshot)))])
      case _ =>
        s.(store := s.store[c.e := s.store[c.e].(holder := None)],
           getters := s.getters[g := Returned(c.host, LoadFailed(c.k))])
  }

  /** refreshAll, step by step. */
  function RefreshStep(s: State, e: Event): State
    requires Enabled(s, e) && OfRefresh(e)
  {
    var r := s.refresher;
    match e
    case SweepBegins(idle) => s.(refresher := Sweeping(s.now - idle, s.entries.Keys, {}))
    case Sweep(host) =>
      if s.store[s.entries[host]].lastUsed < r.idleBefore then
        s.(entries := s.entries - {host}, refresher := r.(todo := r.todo - {host}))
      else
        s.(refresher := r.(todo := r.todo - {host}, work := r.work + {s.entries[host]}))
    case SweepEnds => s.(refresher := Working(r.work))
    case Pick(e) =>
      if s.store[e].data.None? then s.(refresher := Working(r.work - {e}))
      else
        s.(loads := s.loads + [LoadRecord(s.store[e].host, e, None, Running)],
           refresher := Refreshing(r.work - {e}, e, |s.loads|))
    case RefreshLoadEnds(result) => s.(loads := Ended(s.loads, r.k, result), refresher := Refreshed(r.work, r.e, r.k))
    case RefreshFinish =>
      (match s.loads[r.k].status
       case Succeeded(snapshot) =>
         s.(store := s.store[r.e := s.store[r.e].(data := Some(Stored(r.k, snapshot)))], refresher := Working(r.work))
       case _ => s.(refresher := if s.closing then Idle else Working(r.work)))
    case RefreshEnds => s.(refresher := Idle)
  }

  function Next(s: State, e: Event): State
    requires Enabled(s, e)
  {
    if e.Tick? then s.(now := s.now + e.elapsed)
    else if e.Close? then s.(closing := true)
    else if OfGet(e) then GetStep(s, e)
    else RefreshStep(s, e)
  }

  function Run(s: State, es: seq<Event>): Option<State>
    decreases |es|
  {
    if es == [] then Some(s)
    else if !Enabled(s, es[0]) then None
    else Run(Next(s, es[0]), es[1..])
  }

  // ----- the invariant

  predicate SlotOk(s: State, host: Host)
    requires host in s.entries
  {
    s.entries[host] < |s.store| && s.store[s.entries[host]].host == host
  }

  /** The snapshot of one complete, successful load of that entry, for its host. */
  predicate StoredOk(s: State, host: Host, st: Stored) {
    && st.load < |s.loads| && WellFormed(st.snapshot)
    && s.loads[st.load].host == host && s.loads[st.load].status == Succeeded(st.snapshot)
  }

  predicate EntryOk(s: State, e: EntryId)
    requires e < |s.store|
  {
    && (s.store[e].data.Some? ==>
          StoredOk(s, s.store[e].host, s.store[e].data.value) && s.loads[s.store[e].data.value.load].entry == e)
    && (s.store[e].holder.Some? ==>
          s.store[e].holder.value in s.getters && s.getters[s.store[e].holder.value].HoldsLock(e))
  }

  predicate GetterOk(s: State, g: GetterId)
    requires g in s.getters
  {
    var c := s.getters[g];
    if c.Returned? then
      match c.outcome
      case Served(st) => StoredOk(s, c.host, st)
      case LoadFailed(k) =>
        k < |s.loads| && s.loads[k].host == c.host && s.loads[k].starter == Some(g) && s.loads[k].status == Broken
    else
      && c.e < |s.store| && s.store[c.e].host == c.host
      && (c.HoldsLock(c.e) ==> s.store[c.e].holder == Some(g))
      && (c.Loading? || c.Loaded? ==>
            && s.store[c.e].data.None? && c.k < |s.loads|
            && s.loads[c.k].host == c.host && s.loads[c.k].entry == c.e && s.loads[c.k].starter == Some(g)
            && (s.loads[c.k].status == Running <==> c.Loading?))
  }

  predicate RefresherOk(s: State) {
    match s.refresher
    case Idle => true
    case Sweeping(_, todo, work) =>
      && todo <= s.entries.Keys && (forall e <- work :: e < |s.store|)
      && (forall host <- s.entries :: host in todo || s.entries[host] in work)
    case Working(work) => forall e <- work :: e < |s.store|
    case r =>
      && (forall e <- r.work :: e < |s.store|)
      && r.e < |s.store| && r.k < |s.loads| && s.store[r.e].data.Some? && s.store[r.e].data.value.load < r.k
      && s.loads[r.k].host == s.store[r.e].host && s.loads[r.k].entry == r.e && s.loads[r.k].starter.None?
      && (s.loads[r.k].status == Running <==> r.Refreshing?)
  }

  /** The load running for an entry, if any: the refresher's or the lock holder's. */
  function RunningLoad(s: State, e: EntryId): Option<LoadId>
    requires e < |s.store|
  {
    if s.refresher.Refreshing? && s.refresher.e == e then Some(s.refresher.k)
    else
      match s.store[e].holder
      case Some(g) => if g in s.getters && s.getters[g].Loading? then Some(s.getters[g].k) else None
      case None => None
  }

  predicate LoadOk(s: State, k: LoadId)
    requires k < |s.loads|
  {
    && s.loads[k].entry < |s.store|
    && (s.loads[k].status.Running? ==> RunningLoad(s, s.loads[k].entry) == Some(k))
    && (s.loads[k].status.Succeeded? ==> WellFormed(s.loads[k].status.snapshot))
  }

  predicate Inv(s: State) {
    && (forall host <- s.entries :: SlotOk(s, host))
    && (forall e :: 0 <= e < |s.store| ==> EntryOk(s, e))
    && (forall g <- s.getters :: GetterOk(s, g))
    && RefresherOk(s)
    && (forall k :: 0 <= k < |s.loads| ==> LoadOk(s, k))
  }

  /** The entry and the record a getter's step is about are in order. */
  lemma CallerOk(s: State, e: Event)
    requires Inv(s) && Enabled(s, e) && OfGet(e) && !e.Call?
    ensures GetterOk(s, e.g) && s.getters[e.g].e < |s.store| && EntryOk(s, s.getters[e.g].e)
    ensures e.Finish? ==> LoadOk(s, s.getters[e.g].k)
  {
    hide EntryOk, LoadOk, SlotOk, RefresherOk;
    assert GetterOk(s, e.g);
  }

  lemma StepKeepsSlots(s: State, e: Event)
    requires Inv(s) && Enabled(s, e)
    ensures forall host <- Next(s, e).entries :: SlotOk(Next(s, e), host)
  {
    hide EntryOk, GetterOk, RefresherOk, LoadOk;
    var t := Next(s, e);
    forall host <- t.entries ensures SlotOk(t, host) {
      if host in s.entries { assert SlotOk(s, host); }
    }
  }

  lemma RefreshKeepsEntries(s: State, e: Event, i: EntryId)
    requires Inv(s) && Enabled(s, e) && OfRefresh(e) && i < |s.store|
    ensures EntryOk(RefreshStep(s, e), i)
  {
    hide WellFormed, SlotOk, GetterOk;
    if e.RefreshFinish? { assert LoadOk(s, s.refresher.k); }
    assert EntryOk(s, i);
  }

  lemma CallerStaysOk(s: State, e: Event)
    requires Inv(s) && Enabled(s, e) && OfGet(e)
    ensures GetterOk(GetStep(s, e), e.g)
  {
    if !e.Call? { CallerOk(s, e); }
    if e.Call? && e.host in s.entries { assert SlotOk(s, e.host); }
    hide WellFormed, RefresherOk, Inv;
  }

  /** Loads only end, and once; hosts of entries and of loads never change. */
  predicate Grows(s: State, t: State) {
    && |s.store| <= |t.store| && |s.loads| <= |t.loads| <= |s.loads| + 1
    && (forall i :: 0 <= i < |s.store| ==> t.store[i].host == s.store[i].host)
    && (forall k :: 0 <= k < |s.loads| ==> s.loads[k].status == Running || t.loads[k] == s.loads[k])
  }

  lemma StoredStays(s: State, t: State, host: Host, st: Stored)
    requires Grows(s, t) && StoredOk(s, host, st)
    ensures StoredOk(t, host, st) && t.loads[st.load].entry == s.loads[st.load].entry
  {
    hide WellFormed;
  }

  /** A step of get changes only its caller's record and entry. */
  lemma GetFrame(s: State, e: Event)
    requires Enabled(s, e) && OfGet(e)
    ensures var t := GetStep(s, e);
            && t.refresher == s.refresher && |s.store| <= |t.store|
            && (forall g :: g != e.g ==> (g in s.getters <==> g in t.getters))
            && (forall g :: g in s.getters && g != e.g ==> t.getters[g] == s.getters[g])
            && (forall i :: 0 <= i < |s.store| && (e.Call? || i != s.getters[e.g].e) ==> t.store[i] == s.store[i])
            && (forall i :: |s.store| <= i < |t.store| ==> t.store[i].data.None? && t.store[i].holder.None?)
            && (forall i :: 0 <= i < |s.store| && !e.Finish? ==> t.store[i].data == s.store[i].data)
            && (forall i :: 0 <= i < |s.store| && (e.Touch? || e.Check? || e.LoadEnds?) ==>
                  t.store[i].holder == s.store[i].holder)
            && |s.loads| <= |t.loads|
            && (forall k :: 0 <= k < |s.loads| ==> t.loads[k] == s.loads[k] || (e.LoadEnds? && k == s.getters[e.g].k))
  {
  }

  /** A step of the refresher changes only its own entry's snapshot and its own load. */
  lemma RefreshFrame(s: State, e: Event)
    requires Enabled(s, e) && OfRefresh(e)
    ensures var t := RefreshStep(s, e);
            && t.getters == s.getters && |t.store| == |s.store| && |s.loads| <= |t.loads|
            && (forall i :: 0 <= i < |s.store| ==>
                  t.store[i].holder == s.store[i].holder && t.store[i].host == s.store[i].host
                  && (t.store[i] == s.store[i] || (e.RefreshFinish? && i == s.refresher.e)))
            && (forall k :: 0 <= k < |s.loads| ==>
                  t.loads[k] == s.loads[k] || (e.RefreshLoadEnds? && k == s.refresher.k))
            && (t.refresher.Refreshing? ==> e.Pick? && t.refresher.e == e.e && s.store[e.e].data.Some?)
  {
  }

  lemma CallersEntryStaysOk(s: State, e: Event)
    requires Inv(s) && Enabled(s, e) && OfGet(e) && !e.Call?
    ensures EntryOk(GetStep(s, e), s.getters[e.g].e)
  {
    CallerOk(s, e);
    StepGrows(s, e);
    var i := s.getters[e.g].e;
    if s.store[i].data.Some? { StoredStays(s, GetStep(s, e), s.store[i].host, s.store[i].data.value); }
    hide WellFormed, RefresherOk, Grows, Inv;
  }

  lemma GetKeepsEntries(s: State, e: Event, i: EntryId)
    requires Inv(s) && Enabled(s, e) && OfGet(e) && i < |GetStep(s, e).store|
    requires e.Call? || i != s.getters[e.g].e
    ensures EntryOk(GetStep(s, e), i)
  {
    StepGrows(s, e);
    GetFrame(s, e);
    if i < |s.store| {
      assert EntryOk(s, i);
      if s.store[i].data.Some? { StoredStays(s, GetStep(s, e), s.store[i].host, s.store[i].data.value); }
    }
    if !e.Call? { CallerOk(s, e); }
    hide StoredOk, LoadOk, Grows, Inv, GetStep;
  }

  /** A step of somebody else leaves a getter alone: what it holds and runs is its own. */
  predicate Apart(s: State, t: State, g: GetterId)
    requires g in s.getters && GetterOk(s, g)
  {
    && g in t.getters && t.getters[g] == s.getters[g] && Grows(s, t)
    && var c := s.getters[g];
       (c.Locked? || c.Loading? || c.Loaded? ==>
         && t.store[c.e].holder == s.store[c.e].holder
         && (c.Loading? || c.Loaded? ==> t.store[c.e].data.None? && t.loads[c.k] == s.loads[c.k]))
  }

  lemma ApartStaysOk(s: State, t: State, g: GetterId)
    requires g in s.getters && GetterOk(s, g) && Apart(s, t, g)
    ensures GetterOk(t, g)
  {
    hide WellFormed;
  }

  lemma StepGrows(s: State, e: Event)
    requires Inv(s) && Enabled(s, e) && (OfGet(e) || OfRefresh(e))
    ensures Grows(s, if OfGet(e) then GetStep(s, e) else RefreshStep(s, e))
  {
    if OfGet(e) && !e.Call? { CallerOk(s, e); }
    assert RefresherOk(s);
    hide WellFormed, SlotOk, LoadOk, EntryOk, Inv;
  }

  lemma GetKeepsGetters(s: State, e: Event, g: GetterId)
    requires Inv(s) && Enabled(s, e) && OfGet(e) && g in s.getters && g != e.g
    ensures GetterOk(GetStep(s, e), g)
  {
    if !e.Call? { CallerOk(s, e); }
    assert GetterOk(s, g);
    StepGrows(s, e);
    GetFrame(s, e);
    hide WellFormed, RefresherOk, EntryOk, LoadOk, Inv, Grows, GetStep;
    ApartStaysOk(s, GetStep(s, e), g);
  }

  lemma RefreshKeepsGetters(s: State, e: Event, g: GetterId)
    requires Inv(s) && Enabled(s, e) && OfRefresh(e) && g in s.getters
    ensures GetterOk(RefreshStep(s, e), g)
  {
    assert GetterOk(s, g) && RefresherOk(s);
    StepGrows(s, e);
    RefreshFrame(s, e);
    hide WellFormed, SlotOk, LoadOk, EntryOk, Inv, Grows, RefreshStep;
    ApartStaysOk(s, RefreshStep(s, e), g);
  }

  lemma GetKeepsRefresher(s: State, e: Event)
    requires Inv(s) && Enabled(s, e) && OfGet(e)
    ensures RefresherOk(GetStep(s, e))
  {
    if !e.Call? { CallerOk(s, e); }
    assert RefresherOk(s);
    GetFrame(s, e);
    StepGrows(s, e);
    hide WellFormed, LoadOk, EntryOk, Inv, GetStep;
    assert GetStep(s, e).entries.Keys >= s.entries.Keys by { GetKeepsEntryMap(s, e); }
  }

  lemma GetKeepsEntryMap(s: State, e: Event)
    requires Enabled(s, e) && OfGet(e)
    ensures GetStep(s, e).entries.Keys >= s.entries.Keys
  {
  }

  lemma RefreshKeepsRefresher(s: State, e: Event)
    requires Inv(s) && Enabled(s, e) && OfRefresh(e)
    ensures RefresherOk(RefreshStep(s, e))
  {
    hide WellFormed, LoadOk, GetterOk;
    if e.Pick? { assert EntryOk(s, e.e); }
    if e.Sweep? { assert SlotOk(s, e.host); }
  }

  /** A load of somebody else. */
  lemma GetKeepsLoads(s: State, e: Event, k: LoadId)
    requires Inv(s) && Enabled(s, e) && OfGet(e) && k < |s.loads| && (e.LoadEnds? ==> k != s.getters[e.g].k)
    ensures LoadOk(GetStep(s, e), k)
  {
    assert LoadOk(s, k);
    assert EntryOk(s, s.loads[k].entry);
    if !e.Call? { CallerOk(s, e); }
    GetFrame(s, e);
    hide WellFormed, StoredOk, RefresherOk, Inv;
  }

  lemma CallersLoadStaysOk(s: State, e: Event, k: LoadId)
    requires Inv(s) && Enabled(s, e) && OfGet(e) && k < |GetStep(s, e).loads|
    requires k == |s.loads| || (e.LoadEnds? && k == s.getters[e.g].k)
    ensures LoadOk(GetStep(s, e), k)
  {
    if !e.Call? { CallerOk(s, e); }
    assert RefresherOk(s);
    hide WellFormed, StoredOk, Inv;
  }

  lemma RefreshKeepsLoads(s: State, e: Event, k: LoadId)
    requires Inv(s) && Enabled(s, e) && OfRefresh(e) && k < |s.loads| && (e.RefreshLoadEnds? ==> k != s.refresher.k)
    ensures LoadOk(RefreshStep(s, e), k)
  {
    assert LoadOk(s, k);
    assert EntryOk(s, s.loads[k].entry);
    assert RefresherOk(s);
    var i := s.loads[k].entry;
    if s.store[i].holder.Some? { assert GetterOk(s, s.store[i].holder.value); }
    RefreshFrame(s, e);
    hide WellFormed, StoredOk, EntryOk, Inv;
    if s.loads[k].status.Running? {
      assert s.store[i].holder.Some? && s.store[i].data.None?;
      hide GetterOk, RefresherOk, RefreshStep;
    }
  }

  lemma RefreshersLoadStaysOk(s: State, e: Event, k: LoadId)
    requires Inv(s) && Enabled(s, e) && OfRefresh(e) && k < |RefreshStep(s, e).loads|
    requires k == |s.loads| || (e.RefreshLoadEnds? && k == s.refresher.k)
    ensures LoadOk(RefreshStep(s, e), k)
  {
    assert RefresherOk(s);
    hide WellFormed, StoredOk, GetterOk, EntryOk, Inv;
  }

  lemma ClockKeepsInv(s: State, e: Event)
    requires Inv(s) && Enabled(s, e) && (e.Tick? || e.Close?)
    ensures Inv(Next(s, e))
  {
    hide WellFormed;
    var t := Next(s, e);
    forall host <- t.entries ensures SlotOk(t, host) { assert SlotOk(s, host); }
    forall i | 0 <= i < |t.store| ensures EntryOk(t, i) { assert EntryOk(s, i); }
    forall g <- t.getters ensures GetterOk(t, g) { assert GetterOk(s, g); }
    forall k | 0 <= k < |t.loads| ensures LoadOk(t, k) { assert LoadOk(s, k); }
  }

  lemma GetKeepsInv(s: State, e: Event)
    requires Inv(s) && Enabled(s, e) && OfGet(e)
    ensures Inv(Next(s, e))
  {
    StepKeepsSlots(s, e);
    StepGrows(s, e);
    GetKeepsRefresher(s, e);
    CallerStaysOk(s, e);
    if !e.Call? { CallerOk(s, e); CallersEntryStaysOk(s, e); }
    var t := Next(s, e);
    hide WellFormed, SlotOk, GetterOk, EntryOk, LoadOk, RefresherOk, GetStep;
    forall i | 0 <= i < |t.store| ensures EntryOk(t, i) {
      if e.Call? || i != s.getters[e.g].e { GetKeepsEntries(s, e, i); }
    }
    forall g <- t.getters ensures GetterOk(t, g) {
      if g != e.g { GetFrame(s, e); GetKeepsGetters(s, e, g); }
    }
    forall k | 0 <= k < |t.loads| ensures LoadOk(t, k) {
      if k == |s.loads| || (e.LoadEnds? && k == s.getters[e.g].k) {
        CallersLoadStaysOk(s, e, k);
      } else {
        GetKeepsLoads(s, e, k);
      }
    }
  }

  lemma RefreshKeepsInv(s: State, e: Event)
    requires Inv(s) && Enabled(s, e) && OfRefresh(e)
    ensures Inv(Next(s, e))
  {
    StepKeepsSlots(s, e);
    StepGrows(s, e);
    RefreshKeepsRefresher(s, e);
    var t := Next(s, e);
    RefreshFrame(s, e);
    hide WellFormed, SlotOk, GetterOk, EntryOk, LoadOk, RefresherOk, RefreshStep, Enabled;
    forall i | 0 <= i < |t.store| ensures EntryOk(t, i) { RefreshKeepsEntries(s, e, i); }
    forall g <- t.getters ensures GetterOk(t, g) { RefreshKeepsGetters(s, e, g); }
    forall k | 0 <= k < |t.loads| ensures LoadOk(t, k) {
      if k == |s.loads| || (e.RefreshLoadEnds? && k == s.refresher.k) {
        RefreshersLoadStaysOk(s, e, k);
      } else {
        RefreshKeepsLoads(s, e, k);
      }
    }
  }

  lemma StepKeepsInv(s: State, e: Event)
    requires Inv(s) && Enabled(s, e)
    ensures Inv(Next(s, e))
  {
    hide Inv, Enabled, Next;
    if OfGet(e) {
      GetKeepsInv(s, e);
    } else if OfRefresh(e) {
      RefreshKeepsInv(s, e);
    } else {
      ClockKeepsInv(s, e);
    }
  }

  lemma {:induction false} RunKeepsInv(s: State, es: seq<Event>)
    requires Inv(s) && Run(s, es).Some?
    ensures Inv(Run(s, es).value)
    decreases |es|
  {
    hide Next, Enabled, Inv;
    if es != [] {
      StepKeepsInv(s, es[0]);
      RunKeepsInv(Next(s, es[0]), es[1..]);
    }
  }

  // ----- what holds over all runs

  /** At most one load per entry runs at a time, and at most one getter holds an
      entry's load mutex. */
  lemma OneLoadPerEntry(start: int, es: seq<Event>, k: LoadId, m: LoadId, g: GetterId, h: GetterId, e: EntryId)
    requires Run(Init(start), es).Some?
    ensures var s := Run(Init(start), es).value;
            && (k < |s.loads| && m < |s.loads| && s.loads[k].status == s.loads[m].status == Running ==>
                  (s.loads[k].entry == s.loads[m].entry ==> k == m))
            && (g in s.getters && h in s.getters && s.getters[g].HoldsLock(e) && s.getters[h].HoldsLock(e) ==> g == h)
  {
    RunKeepsInv(Init(start), es);
    hide Run, EntryOk, RefresherOk, SlotOk;
    var s := Run(Init(start), es).value;
    if k < |s.loads| && m < |s.loads| { assert LoadOk(s, k) && LoadOk(s, m); }
    if g in s.getters && h in s.getters { assert GetterOk(s, g) && GetterOk(s, h); }
  }

  /** Whatever get returns is one complete, successful load of the host it was asked
      for, and well formed; it reports an error only when the load it began itself failed. */
  lemma ServedIsOneLoad(start: int, es: seq<Event>, g: GetterId)
    requires Run(Init(start), es).Some? && g in Run(Init(start), es).value.getters
    requires Run(Init(start), es).value.getters[g].Returned?
    ensures var s := Run(Init(start), es).value;
            var Returned(host, outcome) := s.getters[g];
            match outcome
            case Served(st) =>
              && st.load < |s.loads| && s.loads[st.load].host == host
              && s.loads[st.load].status == Succeeded(st.snapshot) && WellFormed(st.snapshot)
            case LoadFailed(k) =>
              k < |s.loads| && s.loads[k].host == host && s.loads[k].starter == Some(g) && s.loads[k].status == Broken
  {
    RunKeepsInv(Init(start), es);
    hide Run, WellFormed;
    assert GetterOk(Run(Init(start), es).value, g);
  }

  /** The load whose result this step stores into entry i, if any. */
  function Stores(s: State, e: Event, i: EntryId): Option<LoadId>
    requires Enabled(s, e)
  {
    if e.Finish? && s.getters[e.g].e == i && s.loads[s.getters[e.g].k].status.Succeeded? then Some(s.getters[e.g].k)
    else if e.RefreshFinish? && s.refresher.e == i && s.loads[s.refresher.k].status.Succeeded? then Some(s.refresher.k)
    else None
  }

  /** A snapshot changes only when a successful load of its entry is stored, and
      then to that load's result; a stored load is newer than what it replaces. In
      particular a failed refresh changes no entry. */
  lemma StepReplacesByNewer(s: State, e: Event, i: EntryId)
    requires Inv(s) && Enabled(s, e) && i < |s.store|
    ensures i < |Next(s, e).store|
    ensures var was, now := s.store[i].data, Next(s, e).store[i].data;
            match Stores(s, e, i)
            case None => now == was
            case Some(k) =>
              && now.Some? && now.value.load == k && s.loads[k].status == Succeeded(now.value.snapshot)
              && s.loads[k].entry == i && (was.Some? ==> was.value.load < k)
  {
    if OfGet(e) && !e.Call? { CallerOk(s, e); }
    hide WellFormed, LoadOk, EntryOk, SlotOk, Inv;
  }

  /** Over a whole run, a snapshot once set is never unset, and never replaced by
      the result of a load that started earlier. */
  lemma {:induction false} SnapshotsOnlyGetNewer(s: State, es: seq<Event>, i: EntryId)
    requires Inv(s) && Run(s, es).Some? && i < |s.store| && s.store[i].data.Some?
    ensures var t := Run(s, es).value;
            && i < |t.store| && t.store[i].data.Some? && t.store[i].data.value.load >= s.store[i].data.value.load
            && (t.store[i].data.value.load == s.store[i].data.value.load ==> t.store[i].data == s.store[i].data)
    decreases |es|
  {
    hide Next, Enabled, Inv;
    if es != [] {
      StepKeepsInv(s, es[0]);
      StepReplacesByNewer(s, es[0], i);
      SnapshotsOnlyGetNewer(Next(s, es[0]), es[1..], i);
    }
  }

  /** Every snapshot in a reachable cache: for the host it is filed under. */
  lemma FiledUnderItsHost(start: int, es: seq<Event>, host: Host)
    requires Run(Init(start), es).Some? && host in Run(Init(start), es).value.entries
    ensures var s := Run(Init(start), es).value;
            && s.entries[host] < |s.store|
            && (s.store[s.entries[host]].data.Some? ==> StoredOk(s, host, s.store[s.entries[host]].data.value))
  {
    RunKeepsInv(Init(start), es);
    hide Run, WellFormed;
    var s := Run(Init(start), es).value;
    assert SlotOk(s, host) && EntryOk(s, s.entries[host]);
  }

  // ----- one entry per host

  predicate NoSweepOf(es: seq<Event>, host: Host) { forall i :: 0 <= i < |es| ==> es[i] != Sweep(host) }

  lemma StepKeepsFiled(s: State, e: Event, host: Host)
    requires Enabled(s, e) && host in s.entries && e != Sweep(host)
    ensures host in Next(s, e).entries && Next(s, e).entries[host] == s.entries[host]
  {
  }

  /** A host's entry stays the same until the host is swept: a later get finds it. */
  lemma {:induction false} FiledUntilSwept(s: State, es: seq<Event>, host: Host)
    requires Run(s, es).Some? && host in s.entries && NoSweepOf(es, host)
    ensures host in Run(s, es).value.entries && Run(s, es).value.entries[host] == s.entries[host]
    decreases |es|
  {
    hide Next, Enabled;
    if es != [] {
      StepKeepsFiled(s, es[0], host);
      assert forall i :: 0 <= i < |es[1..]| ==> es[1..][i] == es[i + 1];
      FiledUntilSwept(Next(s, es[0]), es[1..], host);
    }
  }

  /** A sweep drops a host exactly when its entry was not used since the bound, and
      takes it up for a refresh otherwise; other hosts are not affected. */
  lemma SweepMeaning(s: State, host: Host, other: Host)
    requires Enabled(s, Sweep(host))
    ensures var t := Next(s, Sweep(host));
            && (host in t.entries <==> s.store[s.entries[host]].lastUsed >= s.refresher.idleBefore)
            && (host in t.entries ==> t.refresher.work == s.refresher.work + {s.entries[host]})
            && (other != host ==> (other in t.entries <==> other in s.entries))
            && (other in t.entries ==> t.entries[other] == s.entries[other])
            && t.store == s.store
  {
  }

  /** Every host filed when a sweep ends is up for its refresh. */
  lemma SweepIsComplete(s: State, host: Host)
    requires Inv(s) && Enabled(s, SweepEnds) && host in s.entries
    ensures Next(s, SweepEnds).refresher.Working? && s.entries[host] in Next(s, SweepEnds).refresher.work
  {
    hide SlotOk, EntryOk, GetterOk, LoadOk;
  }

  predicate UsedSince(s: State, host: Host, bound: int) {
    && s.refresher.Sweeping? && s.refresher.idleBefore == bound <= s.now
    && host in s.entries && s.entries[host] < |s.store| && s.store[s.entries[host]].lastUsed >= bound
  }

  lemma StepKeepsUsed(s: State, e: Event, host: Host, bound: int)
    requires Enabled(s, e) && e != SweepEnds && UsedSince(s, host, bound)
    ensures UsedSince(Next(s, e), host, bound) && Next(s, e).entries[host] == s.entries[host]
  {
  }

  /** Over a sweep and all that happens during it, a host used since the bound keeps
      its entry. */
  lemma {:induction false} RecentlyUsedIsKept(s: State, es: seq<Event>, host: Host, bound: int)
    requires Run(s, es).Some? && UsedSince(s, host, bound) && forall i :: 0 <= i < |es| ==> es[i] != SweepEnds
    ensures host in Run(s, es).value.entries && Run(s, es).value.entries[host] == s.entries[host]
    decreases |es|
  {
    hide Next, Enabled;
    if es != [] {
      StepKeepsUsed(s, es[0], host, bound);
      assert forall i :: 0 <= i < |es[1..]| ==> es[1..][i] == es[i + 1];
      RecentlyUsedIsKept(Next(s, es[0]), es[1..], host, bound);
    }
  }

  /** A host used within the idle time before a sweep keeps its entry through it. */
  lemma UsedWithinIdleIsKept(s: State, idle: nat, es: seq<Event>, host: Host)
    requires Enabled(s, SweepBegins(idle)) && Run(s, [SweepBegins(idle)] + es).Some?
    requires host in s.entries && s.entries[host] < |s.store| && s.store[s.entries[host]].lastUsed >= s.now - idle
    requires forall i :: 0 <= i < |es| ==> es[i] != SweepEnds
    ensures var t := Run(s, [SweepBegins(idle)] + es).value; host in t.entries && t.entries[host] == s.entries[host]
  {
    assert ([SweepBegins(idle)] + es)[1..] == es;
    RecentlyUsedIsKept(Next(s, SweepBegins(idle)), es, host, s.now - idle);
  }

  // ----- a get of a cached host

  /** Where get g of a host is while entry i holds a snapshot of load k0 or later:
      on its way to that snapshot, or served one; it began no load. */
  predicate OnCachedPath(s: State, g: GetterId, host: Host, i: EntryId, k0: LoadId, base: nat) {
    && i < |s.store| && s.store[i].data.Some? && s.store[i].data.value.load >= k0
    && g in s.getters
    && (|| s.getters[g] == Looked(host, i) || s.getters[g] == Touched(host, i)
        || (&& s.getters[g].Returned? && s.getters[g].host == host
            && s.getters[g].outcome.Served? && s.getters[g].outcome.stored.load >= k0))
    && (forall k :: base <= k < |s.loads| ==> s.loads[k].starter != Some(g))
  }

  lemma GetStaysOnCachedPath(s: State, e: Event, g: GetterId, host: Host, i: EntryId, k0: LoadId, base: nat)
    requires Inv(s) && Enabled(s, e) && OfGet(e) && OnCachedPath(s, g, host, i, k0, base)
    ensures OnCachedPath(Next(s, e), g, host, i, k0, base)
  {
    StepReplacesByNewer(s, e, i);
    if !e.Call? { CallerOk(s, e); }
    hide WellFormed, LoadOk, EntryOk, SlotOk, Inv;
  }

  lemma OtherStaysOnCachedPath(s: State, e: Event, g: GetterId, host: Host, i: EntryId, k0: LoadId, base: nat)
    requires Inv(s) && Enabled(s, e) && !OfGet(e) && OnCachedPath(s, g, host, i, k0, base)
    ensures OnCachedPath(Next(s, e), g, host, i, k0, base)
  {
    StepReplacesByNewer(s, e, i);
    assert RefresherOk(s);
    hide WellFormed, LoadOk, EntryOk, SlotOk, Inv;
  }

  lemma StepStaysOnCachedPath(s: State, e: Event, g: GetterId, host: Host, i: EntryId, k0: LoadId, base: nat)
    requires Inv(s) && Enabled(s, e) && OnCachedPath(s, g, host, i, k0, base)
    ensures OnCachedPath(Next(s, e), g, host, i, k0, base)
  {
    hide Next, Enabled, Inv, OnCachedPath;
    if OfGet(e) {
      GetStaysOnCachedPath(s, e, g, host, i, k0, base);
    } else {
      OtherStaysOnCachedPath(s, e, g, host, i, k0, base);
    }
  }

  lemma {:induction false} RunStaysOnCachedPath(s: State, es: seq<Event>, g: GetterId, host: Host, i: EntryId,
                                                k0: LoadId, base: nat)
    requires Inv(s) && Run(s, es).Some? && OnCachedPath(s, g, host, i, k0, base)
    ensures OnCachedPath(Run(s, es).value, g, host, i, k0, base)
    decreases |es|
  {
    hide Next, Enabled, Inv, OnCachedPath;
    if es != [] {
      StepKeepsInv(s, es[0]);
      StepStaysOnCachedPath(s, es[0], g, host, i, k0, base);
      RunStaysOnCachedPath(Next(s, es[0]), es[1..], g, host, i, k0, base);
    }
  }

  /** A get called while its host's entry has a snapshot never begins a load: at any
      later time it is on its way to that entry's snapshot, or was served that one
      or a newer one. */
  lemma CachedHostIsServed(s: State, g: GetterId, host: Host, es: seq<Event>)
    requires Inv(s) && Enabled(s, Call(g, host)) && Run(s, [Call(g, host)] + es).Some?
    requires host in s.entries && s.entries[host] < |s.store| && s.store[s.entries[host]].data.Some?
    ensures var i := s.entries[host];
            OnCachedPath(Run(s, [Call(g, host)] + es).value, g, host, i, s.store[i].data.value.load, |s.loads|)
  {
    var i := s.entries[host];
    var t := Next(s, Call(g, host));
    assert ([Call(g, host)] + es)[1..] == es;
    StepKeepsInv(s, Call(g, host));
    assert OnCachedPath(t, g, host, i, s.store[i].data.value.load, |s.loads|);
    hide Next, Inv, OnCachedPath;
    RunStaysOnCachedPath(t, es, g, host, i, s.store[i].data.value.load, |s.loads|);
  }

  /** And nothing can hold it up: its own two steps take it to the snapshot. */
  lemma CachedGetEnds(s: State, g: GetterId, host: Host, i: EntryId)
    requires g in s.getters && s.getters[g] == Looked(host, i) && i < |s.store| && s.store[i].data.Some?
    ensures var r := Run(s, [Touch(g), Check(g)]);
            && r.Some? && g in r.value.getters
            && r.value.getters[g] == Returned(host, Served(s.store[i].data.value))
            && |r.value.store| == |s.store| && r.value.store[i].lastUsed == s.now
  {
    var t := Next(s, Touch(g));
    assert [Touch(g), Check(g)][1..] == [Check(g)];
    assert Run(s, [Touch(g), Check(g)]) == Run(t, [Check(g)]);
    assert [Check(g)][1..] == [];
    assert Run(t, [Check(g)]) == Run(Next(t, Check(g)), []);
  }

  // ----- loads of one host

  /** Gets called since are on the entry filed for their host. */
  predicate NewOnFiled(earlier: set<GetterId>, s: State, host: Host) {
    forall g <- s.getters :: g !in earlier && s.getters[g].host == host && !s.getters[g].Returned? ==>
      host in s.entries && s.getters[g].e == s.entries[host]
  }

  lemma StepKeepsNewOnFiled(earlier: set<GetterId>, s: State, e: Event, host: Host)
    requires Enabled(s, e) && e != Sweep(host) && NewOnFiled(earlier, s, host)
    ensures NewOnFiled(earlier, Next(s, e), host)
  {
    if host in s.entries { StepKeepsFiled(s, e, host); }
    hide RefreshStep;
    if OfRefresh(e) { RefreshFrame(s, e); }
  }

  lemma {:induction false} RunKeepsNewOnFiled(earlier: set<GetterId>, s: State, es: seq<Event>, host: Host)
    requires Run(s, es).Some? && NoSweepOf(es, host) && NewOnFiled(earlier, s, host)
    ensures NewOnFiled(earlier, Run(s, es).value, host)
    decreases |es|
  {
    hide Next, Enabled, NewOnFiled;
    if es != [] {
      StepKeepsNewOnFiled(earlier, s, es[0], host);
      assert forall i :: 0 <= i < |es[1..]| ==> es[1..][i] == es[i + 1];
      RunKeepsNewOnFiled(earlier, Next(s, es[0]), es[1..], host);
    }
  }

  /** The getter that runs a load. */
  lemma RunnersLoad(s: State, k: LoadId, g: GetterId)
    requires Inv(s) && k < |s.loads| && s.loads[k].status.Running? && s.loads[k].starter == Some(g)
    ensures g in s.getters && s.getters[g] == Loading(s.loads[k].host, s.loads[k].entry, k)
  {
    assert LoadOk(s, k);
    var i := s.loads[k].entry;
    assert EntryOk(s, i) && RefresherOk(s);
    if s.store[i].holder.Some? { assert GetterOk(s, s.store[i].holder.value); }
    hide Inv, WellFormed;
  }

  /** While a host is not swept, the gets called since run at most one load for it at
      a time, whatever gets called before on an entry long dropped still do. */
  lemma OneLoadPerHost(s: State, es: seq<Event>, host: Host, k: LoadId, m: LoadId, g: GetterId, h: GetterId)
    requires Inv(s) && Run(s, es).Some? && NoSweepOf(es, host) && g !in s.getters && h !in s.getters
    requires var t := Run(s, es).value;
             && k < |t.loads| && t.loads[k].status.Running? && t.loads[k].host == host && t.loads[k].starter == Some(g)
             && m < |t.loads| && t.loads[m].status.Running? && t.loads[m].host == host && t.loads[m].starter == Some(h)
    ensures k == m && g == h
  {
    RunKeepsInv(s, es);
    RunKeepsNewOnFiled(s.getters.Keys, s, es, host);
    var t := Run(s, es).value;
    RunnersLoad(t, k, g);
    RunnersLoad(t, m, h);
    assert LoadOk(t, k) && LoadOk(t, m);
    hide Run, Inv, GetterOk, EntryOk, RefresherOk, WellFormed;
  }

  // ----- what becomes of a load

  /** A getter's load that succeeds is stored and served; one that fails is reported
      and leaves no snapshot; either way the mutex is free again. */
  lemma LoadIsReturned(s: State, g: GetterId, result: Option<Snapshot>)
    requires Inv(s) && Enabled(s, LoadEnds(g, result))
    ensures var c := s.getters[g];
            var r := Run(s, [LoadEnds(g, result), Finish(g)]);
            && r.Some? && g in r.value.getters && c.e < |r.value.store|
            && r.value.store[c.e].holder == None
            && (match result
                case Some(x) =>
                  && r.value.getters[g] == Returned(c.host, Served(Stored(c.k, x)))
                  && r.value.store[c.e].data == Some(Stored(c.k, x))
                case None =>
                  r.value.getters[g] == Returned(c.host, LoadFailed(c.k)) && r.value.store[c.e].data == None)
  {
    CallerOk(s, LoadEnds(g, result));
    hide Inv, WellFormed, EntryOk, LoadOk, RefresherOk, SlotOk;
    var t := Next(s, LoadEnds(g, result));
    assert [LoadEnds(g, result), Finish(g)][1..] == [Finish(g)];
    assert Run(s, [LoadEnds(g, result), Finish(g)]) == Run(t, [Finish(g)]);
    assert [Finish(g)][1..] == [];
    assert Run(t, [Finish(g)]) == Run(Next(t, Finish(g)), []);
  }

  /** The refresher loads every entry it takes up that has a snapshot; a successful
      load replaces it, a failed one leaves it, and the rest of the work goes on
      unless the cache is closing. */
  lemma RefreshIsStored(s: State, e: EntryId, result: Option<Snapshot>)
    requires Inv(s) && Enabled(s, Pick(e)) && s.store[e].data.Some? && ResultOk(result)
    ensures var k := |s.loads|;
            var work := s.refresher.work - {e};
            var r := Run(s, [Pick(e), RefreshLoadEnds(result), RefreshFinish]);
            && r.Some? && |r.value.store| == |s.store|
            && r.value.store[e].data == (if result.Some? then Some(Stored(k, result.value)) else s.store[e].data)
            && r.value.refresher == if result.None? && s.closing then Idle else Working(work)
  {
    hide Inv, WellFormed, EntryOk, LoadOk, RefresherOk, SlotOk;
    var es := [Pick(e), RefreshLoadEnds(result), RefreshFinish];
    var t := Next(s, Pick(e));
    assert es[1..] == [RefreshLoadEnds(result), RefreshFinish] && es[1..][1..] == [RefreshFinish];
    assert Run(s, es) == Run(t, es[1..]);
    var u := Next(t, RefreshLoadEnds(result));
    assert Run(t, es[1..]) == Run(u, [RefreshFinish]);
    assert [RefreshFinish][1..] == [];
    assert Run(u, [RefreshFinish]) == Run(Next(u, RefreshFinish), []);
  }

  // ----- the cache object

  /** Each method is one atomic section of get or of refreshAll. */
  class VarCache {
    var entries: map<Host, EntryId>
    var store: seq<Entry>
    var loads: seq<LoadRecord>
    var getters: map<GetterId, Getter>
    var refresher: Refresher
    var now: int
    var closing: bool

    ghost function Current(): State
      reads this
    {
      State(entries, store, loads, getters, refresher, now, closing)
    }

    ghost predicate Valid()
      reads this
    {
      Inv(Current())
    }

    constructor (now: int)
      ensures Valid() && Current() == Init(now)
    {
      entries, store, loads, getters, refresher := map[], [], [], map[], Idle;
      this.now, closing := now, false;
    }

    /** get under the cache's mutex. */
    method Lookup(g: GetterId, host: Host)
      requires Valid() && Enabled(Current(), Call(g, host))
      modifies this
      ensures Valid() && Current() == Next(old(Current()), Call(g, host))
    {
      StepKeepsInv(Current(), Call(g, host));
      hide Inv;
      if host !in entries {
        entries := entries[host := |store|];
        store := store + [Entry(host, None, 0, None)];
      }
      getters := getters[g := Looked(host, entries[host])];
    }

    method NoteUse(g: GetterId)
      requires Valid() && Enabled(Current(), Touch(g))
      modifies this
      ensures Valid() && Current() == Next(old(Current()), Touch(g))
    {
      StepKeepsInv(Current(), Touch(g));
      hide Inv;
      var c := getters[g];
      store := store[c.e := store[c.e].(lastUsed := now)];
      getters := getters[g := Touched(c.host, c.e)];
    }

    /** The look at the snapshot without the entry's mutex. */
    method Peek(g: GetterId) returns (served: Option<Snapshot>)
      requires Valid() && Enabled(Current(), Check(g))
      modifies this
      ensures Valid() && Current() == Next(old(Current()), Check(g))
      ensures served.Some? ==> WellFormed(served.value)
      ensures served.Some? <==> getters[g].Returned?
    {
      StepKeepsInv(Current(), Check(g));
      CallerOk(Current(), Check(g));
      hide Inv, WellFormed;
      var c := getters[g];
      match store[c.e].data {
        case Some(stored) =>
          getters := getters[g := Returned(c.host, Served(stored))];
          served := Some(stored.snapshot);
        case None =>
          getters := getters[g := Waiting(c.host, c.e)];
          served := None;
      }
    }

    method LockEntry(g: GetterId)
      requires Valid() && Enabled(Current(), Acquire(g))
      modifies this
      ensures Valid() && Current() == Next(old(Current()), Acquire(g))
    {
      StepKeepsInv(Current(), Acquire(g));
      hide Inv;
      var c := getters[g];
      store := store[c.e := store[c.e].(holder := Some(g))];
      getters := getters[g := Locked(c.host, c.e)];
    }

    /** The second look, with the mutex; without a snapshot the load begins. */
    method LookAgain(g: GetterId) returns (load: Option<LoadId>)
      requires Valid() && Enabled(Current(), Recheck(g))
      modifies this
      ensures Valid() && Current() == Next(old(Current()), Recheck(g))
      ensures load.Some? <==> getters[g].Loading?
    {
      StepKeepsInv(Current(), Recheck(g));
      hide Inv;
      var c := getters[g];
      if store[c.e].data.Some? {
        getters := getters[g := Returned(c.host, Served(store[c.e].data.value))];
        store := store[c.e := store[c.e].(holder := None)];
        load := None;
      } else {
        load := Some(|loads|);
        getters := getters[g := Loading(c.host, c.e, |loads|)];
        loads := loads + [LoadRecord(c.host, c.e, Some(g), Running)];
      }
    }

    /** After the load: store its snapshot, if any, and release the mutex. */
    method FinishGet(g: GetterId) returns (served: Option<Snapshot>)
      requires Valid() && Enabled(Current(), Finish(g))
      modifies this
      ensures Valid() && Current() == Next(old(Current()), Finish(g))
      ensures served.Some? ==> WellFormed(served.value)
    {
      StepKeepsInv(Current(), Finish(g));
      CallerOk(Current(), Finish(g));
      hide Inv, WellFormed;
      var c := getters[g];
      var entry := store[c.e];
      var outcome := LoadFailed(c.k);
      served := None;
      if loads[c.k].status.Succeeded? {
        served := Some(loads[c.k].status.snapshot);
        outcome := Served(Stored(c.k, served.value));
        entry := entry.(data := Some(Stored(c.k, served.value)));
      }
      store := store[c.e := entry.(holder := None)];
      getters := getters[g := Returned(c.host, outcome)];
    }

    /** One turn of refreshAll's first loop. */
    method SweepHost(host: Host)
      requires Valid() && Enabled(Current(), Sweep(host))
      modifies this
      ensures Valid() && Current() == Next(old(Current()), Sweep(host))
    {
      StepKeepsInv(Current(), Sweep(host));
      hide Inv;
      var e := entries[host];
      var todo := refresher.todo - {host};
      if store[e].lastUsed < refresher.idleBefore {
        entries := entries - {host};
        refresher := refresher.(todo := todo);
      } else {
        refresher := refresher.(todo := todo, work := refresher.work + {e});
      }
    }

    /** One turn of its second loop, up to the load. */
    method PickEntry(e: EntryId) returns (load: Option<LoadId>)
      requires Valid() && Enabled(Current(), Pick(e))
      modifies this
      ensures Valid() && Current() == Next(old(Current()), Pick(e))
      ensures load.Some? <==> old(store[e].data).Some?
    {
      StepKeepsInv(Current(), Pick(e));
      hide Inv;
      var work := refresher.work - {e};
      if store[e].data.None? {
        refresher := Working(work);
        return None;
      }
      load := Some(|loads|);
      refresher := Refreshing(work, e, |loads|);
      loads := loads + [LoadRecord(store[e].host, e, None, Running)];
    }

    method FinishRefresh()
      requires Valid() && Enabled(Current(), RefreshFinish)
      modifies this
      ensures Valid() && Current() == Next(old(Current()), RefreshFinish)
      ensures old(loads[refresher.k].status) == Broken ==> store == old(store)
    {
      StepKeepsInv(Current(), RefreshFinish);
      hide Inv;
      var r := refresher;
      if loads[r.k].status.Succeeded? {
        store := store[r.e := store[r.e].(data := Some(Stored(r.k, loads[r.k].status.snapshot)))];
        refresher := Working(r.work);
      } else {
        refresher := if closing then Idle else Working(r.work);
      }
    }
  }
}
