/** Fetching an issuer's signing keys (oidc.go): one shared, rate-limited fetch
    at a time, with waiters, as a step system over all interleavings and any
    monotone clock. A fetch ends with some key map or with an error. */
module KeyFetch {
  import opened Octets

  type Keys = map<string, nat>

  /** A channel that is closed when its fetch ends. */
  type Channel = nat

  type WaiterId = nat

  datatype Answer = Found(key: nat) | NotFound | GaveUp

  /** A caller of key: blocked on a channel (or about to look again, without one), or answered. */
  datatype Waiter = Blocked(kid: string, channel: Option<Channel>) | Answered(answer: Answer)

  /** The verifier's fields, then its environment: the clock, the channels made
      so far, those closed, the fetches running, the callers; and a history of
      fetch starts and of successful results. */
  datatype State = State(
    keys: Keys, fetched: int, lastAttempt: Option<int>, inflight: Option<Channel>,
    now: int, made: nat, closed: set<Channel>, running: set<Channel>, waiters: map<WaiterId, Waiter>,
    starts: seq<int>, successes: seq<Success>)

  /** A fetch that succeeded, and when. */
  datatype Success = Success(at: int, keys: Keys)

  datatype Config = Config(maxAge: int, minRefresh: int)

  datatype Event =
    | Tick(elapsed: nat)
    | AskKey(w: WaiterId, kid: string, lag: nat)
    | Wake(w: WaiterId)
    | GiveUp(w: WaiterId)
    | Prefetch(lag: nat)
    | FetchEnds(channel: Channel, result: Option<Keys>)

  function Init(now: int): State { State(map[], now, None, None, now, 0, {}, {}, map[], [], []) }

  /** startFetchLocked: nothing starts while a fetch runs or too soon after the
      last start. The clock is read twice, lag apart. */
  predicate MayStart(s: State, cfg: Config) {
    s.inflight.None? && (s.lastAttempt.None? || s.now - s.lastAttempt.value >= cfg.minRefresh)
  }

  function StartFetch(s: State, cfg: Config, lag: nat): State {
    if !MayStart(s, cfg) then s
    else s.(now := s.now + lag, lastAttempt := Some(s.now + lag), inflight := Some(s.made),
            made := s.made + 1, running := s.running + {s.made}, starts := s.starts + [s.now + lag])
  }

  function LookAgain(s: State, kid: string): Waiter {
    Answered(if kid in s.keys then Found(s.keys[kid]) else NotFound)
  }

  predicate Enabled(s: State, e: Event) {
    match e
    case Tick(_) => true
    case AskKey(w, _, _) => w !in s.waiters
    case Wake(w) =>
      w in s.waiters && s.waiters[w].Blocked?
      && (s.waiters[w].channel.None? || s.waiters[w].channel.value in s.closed)
    case GiveUp(w) => w in s.waiters && s.waiters[w].Blocked? && s.waiters[w].channel.Some?
    case Prefetch(_) => true
    case FetchEnds(c, _) => c in s.running
  }

  function Next(s: State, e: Event, cfg: Config): State
    requires Enabled(s, e)
  {
    match e
    case Tick(elapsed) => s.(now := s.now + elapsed)
    case AskKey(w, kid, lag) =>
      if kid in s.keys then
        var t := if s.now - s.fetched > cfg.maxAge then StartFetch(s, cfg, lag) else s;
        t.(waiters := t.waiters[w := Answered(Found(s.keys[kid]))])
      else
        var t := StartFetch(s, cfg, lag);
        t.(waiters := t.waiters[w := Blocked(kid, t.inflight)])
    case Wake(w) => s.(waiters := s.waiters[w := LookAgain(s, s.waiters[w].kid)])
    case GiveUp(w) => s.(waiters := s.waiters[w := Answered(GaveUp)])
    case Prefetch(lag) => StartFetch(s, cfg, lag)
    case FetchEnds(c, result) =>
      var t := if result.None? then s
               else s.(keys := result.value, fetched := s.now,
                       successes := s.successes + [Success(s.now, result.value)]);
      t.(inflight := None, closed := t.closed + {c}, running := t.running - {c})
  }

  function Run(s: State, es: seq<Event>, cfg: Config): Option<State>
    decreases |es|
  {
    if es == [] then Some(s)
    else if !Enabled(s, es[0]) then None
    else Run(Next(s, es[0], cfg), es[1..], cfg)
  }

  // ----- the invariant

  /** At most one fetch runs, and it is the one in flight; channels are closed
      only by their own fetch. */
  predicate FetchesOk(s: State) {
    && s.running == (if s.inflight.Some? then {s.inflight.value} else {})
    && (forall c <- s.running :: c < s.made && c !in s.closed)
    && (forall c <- s.closed :: c < s.made)
  }

  predicate WaitersOk(s: State) {
    forall w <- s.waiters :: s.waiters[w].Blocked? && s.waiters[w].channel.Some? ==>
      s.waiters[w].channel.value in s.closed || s.inflight == s.waiters[w].channel
  }

  predicate Spaced(starts: seq<int>, gap: int) {
    forall i :: 0 < i < |starts| ==> starts[i] - starts[i - 1] >= gap
  }

  predicate StartsOk(s: State, cfg: Config) {
    && Spaced(s.starts, cfg.minRefresh)
    && s.lastAttempt == (if s.starts == [] then None else Some(s.starts[|s.starts| - 1]))
    && (s.lastAttempt.Some? ==> s.lastAttempt.value <= s.now)
  }

  /** The keys of the latest successful fetch, or none before the first. */
  function LatestKeys(s: State): Keys {
    if s.successes == [] then map[] else s.successes[|s.successes| - 1].keys
  }

  predicate KeysOk(s: State) {
    s.keys == LatestKeys(s) && (s.successes != [] ==> s.fetched == s.successes[|s.successes| - 1].at)
  }

  predicate Inv(s: State, cfg: Config) {
    FetchesOk(s) && WaitersOk(s) && StartsOk(s, cfg) && KeysOk(s)
  }

  lemma StartKeepsInv(s: State, cfg: Config, lag: nat)
    requires Inv(s, cfg)
    ensures Inv(StartFetch(s, cfg, lag), cfg)
    ensures StartFetch(s, cfg, lag).waiters == s.waiters && StartFetch(s, cfg, lag).keys == s.keys
  {
  }

  lemma AskKeepsInv(s: State, e: Event, cfg: Config)
    requires Inv(s, cfg) && Enabled(s, e) && e.AskKey?
    ensures Inv(Next(s, e, cfg), cfg)
  {
    StartKeepsInv(s, cfg, e.lag);
    hide StartFetch, Spaced;
  }

  lemma EndKeepsInv(s: State, e: Event, cfg: Config)
    requires Inv(s, cfg) && Enabled(s, e) && e.FetchEnds?
    ensures Inv(Next(s, e, cfg), cfg)
  {
    hide StartFetch, Spaced;
  }

  lemma StepKeepsInv(s: State, e: Event, cfg: Config)
    requires Inv(s, cfg) && Enabled(s, e)
    ensures Inv(Next(s, e, cfg), cfg)
  {
    if e.AskKey? {
      AskKeepsInv(s, e, cfg);
    } else if e.FetchEnds? {
      EndKeepsInv(s, e, cfg);
    } else if e.Prefetch? {
      StartKeepsInv(s, cfg, e.lag);
    } else {
      hide StartFetch, Spaced;
    }
  }

  lemma {:induction false} RunKeepsInv(s: State, es: seq<Event>, cfg: Config)
    requires Inv(s, cfg) && Run(s, es, cfg).Some?
    ensures Inv(Run(s, es, cfg).value, cfg)
    decreases |es|
  {
    hide Next, Enabled, Inv;
    if es != [] {
      StepKeepsInv(s, es[0], cfg);
      RunKeepsInv(Next(s, es[0], cfg), es[1..], cfg);
    }
  }

  // ----- what holds in every reachable state

  /** Fetches are shared and keys are current: at most one fetch runs, the keys
      held are those of the latest successful fetch, and a caller waits only for
      the running fetch, so once none runs every waiter can go on. */
  lemma FetchIsShared(start: int, es: seq<Event>, cfg: Config, w: WaiterId)
    requires Run(Init(start), es, cfg).Some?
    ensures var s := Run(Init(start), es, cfg).value;
            && |s.running| <= 1
            && s.keys == LatestKeys(s)
            && (w in s.waiters && s.waiters[w].Blocked? ==> Enabled(s, Wake(w)) || s.waiters[w].channel == s.inflight)
            && (w in s.waiters && s.waiters[w].Blocked? && s.running == {} ==> Enabled(s, Wake(w)))
  {
    RunKeepsInv(Init(start), es, cfg);
    hide Run;
    var s := Run(Init(start), es, cfg).value;
    assert FetchesOk(s) && WaitersOk(s) && KeysOk(s);
  }

  /** No fetch runs, and the last one began long enough ago. */
  predicate MayFetch(s: State, cfg: Config) {
    s.running == {} && (s.starts == [] || s.now - s.starts[|s.starts| - 1] >= cfg.minRefresh)
  }

  /** From s to t a fetch began, at the given time, and nothing ended. */
  predicate Began(s: State, t: State, at: int) {
    t.starts == s.starts + [at] && t.running == {s.made} && t.inflight == Some(s.made) && t.closed == s.closed
  }

  predicate BeganNone(s: State, t: State) {
    t.starts == s.starts && t.running == s.running && t.inflight == s.inflight && t.closed == s.closed
  }

  /** What a caller gets in every reachable state. A kid of the latest successful
      fetch is answered at once with its key, and a fetch begins exactly when those
      keys are too old and one may; any other kid blocks its caller on the running
      fetch, which begins now exactly when one may. */
  lemma AskMeaning(start: int, es: seq<Event>, cfg: Config, w: WaiterId, kid: string, lag: nat)
    requires Run(Init(start), es, cfg).Some? && Enabled(Run(Init(start), es, cfg).value, AskKey(w, kid, lag))
    ensures var s := Run(Init(start), es, cfg).value;
            var t := Next(s, AskKey(w, kid, lag), cfg);
            && w in t.waiters && t.keys == s.keys
            && (kid in LatestKeys(s) ==>
                  && t.waiters[w] == Answered(Found(LatestKeys(s)[kid]))
                  && if s.now - s.successes[|s.successes| - 1].at > cfg.maxAge && MayFetch(s, cfg)
                     then Began(s, t, s.now + lag) else BeganNone(s, t))
            && (kid !in LatestKeys(s) ==>
                  && t.waiters[w] == Blocked(kid, t.inflight)
                  && if MayFetch(s, cfg) then Began(s, t, s.now + lag) else BeganNone(s, t))
  {
    RunKeepsInv(Init(start), es, cfg);
    hide Run, Spaced, WaitersOk;
    var s := Run(Init(start), es, cfg).value;
    assert FetchesOk(s) && StartsOk(s, cfg) && KeysOk(s);
    hide Inv;
  }

  /** A caller that waited gets the key of its kid in the latest successful fetch, or
      is told that there is none. */
  lemma WakeMeaning(start: int, es: seq<Event>, cfg: Config, w: WaiterId)
    requires Run(Init(start), es, cfg).Some? && Enabled(Run(Init(start), es, cfg).value, Wake(w))
    ensures var s := Run(Init(start), es, cfg).value;
            var kid := s.waiters[w].kid;
            Next(s, Wake(w), cfg) == s.(waiters := s.waiters[w :=
              Answered(if kid in LatestKeys(s) then Found(LatestKeys(s)[kid]) else NotFound)])
  {
    RunKeepsInv(Init(start), es, cfg);
    hide Run, Spaced, WaitersOk;
    assert KeysOk(Run(Init(start), es, cfg).value);
    hide Inv;
  }

  /** Prefetching begins a fetch exactly when one may. */
  lemma PrefetchMeaning(start: int, es: seq<Event>, cfg: Config, lag: nat)
    requires Run(Init(start), es, cfg).Some?
    ensures var s := Run(Init(start), es, cfg).value;
            var t := Next(s, Prefetch(lag), cfg);
            && t.keys == s.keys && t.waiters == s.waiters
            && if MayFetch(s, cfg) then Began(s, t, s.now + lag) else BeganNone(s, t)
  {
    RunKeepsInv(Init(start), es, cfg);
    hide Run, Spaced, WaitersOk;
    var s := Run(Init(start), es, cfg).value;
    assert FetchesOk(s) && StartsOk(s, cfg);
    hide Inv;
  }

  /** The end of a fetch: a result becomes the keys held, as of now; an error keeps
      those held before; either way no fetch runs any more. */
  lemma EndMeaning(start: int, es: seq<Event>, cfg: Config, c: Channel, result: Option<Keys>)
    requires Run(Init(start), es, cfg).Some? && Enabled(Run(Init(start), es, cfg).value, FetchEnds(c, result))
    ensures var s := Run(Init(start), es, cfg).value;
            var t := Next(s, FetchEnds(c, result), cfg);
            && t.running == {} && t.inflight == None && t.closed == s.closed + {c}
            && (match result
                case Some(keys) =>
                  t.keys == LatestKeys(t) == keys && t.successes == s.successes + [Success(s.now, keys)]
                case None => t.keys == s.keys && t.successes == s.successes)
  {
    RunKeepsInv(Init(start), es, cfg);
    hide Run, Spaced, WaitersOk;
    assert FetchesOk(Run(Init(start), es, cfg).value);
    hide Inv;
  }

  /** A channel is closed only once: no fetch runs on a closed channel, and a
      closed one stays closed. */
  lemma ClosedOnce(start: int, es: seq<Event>, cfg: Config, e: Event)
    requires Run(Init(start), es, cfg).Some? && Enabled(Run(Init(start), es, cfg).value, e)
    ensures var s := Run(Init(start), es, cfg).value;
            var t := Next(s, e, cfg);
            s.closed <= t.closed && (e.FetchEnds? ==> e.channel !in s.closed && t.closed == s.closed + {e.channel})
  {
    RunKeepsInv(Init(start), es, cfg);
    hide Run;
    assert FetchesOk(Run(Init(start), es, cfg).value);
  }

  /** A failed fetch changes no keys. */
  lemma FailedFetchKeepsKeys(s: State, c: Channel, cfg: Config)
    requires Enabled(s, FetchEnds(c, None))
    ensures var t := Next(s, FetchEnds(c, None), cfg); t.keys == s.keys && t.fetched == s.fetched
  {
  }

  /** Over a run whose fetches all fail, keys stay and age. */
  lemma {:induction false} FailuresKeepKeys(s: State, es: seq<Event>, cfg: Config)
    requires Run(s, es, cfg).Some? && forall i :: 0 <= i < |es| && es[i].FetchEnds? ==> es[i].result.None?
    ensures var t := Run(s, es, cfg).value; t.keys == s.keys && t.fetched == s.fetched
    decreases |es|
  {
    if es != [] {
      assert Next(s, es[0], cfg).keys == s.keys && Next(s, es[0], cfg).fetched == s.fetched by {
        if es[0].FetchEnds? { FailedFetchKeepsKeys(s, es[0].channel, cfg); }
      }
      assert forall i :: 0 <= i < |es[1..]| ==> es[1..][i] == es[i + 1];
      hide Next, Enabled;
      FailuresKeepKeys(Next(s, es[0], cfg), es[1..], cfg);
    }
  }

  // ----- the rate limit

  /** Fetch starts in the window of length t from a on. */
  function StartsIn(starts: seq<int>, a: int, t: int): nat {
    if starts == [] then 0
    else
      var n := |starts| - 1;
      StartsIn(starts[..n], a, t) + (if a <= starts[n] <= a + t then 1 else 0)
  }

  lemma {:induction false} Ordered(starts: seq<int>, gap: nat, i: nat)
    requires Spaced(starts, gap) && i + 1 < |starts|
    ensures starts[i] <= starts[|starts| - 1] - gap
    decreases |starts| - i
  {
    if i + 2 < |starts| {
      Ordered(starts, gap, i + 1);
    }
  }

  /** Only the starts up to a + u matter when there are none after it. */
  lemma {:induction false} NarrowWindow(starts: seq<int>, a: int, t: int, u: int)
    requires forall i :: 0 <= i < |starts| ==> starts[i] <= a + u
    ensures StartsIn(starts, a, t) <= StartsIn(starts, a, u)
  {
    if starts != [] {
      NarrowWindow(starts[..|starts| - 1], a, t, u);
    }
  }

  lemma {:induction false} EmptyWindow(starts: seq<int>, a: int, t: int)
    requires t < 0
    ensures StartsIn(starts, a, t) == 0
  {
    if starts != [] { EmptyWindow(starts[..|starts| - 1], a, t); }
  }

  /** How many starts fit a window of length t. */
  function Quota(t: int, gap: nat): nat
    requires gap > 0
  {
    if t < 0 then 0 else t / gap + 1
  }

  lemma {:induction false} SpacedWindow(starts: seq<int>, gap: nat, a: int, t: int)
    requires gap > 0 && Spaced(starts, gap)
    ensures StartsIn(starts, a, t) <= Quota(t, gap)
    decreases |starts|
  {
    hide Quota;
    if t < 0 {
      EmptyWindow(starts, a, t);
    } else if starts != [] {
      var n := |starts| - 1;
      var rest, u := starts[..n], starts[n] - gap - a;
      if a <= starts[n] <= a + t {
        forall i | 0 <= i < n ensures rest[i] <= a + u { Ordered(starts, gap, i); }
        NarrowWindow(rest, a, t, u);
        SpacedWindow(rest, gap, a, u);
        QuotaStep(t, u, gap);
      } else {
        SpacedWindow(rest, gap, a, t);
      }
    }
  }

  lemma QuotaStep(t: nat, u: int, gap: nat)
    requires gap > 0 && u + gap <= t
    ensures Quota(u, gap) + 1 <= Quota(t, gap)
  {
    if u >= 0 { DivStep(t, u, gap); }
  }

  lemma DivStep(t: nat, u: nat, gap: nat)
    requires gap > 0 && u + gap <= t
    ensures u / gap + 1 <= t / gap
  {
    var p, q := u / gap, t / gap;
    assert p * gap <= u && t < q * gap + gap;
    Scaled(p, q, gap);
  }

  lemma Scaled(p: nat, q: nat, gap: nat)
    ensures p >= q ==> p * gap >= q * gap
  {
  }

  /** However many callers ask for unknown keys, any window of length t holds at
      most t / minRefresh + 1 fetch starts. */
  lemma RateLimit(start: int, es: seq<Event>, cfg: Config, a: int, t: nat)
    requires Run(Init(start), es, cfg).Some? && cfg.minRefresh > 0
    ensures StartsIn(Run(Init(start), es, cfg).value.starts, a, t) <= t / cfg.minRefresh + 1
  {
    RunKeepsInv(Init(start), es, cfg);
    hide Run;
    var s := Run(Init(start), es, cfg).value;
    assert StartsOk(s, cfg);
    SpacedWindow(s.starts, cfg.minRefresh, a, t);
  }

  // ----- the verifier object

  /** Each method is one critical section of the source. */
  class Verifier {
    const cfg: Config
    var keys: Keys
    var fetched: int
    var lastAttempt: Option<int>
    var inflight: Option<Channel>
    var now: int
    var made: nat
    var closed: set<Channel>
    var running: set<Channel>
    var waiters: map<WaiterId, Waiter>
    ghost var starts: seq<int>
    ghost var successes: seq<Success>

    ghost function Current(): State
      reads this
    {
      State(keys, fetched, lastAttempt, inflight, now, made, closed, running, waiters, starts, successes)
    }

    ghost predicate Valid()
      reads this
    {
      Inv(Current(), cfg)
    }

    constructor (cfg: Config, now: int)
      ensures Valid() && this.cfg == cfg && Current() == Init(now)
    {
      this.cfg := cfg;
      this.now, fetched, made := now, now, 0;
      keys, lastAttempt, inflight, closed, running, waiters := map[], None, None, {}, {}, map[];
      starts, successes := [], [];
    }

    method StartFetchLocked(lag: nat) returns (done: Option<Channel>)
      requires Valid()
      modifies this
      ensures Valid() && Current() == StartFetch(old(Current()), cfg, lag) && done == inflight
    {
      ghost var before := Current();
      StartKeepsInv(before, cfg, lag);
      hide Inv;
      if inflight.Some? || (lastAttempt.Some? && now - lastAttempt.value < cfg.minRefresh) {
        return inflight;
      }
      now := now + lag;
      lastAttempt := Some(now);
      starts := starts + [now];
      done := Some(made);
      made := made + 1;
      inflight := done;
      running := running + {done.value};
      assert Current() == StartFetch(before, cfg, lag);
    }

    /** key up to where it may block. */
    method AskForKey(w: WaiterId, kid: string, lag: nat) returns (key: Option<nat>)
      requires Valid() && w !in waiters
      modifies this
      ensures Valid() && Current() == Next(old(Current()), AskKey(w, kid, lag), cfg)
      ensures key.Some? <==> kid in old(keys)
    {
      StepKeepsInv(Current(), AskKey(w, kid, lag), cfg);
      hide Inv;
      if kid in keys {
        key := Some(keys[kid]);
        if now - fetched > cfg.maxAge {
          var _ := StartFetchLocked(lag);
        }
        waiters := waiters[w := Answered(Found(key.value))];
      } else {
        var done := inflight;
        if done.None? {
          done := StartFetchLocked(lag);
        }
        key := None;
        waiters := waiters[w := Blocked(kid, done)];
      }
    }

    /** key after the wait. */
    method WakeUp(w: WaiterId) returns (key: Option<nat>)
      requires Valid() && Enabled(Current(), Wake(w))
      modifies this
      ensures Valid() && Current() == Next(old(Current()), Wake(w), cfg)
      ensures key == if waiters[w].answer.Found? then Some(waiters[w].answer.key) else None
    {
      StepKeepsInv(Current(), Wake(w), cfg);
      hide Inv;
      var kid := waiters[w].kid;
      key := if kid in keys then Some(keys[kid]) else None;
      waiters := waiters[w := Answered(if key.Some? then Found(key.value) else NotFound)];
    }

    /** The end of the fetching goroutine. */
    method EndFetch(c: Channel, result: Option<Keys>)
      requires Valid() && c in running
      modifies this
      ensures Valid() && Current() == Next(old(Current()), FetchEnds(c, result), cfg)
    {
      StepKeepsInv(Current(), FetchEnds(c, result), cfg);
      hide Inv;
      if result.Some? {
        keys := result.value;
        fetched := now;
        successes := successes + [Success(now, result.value)];
      }
      inflight := None;
      closed := closed + {c};
      running := running - {c};
    }
  }
}
