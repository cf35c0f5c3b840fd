/** Confirmed-request transactions (client.go) as a step system: concurrent
    calls, one receive loop, and a network that may deliver any reply from any
    address at any time, and so lose, duplicate, delay and reorder. */
module Transactions {
  import opened Octets
  import opened Stack
  import opened InvokeIds

  type CallId = nat

  /** An IP address, up to net.IP.Equal. */
  type IP = nat

  datatype Reply = Reply(apdu: APDU, ip: IP)

  datatype Outcome = Replied(reply: Reply) | TimedOut | Cancelled | SendFailed | TooManyRequests

  /** Where a call of doConfirmedRequest is: about to send, waiting for a reply,
      or returning, with and then without its pending entry. */
  datatype Phase = Sending | Waiting | Returning(outcome: Outcome) | Done(outcome: Outcome)

  /** channel is the one-element reply channel; sends and taken count the packets
      sent and the replies received from the channel. */
  datatype Call = Call(id: uint8, ip: IP, service: uint8, channel: Option<Reply>, sends: nat, taken: nat, phase: Phase)

  /** inbound is a reply that handleIncoming looked up but did not deliver yet. */
  datatype State = State(
    nextID: uint8, pending: map<uint8, CallId>, calls: map<CallId, Call>, inbound: Option<(CallId, Reply)>)

  datatype Event =
    | Begin(call: CallId, ip: IP, service: uint8)
    | Send(call: CallId, ok: bool)
    | Take(call: CallId)
    | Expire(call: CallId)
    | Cancel(call: CallId)
    | Release(call: CallId)
    | Lookup(reply: Reply)
    | Deposit

  const INIT := State(0, map[], map[], None)

  predicate IsReply(a: APDU) {
    a.kind == SIMPLE_ACK || a.kind == COMPLEX_ACK || a.kind == ERROR_PDU || a.kind == REJECT_PDU || a.kind == ABORT_PDU
  }

  /** A reply must come from the address the request went to and, except for
      Reject and Abort, answer its service. */
  predicate Answers(c: Call, r: Reply) {
    c.ip == r.ip && (r.apdu.kind == REJECT_PDU || r.apdu.kind == ABORT_PDU || r.apdu.serviceChoice == c.service)
  }

  predicate Enabled(s: State, e: Event) {
    match e
    case Begin(c, _, _) => c !in s.calls
    case Send(c, _) => c in s.calls && s.calls[c].phase.Sending?
    case Take(c) => c in s.calls && s.calls[c].phase.Waiting? && s.calls[c].channel.Some?
    case Expire(c) => c in s.calls && s.calls[c].phase.Waiting?
    case Cancel(c) => c in s.calls && s.calls[c].phase.Waiting?
    case Release(c) => c in s.calls && s.calls[c].phase.Returning?
    case Lookup(_) => s.inbound.None?
    case Deposit => s.inbound.Some? && s.inbound.value.0 in s.calls
  }

  function Update(s: State, c: CallId, call: Call): State { s.(calls := s.calls[c := call]) }

  function Next(s: State, e: Event, retries: nat): State
    requires Enabled(s, e)
  {
    match e
    case Begin(c, ip, service) =>
      var (id, next) := Probe(s.nextID, s.pending.Keys, 256);
      if id.None? then
        Update(s.(nextID := next), c, Call(0, ip, service, None, 0, 0, Done(TooManyRequests)))
      else
        Update(s.(nextID := next, pending := s.pending[id.value := c]), c,
          Call(id.value, ip, service, None, 0, 0, Sending))
    case Send(c, ok) =>
      var call := s.calls[c];
      Update(s, c, call.(sends := call.sends + 1, phase := if ok then Waiting else Returning(SendFailed)))
    case Take(c) =>
      var call := s.calls[c];
      Update(s, c, call.(channel := None, taken := call.taken + 1, phase := Returning(Replied(call.channel.value))))
    case Expire(c) =>
      var call := s.calls[c];
      Update(s, c, call.(phase := if call.sends <= retries then Sending else Returning(TimedOut)))
    case Cancel(c) => Update(s, c, s.calls[c].(phase := Returning(Cancelled)))
    case Release(c) =>
      var call := s.calls[c];
      Update(s.(pending := s.pending - {call.id}), c, call.(phase := Done(call.phase.outcome)))
    case Lookup(r) =>
      var id := r.apdu.invokeID;
      if IsReply(r.apdu) && id in s.pending && s.pending[id] in s.calls && Answers(s.calls[s.pending[id]], r)
      then s.(inbound := Some((s.pending[id], r)))
      else s
    case Deposit =>
      var (c, r) := s.inbound.value;
      var call := s.calls[c];
      Update(s.(inbound := None), c, if call.channel.None? then call.(channel := Some(r)) else call)
  }

  /** The state after a run, if every event was possible when it happened. */
  function Run(s: State, es: seq<Event>, retries: nat): Option<State>
    decreases |es|
  {
    if es == [] then Some(s)
    else if !Enabled(s, es[0]) then None
    else Run(Next(s, es[0], retries), es[1..], retries)
  }

  // ----- the invariant

  predicate InFlight(c: Call) { !c.phase.Done? }

  function IdsInFlight(s: State): set<uint8> { set c <- s.calls | InFlight(s.calls[c]) :: s.calls[c].id }

  /** A reply that is this call's: its invoke ID, its peer, its service. */
  predicate Belongs(c: Call, r: Reply) { r.apdu.invokeID == c.id && IsReply(r.apdu) && Answers(c, r) }

  predicate ReturnsReply(c: Call) { (c.phase.Returning? || c.phase.Done?) && c.phase.outcome.Replied? }

  predicate CallOk(c: Call, retries: nat) {
    && c.sends <= retries + 1
    && (c.phase.Sending? ==> c.sends <= retries)
    && (c.channel.Some? ==> Belongs(c, c.channel.value))
    && c.taken == (if ReturnsReply(c) then 1 else 0)
    && (ReturnsReply(c) ==> Belongs(c, c.phase.outcome.reply))
    && (c.phase.Returning? || c.phase.Done? ==>
          && (c.phase.outcome.TimedOut? ==> c.sends == retries + 1)
          && (c.phase.outcome.TooManyRequests? ==> c.sends == 0)
          && (c.phase.outcome.SendFailed? ==> c.sends > 0))
  }

  /** Pending entries and calls in flight are two views of the same thing. */
  predicate PendingOk(s: State) {
    && (forall id <- s.pending :: s.pending[id] in s.calls
          && InFlight(s.calls[s.pending[id]]) && s.calls[s.pending[id]].id == id)
    && (forall c <- s.calls :: InFlight(s.calls[c]) ==> s.calls[c].id in s.pending && s.pending[s.calls[c].id] == c)
  }

  predicate InboundOk(s: State) {
    s.inbound.Some? ==> s.inbound.value.0 in s.calls && Belongs(s.calls[s.inbound.value.0], s.inbound.value.1)
  }

  predicate Inv(s: State, retries: nat) {
    PendingOk(s) && InboundOk(s) && forall c <- s.calls :: CallOk(s.calls[c], retries)
  }

  lemma BeginKeepsPending(s: State, e: Event, retries: nat)
    requires PendingOk(s) && Enabled(s, e) && e.Begin?
    ensures PendingOk(Next(s, e, retries))
  {
    hide Probe, Window, Succ;
    ProbeFinds(s.nextID, s.pending.Keys, 256);
    var t := Next(s, e, retries);
    assert e.call !in s.calls && t.calls.Keys == s.calls.Keys + {e.call};
    assert forall c <- s.calls :: t.calls[c] == s.calls[c];
  }

  lemma BeginKeepsInv(s: State, e: Event, retries: nat)
    requires Inv(s, retries) && Enabled(s, e) && e.Begin?
    ensures Inv(Next(s, e, retries), retries)
  {
    BeginKeepsPending(s, e, retries);
    hide Probe, PendingOk, Belongs;
  }

  lemma ReleaseKeepsPending(s: State, e: Event, retries: nat)
    requires PendingOk(s) && Enabled(s, e) && e.Release?
    ensures PendingOk(Next(s, e, retries))
  {
  }

  /** Every other step leaves the pending entries, and which calls are in flight, alone. */
  lemma OthersKeepPending(s: State, e: Event, retries: nat)
    requires PendingOk(s) && Enabled(s, e) && !e.Begin? && !e.Release?
    ensures PendingOk(Next(s, e, retries))
  {
    hide Probe, Answers;
  }

  lemma OthersKeepInv(s: State, e: Event, retries: nat)
    requires Inv(s, retries) && Enabled(s, e) && !e.Begin?
    ensures InboundOk(Next(s, e, retries))
    ensures var t := Next(s, e, retries); forall c <- t.calls :: CallOk(t.calls[c], retries)
  {
    hide Probe, IsReply;
  }

  lemma StepKeepsInv(s: State, e: Event, retries: nat)
    requires Inv(s, retries) && Enabled(s, e)
    ensures Inv(Next(s, e, retries), retries)
  {
    hide Next, PendingOk, InboundOk, CallOk;
    if e.Begin? {
      BeginKeepsInv(s, e, retries);
    } else {
      OthersKeepInv(s, e, retries);
      if e.Release? {
        ReleaseKeepsPending(s, e, retries);
      } else {
        OthersKeepPending(s, e, retries);
      }
    }
  }

  lemma {:induction false} RunKeepsInv(s: State, es: seq<Event>, retries: nat)
    requires Inv(s, retries) && Run(s, es, retries).Some?
    ensures Inv(Run(s, es, retries).value, retries)
    decreases |es|
  {
    hide Next, Enabled, Inv;
    if es != [] {
      StepKeepsInv(s, es[0], retries);
      RunKeepsInv(Next(s, es[0], retries), es[1..], retries);
    }
  }

  // ----- what holds in every reachable state

  /** Calls in flight have distinct invoke IDs, and these are the pending keys. */
  lemma PendingAreTheCallsInFlight(es: seq<Event>, retries: nat)
    requires Run(INIT, es, retries).Some?
    ensures var s := Run(INIT, es, retries).value;
            && s.pending.Keys == IdsInFlight(s)
            && forall c <- s.calls, d <- s.calls ::
                 InFlight(s.calls[c]) && InFlight(s.calls[d]) && s.calls[c].id == s.calls[d].id ==> c == d
  {
    RunKeepsInv(INIT, es, retries);
    hide Run;
    var s := Run(INIT, es, retries).value;
    assert PendingOk(s);
  }

  /** A call takes at most one reply, and only one with its own invoke ID, from
      its own peer and, except for Reject and Abort, to its own service. It sends
      at most retries + 1 packets, and exactly so many before it times out. */
  lemma RepliesAreTheCallsOwn(es: seq<Event>, retries: nat, c: CallId)
    requires Run(INIT, es, retries).Some? && c in Run(INIT, es, retries).value.calls
    ensures var call := Run(INIT, es, retries).value.calls[c];
            && call.taken <= 1 && call.sends <= retries + 1
            && (call.taken == 1 <==> ReturnsReply(call))
            && (call.taken == 1 ==> Belongs(call, call.phase.outcome.reply))
            && (call.phase.Done? && call.phase.outcome.TimedOut? ==> call.sends == retries + 1)
            && (call.phase.Done? && call.phase.outcome.TooManyRequests? ==> call.sends == 0)
  {
    RunKeepsInv(INIT, es, retries);
    hide Run;
    assert CallOk(Run(INIT, es, retries).value.calls[c], retries);
  }

  /** A new request is refused exactly when all 256 invoke IDs are in use by calls
      in flight. */
  lemma RefusedWhenAllInUse(es: seq<Event>, retries: nat, e: Event)
    requires Run(INIT, es, retries).Some? && e.Begin? && Enabled(Run(INIT, es, retries).value, e)
    ensures var s := Run(INIT, es, retries).value;
            Next(s, e, retries).calls[e.call].phase.Done?
            <==> forall id: uint8 :: id in IdsInFlight(s)
  {
    PendingAreTheCallsInFlight(es, retries);
    hide Run, Probe;
    var s := Run(INIT, es, retries).value;
    AllocationFails(s.nextID, s.pending.Keys);
  }

  /** Completion removes the call's own entry and no other. */
  lemma ReleaseRemovesOwnEntry(s: State, c: CallId, retries: nat)
    requires Inv(s, retries) && Enabled(s, Release(c))
    ensures var t := Next(s, Release(c), retries);
            s.calls[c].id in s.pending && s.pending[s.calls[c].id] == c
            && t.pending.Keys == s.pending.Keys - {s.calls[c].id}
            && forall id <- t.pending :: t.pending[id] == s.pending[id] != c
  {
  }

  lemma StepKeepsOutcome(s: State, e: Event, retries: nat, c: CallId)
    requires InboundOk(s) && Enabled(s, e) && c in s.calls && s.calls[c].phase.Done?
    ensures var t := Next(s, e, retries); c in t.calls && t.calls[c].phase == s.calls[c].phase
  {
    hide Probe, Answers;
  }

  /** What a call returned never changes again. */
  lemma {:induction false} OutcomesAreFinal(s: State, es: seq<Event>, retries: nat, c: CallId)
    requires Inv(s, retries) && c in s.calls && s.calls[c].phase.Done? && Run(s, es, retries).Some?
    ensures var t := Run(s, es, retries).value; c in t.calls && t.calls[c].phase == s.calls[c].phase
    decreases |es|
  {
    hide Next, Enabled, PendingOk, CallOk;
    if es != [] {
      StepKeepsInv(s, es[0], retries);
      StepKeepsOutcome(s, es[0], retries, c);
      OutcomesAreFinal(Next(s, es[0], retries), es[1..], retries, c);
    }
  }

  // ----- replies reach their calls

  /** A packet that call c waits for: it carries the call's invoke ID, comes from the
      call's peer, and is a Reject or an Abort, or an acknowledgement or an error
      about the call's service. */
  predicate Awaited(c: Call, r: Reply) {
    && c.id == r.apdu.invokeID && c.ip == r.ip
    && (|| r.apdu.kind == 6 || r.apdu.kind == 7
        || ((r.apdu.kind == 2 || r.apdu.kind == 3 || r.apdu.kind == 5) && c.service == r.apdu.serviceChoice))
  }

  /** In every reachable state, a packet is accepted for a call if and only if the
      call is in flight and awaits it; a packet that nobody awaits changes nothing. */
  lemma AcceptedIffAwaited(es: seq<Event>, retries: nat, r: Reply, c: CallId)
    requires Run(INIT, es, retries).Some? && Enabled(Run(INIT, es, retries).value, Lookup(r))
    ensures var s := Run(INIT, es, retries).value;
            var t := Next(s, Lookup(r), retries);
            && (t.inbound == Some((c, r)) <==> c in s.calls && !s.calls[c].phase.Done? && Awaited(s.calls[c], r))
            && ((forall d <- s.calls :: !s.calls[d].phase.Done? ==> !Awaited(s.calls[d], r)) ==> t == s)
            && t.calls == s.calls && t.pending == s.pending && t.nextID == s.nextID
  {
    RunKeepsInv(INIT, es, retries);
    hide Run;
    assert PendingOk(Run(INIT, es, retries).value);
  }

  /** An accepted reply, deposited in an empty channel and taken, is what the call
      returns, whether it came before or during the wait. */
  lemma AcceptedIsReturned(s: State, c: CallId, r: Reply, retries: nat)
    requires s.inbound == Some((c, r)) && c in s.calls && s.calls[c].channel.None?
    requires s.calls[c].phase.Sending? || s.calls[c].phase.Waiting?
    ensures var es := (if s.calls[c].phase.Sending? then [Deposit, Send(c, true)] else [Deposit])
                      + [Take(c), Release(c)];
            && Run(s, es, retries).Some? && c in Run(s, es, retries).value.calls
            && Run(s, es, retries).value.calls[c].phase == Done(Replied(r))
  {
    hide Probe, IsReply, Answers;
    var first := if s.calls[c].phase.Sending? then [Deposit, Send(c, true)] else [Deposit];
    assert Run(s, [], retries) == Some(s);
    RunOne(s, [], Deposit, retries);
    assert [] + [Deposit] == [Deposit];
    if s.calls[c].phase.Sending? {
      RunOne(s, [Deposit], Send(c, true), retries);
      assert [Deposit] + [Send(c, true)] == first;
    }
    RunOne(s, first, Take(c), retries);
    RunOne(s, first + [Take(c)], Release(c), retries);
    assert first + [Take(c)] + [Release(c)] == first + [Take(c), Release(c)];
  }

  lemma StepKeepsDeposited(s: State, e: Event, c: CallId, r: Reply, retries: nat)
    requires c in s.calls && Enabled(s, e)
    requires s.calls[c].channel == Some(r)
    ensures var t := Next(s, e, retries);
            && c in t.calls && (t.calls[c].channel == Some(r) || t.calls[c].phase == Returning(Replied(r)))
            && (t.calls[c].channel != Some(r) <==> e == Take(c))
  {
    hide Probe, IsReply, Answers;
  }

  /** What is in a call's channel stays there, whatever else arrives, until the call
      takes it; and then the call returns it. */
  lemma {:induction false} DepositedStays(s: State, es: seq<Event>, c: CallId, r: Reply, retries: nat)
    requires Inv(s, retries) && c in s.calls && Run(s, es, retries).Some? && s.calls[c].channel == Some(r)
    ensures var t := Run(s, es, retries).value;
            c in t.calls && (t.calls[c].channel == Some(r) || ReturnedBy(t.calls[c], r))
    decreases |es|
  {
    hide Next, Enabled, Inv;
    if es != [] {
      var t := Next(s, es[0], retries);
      StepKeepsInv(s, es[0], retries);
      StepKeepsDeposited(s, es[0], c, r, retries);
      if t.calls[c].channel == Some(r) {
        DepositedStays(t, es[1..], c, r, retries);
      } else {
        ReturnedStays(t, es[1..], c, r, retries);
      }
    }
  }

  predicate ReturnedBy(c: Call, r: Reply) { c.phase == Returning(Replied(r)) || c.phase == Done(Replied(r)) }

  lemma StepKeepsReturned(s: State, e: Event, c: CallId, r: Reply, retries: nat)
    requires c in s.calls && Enabled(s, e) && ReturnedBy(s.calls[c], r) && InboundOk(s)
    ensures c in Next(s, e, retries).calls && ReturnedBy(Next(s, e, retries).calls[c], r)
  {
    hide Probe, IsReply, Answers;
  }

  lemma {:induction false} ReturnedStays(s: State, es: seq<Event>, c: CallId, r: Reply, retries: nat)
    requires Inv(s, retries) && c in s.calls && Run(s, es, retries).Some? && ReturnedBy(s.calls[c], r)
    ensures var t := Run(s, es, retries).value; c in t.calls && ReturnedBy(t.calls[c], r)
    decreases |es|
  {
    hide Next, Enabled, CallOk, PendingOk, ReturnedBy;
    if es != [] {
      StepKeepsInv(s, es[0], retries);
      StepKeepsReturned(s, es[0], c, r, retries);
      ReturnedStays(Next(s, es[0], retries), es[1..], c, r, retries);
    }
  }

  // ----- a call that nobody answers

  function Attempts(c: CallId, n: nat): seq<Event> {
    if n == 0 then [] else [Send(c, true), Expire(c)] + Attempts(c, n - 1)
  }

  lemma OneAttempt(s: State, c: CallId, es: seq<Event>, retries: nat)
    requires c in s.calls && s.calls[c].phase == Sending && s.calls[c].sends <= retries
    ensures var call := s.calls[c];
            var n := call.sends + 1;
            var t := s.(calls := s.calls[c := call.(sends := n,
              phase := if n == retries + 1 then Returning(TimedOut) else Sending)]);
            Run(s, [Send(c, true), Expire(c)] + es, retries) == Run(t, es, retries)
  {
    hide Probe, IsReply, Answers;
    var all := [Send(c, true), Expire(c)] + es;
    assert all[1..] == [Expire(c)] + es && all[1..][1..] == es;
    var u := Next(s, Send(c, true), retries);
    assert Run(s, all, retries) == Run(u, all[1..], retries);
    var v := Next(u, Expire(c), retries);
    assert Run(u, all[1..], retries) == Run(v, es, retries);
    var call := s.calls[c];
    var n := call.sends + 1;
    assert v.calls == s.calls[c := call.(sends := n,
      phase := if n == retries + 1 then Returning(TimedOut) else Sending)];
  }

  /** With the answers lost, a call keeps sending and waiting until it has sent
      retries + 1 packets, and only then times out. */
  lemma {:induction false} UnansweredTimesOut(s: State, c: CallId, n: nat, retries: nat)
    requires c in s.calls && s.calls[c].phase == Sending && n > 0 && s.calls[c].sends + n <= retries + 1
    ensures var r := Run(s, Attempts(c, n), retries);
            && r.Some? && c in r.value.calls && r.value.calls[c].sends == s.calls[c].sends + n
            && r.value.calls[c].phase == if s.calls[c].sends + n == retries + 1 then Returning(TimedOut) else Sending
    decreases n
  {
    OneAttempt(s, c, Attempts(c, n - 1), retries);
    hide Next, Enabled;
    if n > 1 {
      var call := s.calls[c];
      var t := s.(calls := s.calls[c := call.(sends := call.sends + 1, phase := Sending)]);
      UnansweredTimesOut(t, c, n - 1, retries);
    }
  }

  /** How a call about to send may go on in one step, and from waiting in one more:
      a failed send ends it at once, a cancelled context ends its wait. */
  lemma AttemptEnds(s: State, c: CallId, retries: nat)
    requires c in s.calls && s.calls[c].phase == Sending
    ensures var call := s.calls[c].(sends := s.calls[c].sends + 1);
            && Run(s, [Send(c, false)], retries)
               == Some(s.(calls := s.calls[c := call.(phase := Returning(SendFailed))]))
            && Run(s, [Send(c, true)], retries) == Some(s.(calls := s.calls[c := call.(phase := Waiting)]))
            && Run(s, [Send(c, true), Cancel(c)], retries)
               == Some(s.(calls := s.calls[c := call.(phase := Returning(Cancelled))]))
  {
    hide Probe, IsReply, Answers;
    var call := s.calls[c].(sends := s.calls[c].sends + 1);
    var sent, failed := Next(s, Send(c, true), retries), Next(s, Send(c, false), retries);
    assert sent.calls == s.calls[c := call.(phase := Waiting)];
    assert failed.calls == s.calls[c := call.(phase := Returning(SendFailed))];
    var gone := Next(sent, Cancel(c), retries);
    assert gone.calls == s.calls[c := call.(phase := Returning(Cancelled))];
    assert [Send(c, true), Cancel(c)][1..] == [Cancel(c)];
    assert Run(sent, [Cancel(c)], retries) == Run(gone, [], retries);
  }

  // ----- the receive loop as it is written

  /** What handleIncoming does with a packet: crash, or go on in some state. */
  datatype Handled = Crashes | GoesOn(state: State)

  /** The source compares the service with the pending request's before it tests
      that there is one; Reject and Abort alone skip that comparison. */
  function HandleAsWritten(s: State, r: Reply): Handled {
    var id := r.apdu.invokeID;
    var ok := id in s.pending;
    var skips := r.apdu.kind == REJECT_PDU || r.apdu.kind == ABORT_PDU;
    if !IsReply(r.apdu) then GoesOn(s)
    else if !skips && !ok then Crashes
    else if ok && s.pending[id] in s.calls && Answers(s.calls[s.pending[id]], r)
    then GoesOn(s.(inbound := Some((s.pending[id], r))))
    else GoesOn(s)
  }

  /** An acknowledgement or an error for an invoke ID that nobody holds. */
  predicate Unsolicited(a: APDU, held: set<uint8>) {
    (a.kind == SIMPLE_ACK || a.kind == COMPLEX_ACK || a.kind == ERROR_PDU) && a.invokeID !in held
  }

  /** In every reachable state, the receive loop as written survives a packet if
      and only if it is no acknowledgement or error, or some call in flight holds
      its invoke ID; and when it survives, it takes the model's step. */
  lemma SurvivesUnlessUnsolicited(es: seq<Event>, retries: nat, r: Reply)
    requires Run(INIT, es, retries).Some? && Enabled(Run(INIT, es, retries).value, Lookup(r))
    ensures var s := Run(INIT, es, retries).value;
            && (HandleAsWritten(s, r).Crashes? <==> Unsolicited(r.apdu, IdsInFlight(s)))
            && (HandleAsWritten(s, r).GoesOn? ==> HandleAsWritten(s, r).state == Next(s, Lookup(r), retries))
  {
    PendingAreTheCallsInFlight(es, retries);
    hide Run, IdsInFlight;
  }

  /** One call from start to end. */
  function OneCall(c: CallId, r: Reply): seq<Event> {
    [Begin(c, r.ip, r.apdu.serviceChoice), Send(c, true), Lookup(r), Deposit, Take(c), Release(c)]
  }

  lemma {:induction false} RunConcat(s: State, a: seq<Event>, b: seq<Event>, retries: nat)
    requires Run(s, a, retries).Some?
    ensures Run(s, a + b, retries) == Run(Run(s, a, retries).value, b, retries)
    decreases |a|
  {
    hide Next, Enabled;
    if a == [] {
      assert a + b == b;
    } else {
      assert (a + b)[1..] == a[1..] + b;
      RunConcat(Next(s, a[0], retries), a[1..], b, retries);
    }
  }

  lemma RunOne(s: State, es: seq<Event>, e: Event, retries: nat)
    requires Run(s, es, retries).Some? && Enabled(Run(s, es, retries).value, e)
    ensures Run(s, es + [e], retries) == Some(Next(Run(s, es, retries).value, e, retries))
  {
    hide Next, Enabled;
    RunConcat(s, es, [e], retries);
    var t := Run(s, es, retries).value;
    assert Run(t, [e], retries) == Run(Next(t, e, retries), [], retries);
  }

  /** The smallest reachable crash: a call begins, sends, takes its acknowledgement
      and ends; then the acknowledgement arrives once more. */
  lemma DuplicateAckCrashes(c: CallId, r: Reply, retries: nat)
    requires IsReply(r.apdu) && r.apdu.kind != REJECT_PDU && r.apdu.kind != ABORT_PDU && r.apdu.invokeID == 0
    ensures Run(INIT, OneCall(c, r), retries).Some?
    ensures var s := Run(INIT, OneCall(c, r), retries).value;
            && c in s.calls && s.calls[c].phase == Done(Replied(r))
            && Enabled(s, Lookup(r)) && HandleAsWritten(s, r).Crashes?
  {
    var es := OneCall(c, r);
    assert Probe(0, {}, 256) == (Some(0), 1);
    hide Probe;
    assert es[..0] == [] && es[..1] == es[..0] + [es[0]] && es[..2] == es[..1] + [es[1]];
    assert es[..3] == es[..2] + [es[2]] && es[..4] == es[..3] + [es[3]] && es[..5] == es[..4] + [es[4]];
    assert es == es[..5] + [es[5]];
    RunOne(INIT, es[..0], es[0], retries);
    RunOne(INIT, es[..1], es[1], retries);
    RunOne(INIT, es[..2], es[2], retries);
    RunOne(INIT, es[..3], es[3], retries);
    RunOne(INIT, es[..4], es[4], retries);
    RunOne(INIT, es[..5], es[5], retries);
  }

  // ----- reuse distance

  /** The invoke ID an event allocates, if any. */
  function Allocated(s: State, e: Event): Option<uint8> {
    if e.Begin? then Probe(s.nextID, s.pending.Keys, 256).0 else None
  }

  /** Successful allocations in a run. */
  function Allocations(s: State, es: seq<Event>, retries: nat): nat
    requires Run(s, es, retries).Some?
    decreases |es|
  {
    if es == [] then 0
    else (if Allocated(s, es[0]).Some? then 1 else 0) + Allocations(Next(s, es[0], retries), es[1..], retries)
  }

  /** Only Begin and Release touch the allocator, and Release only frees IDs. */
  lemma AllocatorFrame(s: State, e: Event, retries: nat)
    requires Enabled(s, e)
    ensures var t := Next(s, e, retries);
            if e.Begin? then
              var (id, next) := Probe(s.nextID, s.pending.Keys, 256);
              t.nextID == next && t.pending.Keys == s.pending.Keys + (if id.Some? then {id.value} else {})
            else t.nextID == s.nextID && t.pending.Keys <= s.pending.Keys
  {
    hide Probe, Answers;
    if e.Begin? {
      var id := Probe(s.nextID, s.pending.Keys, 256).0;
      if id.Some? {
        assert s.pending[id.value := e.call].Keys == s.pending.Keys + {id.value};
      }
    }
  }

  lemma PassingShrinks(next: uint8, used: set<uint8>, fewer: set<uint8>, x: uint8, P: set<uint8>, k: nat, u: nat)
    requires Passing(next, used, x, P, k, u) && fewer <= used
    ensures Passing(next, fewer, x, P, k, u)
  {
    hide Window;
  }

  lemma {:induction false} PassingRun(
      s: State, es: seq<Event>, retries: nat, x: uint8, P: set<uint8>, k: nat, u: nat, e: Event)
    requires Run(s, es, retries).Some? && Passing(s.nextID, s.pending.Keys, x, P, k, u)
    requires var t := Run(s, es, retries).value; Enabled(t, e) && Allocated(t, e) == Some(x)
    ensures k + Allocations(s, es, retries) + |P| >= 255
    decreases |es|
  {
    hide Probe, Passing, Enabled, Next;
    if es == [] {
      var _ := ProbePasses(s.nextID, s.pending.Keys, x, P, k, u, 256) by {
        PassingBound(s.nextID, s.pending.Keys, x, P, k, u);
      }
    } else {
      var t := Next(s, es[0], retries);
      AllocatorFrame(s, es[0], retries);
      if es[0].Begin? {
        PassingBound(s.nextID, s.pending.Keys, x, P, k, u);
        var v := ProbePasses(s.nextID, s.pending.Keys, x, P, k, u, 256);
        if k + |P| < 255 {
          PassingRun(t, es[1..], retries, x, P, k + 1, v, e);
        }
      } else {
        PassingShrinks(s.nextID, s.pending.Keys, t.pending.Keys, x, P, k, u);
        PassingRun(t, es[1..], retries, x, P, k, u, e);
      }
    }
  }

  lemma PassingBound(next: uint8, used: set<uint8>, x: uint8, P: set<uint8>, k: nat, u: nat)
    requires Passing(next, used, x, P, k, u)
    ensures u < 256
  {
  }

  /** If p other requests are pending when an ID is allocated, at least 255 - p
      other allocations succeed before that ID is allocated again, over every
      interleaving of sends, replies, timeouts, completions and failed
      allocations. */
  lemma ReuseDistance(s: State, first: Event, es: seq<Event>, again: Event, retries: nat)
    requires Enabled(s, first) && Allocated(s, first).Some?
    requires var t := Next(s, first, retries); Run(t, es, retries).Some?
    requires var t := Run(Next(s, first, retries), es, retries).value;
             Enabled(t, again) && Allocated(t, again) == Allocated(s, first)
    ensures Allocations(Next(s, first, retries), es, retries) >= 255 - |s.pending.Keys|
  {
    hide Run, Probe, Allocations;
    var x := Allocated(s, first).value;
    var t := Next(s, first, retries);
    ProbeFinds(s.nextID, s.pending.Keys, 256);
    AllocatorFrame(s, first, retries);
    JustAllocated(t.pending.Keys, x);
    assert t.pending.Keys - {x} == s.pending.Keys;
    PassingRun(t, es, retries, x, s.pending.Keys, 0, 255, again);
  }
}
