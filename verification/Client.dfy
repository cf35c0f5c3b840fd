/** The client object of client.go. Each method is what one goroutine does
    between two points where others may run: the two critical sections of
    doConfirmedRequest, the turns of its retry loop, and the two halves of
    handleIncoming. */
module Client {
  import opened Octets
  import opened Stack
  import opened InvokeIds
  import opened Transactions

  class Client {
    const retries: nat
    var nextID: uint8
    var pending: map<uint8, CallId>
    var calls: map<CallId, Call>
    var inbound: Option<(CallId, Reply)>

    function Current(): State
      reads this
    {
      State(nextID, pending, calls, inbound)
    }

    ghost predicate Valid()
      reads this
    {
      Inv(Current(), retries)
    }

    constructor (retries: nat)
      ensures Valid() && this.retries == retries && Current() == INIT
    {
      this.retries := retries;
      nextID, pending, calls, inbound := 0, map[], map[], None;
    }

    /** doConfirmedRequest up to its first send: the allocation loop. */
    method BeginRequest(c: CallId, ip: IP, service: uint8) returns (id: Option<uint8>)
      requires Valid() && c !in calls
      modifies this
      ensures Valid() && Current() == Next(old(Current()), Begin(c, ip, service), retries)
      ensures id == Allocated(old(Current()), Begin(c, ip, service))
    {
      hide Inv;
      StepKeepsInv(Current(), Begin(c, ip, service), retries);
      ghost var start := nextID;
      id := None;
      var turn := 0;
      while turn < 256 && id.None?
        invariant turn <= 256
        invariant pending == old(pending) && calls == old(calls) && inbound == old(inbound)
        invariant Probe(start, pending.Keys, 256)
          == if id.Some? then (id, nextID) else Probe(nextID, pending.Keys, 256 - turn)
        decreases 256 - turn, id.None?
      {
        var candidate := nextID;
        nextID := Succ(nextID);
        if candidate !in pending {
          id := Some(candidate);
        }
        turn := turn + 1;
      }
      if id.None? {
        calls := calls[c := Call(0, ip, service, None, 0, 0, Done(TooManyRequests))];
      } else {
        pending := pending[id.value := c];
        calls := calls[c := Call(id.value, ip, service, None, 0, 0, Sending)];
      }
    }

    /** One turn of the retry loop: write the packet, or give up. */
    method SendRequest(c: CallId, ok: bool)
      requires Valid() && Enabled(Current(), Send(c, ok))
      modifies this
      ensures Valid() && Current() == Next(old(Current()), Send(c, ok), retries)
    {
      hide Inv;
      StepKeepsInv(Current(), Send(c, ok), retries);
      var call := calls[c];
      call := call.(sends := call.sends + 1);
      calls := calls[c := call.(phase := if ok then Waiting else Returning(SendFailed))];
    }

    /** ... receive from the channel ... */
    method TakeReply(c: CallId) returns (reply: Reply)
      requires Valid() && Enabled(Current(), Take(c))
      modifies this
      ensures Valid() && Current() == Next(old(Current()), Take(c), retries)
      ensures Belongs(old(calls[c]), reply)
    {
      assert CallOk(calls[c], retries);
      StepKeepsInv(Current(), Take(c), retries);
      hide Inv;
      var call := calls[c];
      reply := call.channel.value;
      calls := calls[c := call.(channel := None, taken := call.taken + 1, phase := Returning(Replied(reply)))];
    }

    /** ... or time out: another turn while attempts are left. */
    method ExpireAttempt(c: CallId)
      requires Valid() && Enabled(Current(), Expire(c))
      modifies this
      ensures Valid() && Current() == Next(old(Current()), Expire(c), retries)
    {
      hide Inv;
      StepKeepsInv(Current(), Expire(c), retries);
      if calls[c].sends <= retries {
        calls := calls[c := calls[c].(phase := Sending)];
      } else {
        calls := calls[c := calls[c].(phase := Returning(TimedOut))];
      }
    }

    method CancelRequest(c: CallId)
      requires Valid() && Enabled(Current(), Cancel(c))
      modifies this
      ensures Valid() && Current() == Next(old(Current()), Cancel(c), retries)
    {
      hide Inv;
      StepKeepsInv(Current(), Cancel(c), retries);
      calls := calls[c := calls[c].(phase := Returning(Cancelled))];
    }

    /** The deferred deletion of the pending entry. */
    method ReleaseID(c: CallId)
      requires Valid() && Enabled(Current(), Release(c))
      modifies this
      ensures Valid() && Current() == Next(old(Current()), Release(c), retries)
    {
      hide Inv;
      StepKeepsInv(Current(), Release(c), retries);
      var call := calls[c];
      pending := pending - {call.id};
      calls := calls[c := call.(phase := Done(call.phase.outcome))];
    }

    /** handleIncoming up to the match, as the source writes it: the service is
        compared with the pending request's whether or not there is one. */
    method LookupAsWritten(reply: Reply) returns (crashes: bool)
      requires Valid() && Enabled(Current(), Lookup(reply))
      modifies this
      ensures Valid() && crashes == HandleAsWritten(old(Current()), reply).Crashes?
      ensures crashes <==> Unsolicited(reply.apdu, old(pending.Keys))
      ensures Current() == if crashes then old(Current()) else Next(old(Current()), Lookup(reply), retries)
    {
      assert PendingOk(Current());
      StepKeepsInv(Current(), Lookup(reply), retries);
      hide Inv;
      if !IsReply(reply.apdu) {
        return false;
      }
      var id := reply.apdu.invokeID;
      var ok := id in pending;
      var sameService := true;
      if reply.apdu.kind != REJECT_PDU && reply.apdu.kind != ABORT_PDU {
        if !ok {
          return true;
        }
        sameService := reply.apdu.serviceChoice == calls[pending[id]].service;
      }
      if ok && calls[pending[id]].ip == reply.ip && sameService {
        inbound := Some((pending[id], reply));
      }
      return false;
    }

    /** handleIncoming up to the match, with the pending entry tested before the
        service comparison reads it. */
    method LookupReply(reply: Reply)
      requires Valid() && Enabled(Current(), Lookup(reply))
      modifies this
      ensures Valid() && Current() == Next(old(Current()), Lookup(reply), retries)
    {
      assert PendingOk(Current());
      StepKeepsInv(Current(), Lookup(reply), retries);
      hide Inv;
      if IsReply(reply.apdu) {
        var id := reply.apdu.invokeID;
        if id in pending && Answers(calls[pending[id]], reply) {
          inbound := Some((pending[id], reply));
        }
      }
    }

    /** ... and its non-blocking send: a duplicate reply is dropped. */
    method DepositReply()
      requires Valid() && Enabled(Current(), Deposit)
      modifies this
      ensures Valid() && Current() == Next(old(Current()), Deposit, retries)
    {
      hide Inv;
      StepKeepsInv(Current(), Deposit, retries);
      var (c, r) := inbound.value;
      var call := calls[c];
      if call.channel.None? {
        call := call.(channel := Some(r));
      }
      calls := calls[c := call];
      inbound := None;
    }
  }
}
