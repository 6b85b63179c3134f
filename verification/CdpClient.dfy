/**
 The client object (`y-browser/src/cdp_client.rs`): each method is one critical section, the part
 of an operation that runs under one lock. The operations run them one after another:
 `send_with_timeout` is AllocateId, RegisterCall, WriteRequest, then Await, or Expire and GiveUp;
 the reader loop is DispatchReply, then LoseConnection, TakeWriter, DrainAll; `disconnect` is
 StartDisconnect, TakeWriter, AbortReader for the reader it stops, DrainAll. The client keeps the history of what it has
 done: it is always a run of the protocol, and every run of the protocol can be performed.
 */
module CdpClient {
  import opened CdpProtocol
  import opened Wrappers

  /** One `send_with_timeout`: its id, how far it has got, and what its channel holds. */
  class Request {
    const id: Id
    const number: nat
    var phase: Phase
    var mail: Option<Mail>

    constructor (id: Id, number: nat)
      ensures this.id == id && this.number == number && phase == Allocated && mail == None
    {
      this.id, this.number, phase, mail := id, number, Allocated, None;
    }

    ghost function View(): Call
      reads this
    {
      Call(id, phase, mail)
    }

    /** `sender.send`, which fails if the receiver is gone. */
    method Deliver(m: Mail)
      modifies this`mail
      ensures View() == Delivered(old(View()), m)
    {
      if (phase == Registered || phase == Waiting) && mail == None {
        mail := Some(m);
      }
    }
  }

  /** The writing half of a connection. */
  datatype Writer = Writer(connection: nat)

  class CdpClient {
    var nextId: Id
    var writer: Option<Writer>
    var pending: map<Id, Request>
    /** What is at work on the client: every request so far, and every reader and `disconnect`. */
    var requests: seq<Request>
    var tasks: seq<Task>
    /** All that has happened. */
    ghost var trace: seq<Action>

    ghost predicate Holds(r: Request)
      reads this
    {
      r.number < |requests| && requests[r.number] == r
    }

    ghost function View(): State
      reads this, requests
    {
      State(nextId,
            if writer.Some? then Some(writer.value.connection) else None,
            map id | id in pending :: pending[id].number,
            seq(|requests|, k requires 0 <= k < |requests| reads this, requests => requests[k].View()), tasks)
    }

    ghost predicate Valid()
      reads this, requests
    {
      && (forall k :: 0 <= k < |requests| ==> requests[k].number == k)
      && (forall id :: id in pending ==> Holds(pending[id]))
      && IsRun(trace) && After(trace) == View()
    }

    /** Adds `a`, which led from `before` to where the client is now, to the history. */
    ghost method Record(before: State, a: Action)
      requires IsRun(trace) && After(trace) == before && Enabled(before, a) && View() == Apply(before, a)
      requires forall k :: 0 <= k < |requests| ==> requests[k].number == k
      requires forall id :: id in pending ==> Holds(pending[id])
      modifies this`trace
      ensures Valid() && View() == old(View()) && trace == old(trace) + [a]
    {
      hide IsRun, After, Apply, Enabled;
      OneMore(trace, a);
      trace := trace + [a];
    }

    constructor ()
      ensures Valid() && trace == [] && requests == []
    {
      nextId, writer, pending, requests, tasks, trace := 1, None, map[], [], [], [];
    }

    /**
     `next_id.fetch_add(1)`, an atomic 64-bit counter. Its wrapping is out of reach for 2^64 requests:
     till then the id is new.
     */
    method AllocateId() returns (r: Request)
      requires Valid()
      modifies this
      ensures Valid() && trace == old(trace) + [Allocate]
      ensures fresh(r) && requests == old(requests) + [r] && Holds(r) && r.phase == Allocated
      ensures |requests| <= ID_SPACE ==> forall q :: q in old(requests) ==> q.id != r.id
    {
      r := new Request(nextId, |requests|);
      nextId := (nextId + 1) % ID_SPACE;
      requests := requests + [r];
      Record(old(View()), Allocate);
      IdsAreDistinctIff(trace);
      assert r.id == View().calls[r.number].id;
      forall q | q in old(requests) && |requests| <= ID_SPACE ensures q.id != r.id {
        assert q.id == View().calls[q.number].id;
      }
    }

    /** `pending.insert(id, tx)`, under the lock of the map. */
    method RegisterCall(r: Request)
      requires Valid() && Holds(r) && r.phase == Allocated
      modifies this, r
      ensures Valid() && trace == old(trace) + [Register(r.number)] && requests == old(requests)
      ensures r.phase == Registered && pending == old(pending)[r.id := r] && writer == old(writer)
    {
      r.phase := Registered;
      pending := pending[r.id := r];
      Record(old(View()), Register(r.number));
    }

    /**
     The write, with the writer locked throughout; `succeeds` is the socket's answer. Whoever goes on to
     wait can count on its sender.
     */
    method WriteRequest(r: Request, succeeds: bool)
      requires Valid() && Holds(r) && r.phase == Registered
      modifies this, r
      ensures Valid() && trace == old(trace) + [Write(r.number, succeeds)] && requests == old(requests)
      ensures writer == old(writer) && pending == old(pending)
      ensures writer == None ==> r.phase == Returned(NoWriter)
      ensures writer.Some? ==> r.phase == if succeeds then Waiting else Returned(WriteFailed)
      ensures r.phase == Waiting && |requests| <= ID_SPACE ==> r.mail.Some? || (r.id in pending && pending[r.id] == r)
    {
      if writer == None {
        r.phase := Returned(NoWriter);
      } else if succeeds {
        r.phase := Waiting;
      } else {
        r.phase := Returned(WriteFailed);
      }
      Record(old(View()), Write(r.number, succeeds));
      assert View().calls[r.number] == r.View();
      if |requests| <= ID_SPACE {
        NoSenderLostInRuns(trace);
      }
    }

    /** The wait ends with mail, or because the sender is gone. A reply carries the id of the request it answers. */
    method Await(r: Request) returns (outcome: Outcome)
      requires Valid() && Holds(r) && CanReceive(View(), r.number)
      modifies this, r
      ensures Valid() && trace == old(trace) + [Receive(r.number)] && requests == old(requests)
      ensures r.phase == Returned(outcome) && r.mail == old(r.mail) && pending == old(pending)
      ensures match r.mail
        case Some(Reply(payload)) => outcome == Replied(payload)
        case Some(TornDown) => outcome == ConnectionLost
        case None => outcome == SenderDropped
      ensures outcome.Replied? ==> exists a :: a in old(trace) && IsReplyTo(a, r.id, outcome.payload)
      ensures outcome == ConnectionLost ==> exists i :: Drain(i) in old(trace)
      ensures |requests| <= ID_SPACE ==> outcome.Replied? || outcome == ConnectionLost
    {
      ReceivedFrom(trace, r.number);
      outcome := if r.mail.Some? then OutcomeOf(r.mail.value) else SenderDropped;
      r.phase := Returned(outcome);
      Record(old(View()), Receive(r.number));
    }

    /** The parameters do not serialise: the request ends before it is registered. */
    method NotSerialise(r: Request)
      requires Valid() && Holds(r) && r.phase == Allocated
      modifies this, r
      ensures Valid() && trace == old(trace) + [FailToSerialise(r.number)] && requests == old(requests)
      ensures r.phase == Returned(NotSerialised) && pending == old(pending)
    {
      r.phase := Returned(NotSerialised);
      Record(old(View()), FailToSerialise(r.number));
    }

    /** The timer runs out before there is anything to receive. */
    method Expire(r: Request)
      requires Valid() && Holds(r) && r.phase == Waiting && !CanReceive(View(), r.number)
      modifies this, r
      ensures Valid() && trace == old(trace) + [CdpProtocol.Expire(r.number)] && requests == old(requests)
      ensures r.phase == Expiring && r.mail == None
    {
      r.phase := Expiring;
      Record(old(View()), CdpProtocol.Expire(r.number));
    }

    /** After a timeout: `pending.remove(&id)`. A reply that comes later finds nobody. */
    method GiveUp(r: Request)
      requires Valid() && Holds(r) && r.phase == Expiring
      modifies this, r
      ensures Valid() && trace == old(trace) + [RemoveExpired(r.number)] && requests == old(requests)
      ensures r.phase == Returned(TimedOut) && pending == old(pending) - {r.id}
    {
      pending := pending - {r.id};
      r.phase := Returned(TimedOut);
      Record(old(View()), RemoveExpired(r.number));
    }

    /**
     The reader's `pending.remove(&id)` and the send that follows it under the same lock. No other
     request gets the reply.
     */
    method DispatchReply(i: nat, id: Id, payload: Payload)
      requires Valid() && InStage(View(), i, Reading)
      modifies this, requests
      ensures Valid() && trace == old(trace) + [Dispatch(i, id, payload)] && requests == old(requests)
      ensures pending == old(pending) - {id} && writer == old(writer)
      ensures id in old(pending) && old(Listens(pending[id].View())) ==> old(pending[id]).mail == Some(Reply(payload))
      ensures forall q :: q in requests && q.mail != old(q.mail) ==> q.id == id && q.mail == Some(Reply(payload))
      ensures forall q :: q in requests ==> q.phase == old(q.phase)
    {
      SoundInRuns(trace);
      ghost var before := View();
      ReplyTo(id, payload);
      Record(before, Dispatch(i, id, payload));
    }

    /** `if let Some(sender) = pending.remove(&id)`, and the send. */
    method ReplyTo(id: Id, payload: Payload)
      requires PendingIsSound(View())
      requires forall k :: 0 <= k < |requests| ==> requests[k].number == k
      requires forall id :: id in pending ==> Holds(pending[id])
      modifies this`pending, requests
      ensures View() == SendReply(old(View()), id, payload) && pending == old(pending) - {id}
      ensures forall other :: other in pending ==> other in old(pending) && pending[other] == old(pending)[other]
      ensures id in old(pending) && old(Listens(pending[id].View())) ==> old(pending[id]).mail == Some(Reply(payload))
      ensures forall q :: q in requests && q.mail != old(q.mail) ==> q.id == id && q.mail == Some(Reply(payload))
      ensures forall q :: q in requests ==> q.phase == old(q.phase)
    {
      ghost var before := View();
      if id in pending {
        var r := pending[id];
        pending := pending - {id};
        r.Deliver(Reply(payload));
        assert before.pending[id] == r.number && before.calls[r.number].id == id;
        assert View().calls == before.calls[r.number := Delivered(before.calls[r.number], Reply(payload))];
      }
    }

    /** `*writer.lock() = Some(writer)`, and the reader of that connection starts. Earlier readers go on. */
    method Connect() returns (i: nat)
      requires Valid()
      modifies this
      ensures Valid() && trace == old(trace) + [CdpProtocol.Connect] && requests == old(requests)
      ensures writer == Some(Writer(i)) && pending == old(pending)
      ensures InStage(View(), i, Reading) && IsReader(View(), i)
      ensures forall j :: 0 <= j < |old(tasks)| ==> tasks[j] == old(tasks)[j]
    {
      i := |tasks|;
      writer := Some(Writer(i));
      tasks := tasks + [Task(true, Reading)];
      Record(old(View()), CdpProtocol.Connect);
    }

    /** The reader's loop ends: `alive.store(false)`, the start of its teardown. */
    method LoseConnection(i: nat)
      requires Valid() && InStage(View(), i, Reading)
      modifies this
      ensures Valid() && trace == old(trace) + [Lose(i)] && requests == old(requests)
      ensures InStage(View(), i, Marked) && writer == old(writer) && pending == old(pending)
    {
      tasks := tasks[i := tasks[i].(stage := Marked)];
      Record(old(View()), Lose(i));
    }

    /** `alive.store(false)` in `disconnect`. */
    method StartDisconnect() returns (i: nat)
      requires Valid()
      modifies this
      ensures Valid() && trace == old(trace) + [CdpProtocol.StartDisconnect] && requests == old(requests)
      ensures InStage(View(), i, Marked) && !IsReader(View(), i)
      ensures writer == old(writer) && pending == old(pending)
    {
      i := |tasks|;
      tasks := tasks + [Task(false, Marked)];
      Record(old(View()), CdpProtocol.StartDisconnect);
    }

    /** `writer.lock().take()` */
    method TakeWriter(i: nat)
      requires Valid() && InStage(View(), i, Marked)
      modifies this
      ensures Valid() && trace == old(trace) + [CdpProtocol.TakeWriter(i)] && requests == old(requests)
      ensures writer == None && InStage(View(), i, WriterTaken) && pending == old(pending)
    {
      writer := None;
      tasks := tasks[i := tasks[i].(stage := WriterTaken)];
      Record(old(View()), CdpProtocol.TakeWriter(i));
    }

    /**
     `for (_, sender) in pending.drain()`, in whatever order the map yields its entries. Everybody who
     waits can go on.
     */
    method DrainAll(i: nat)
      requires Valid() && InStage(View(), i, WriterTaken)
      modifies this, requests
      ensures Valid() && trace == old(trace) + [Drain(i)] && requests == old(requests)
      ensures pending == map[] && writer == old(writer)
      ensures forall k :: 0 <= k < |requests| ==> requests[k].phase == old(requests[k].phase)
      ensures forall k :: InPhase(View(), k, Waiting) ==> IsFreed(View(), k)
      ensures writer == None ==> Settled(View())
    {
      ghost var before := View();
      SoundInRuns(trace);
      DrainSenders();
      tasks := tasks[i := tasks[i].(stage := Drained)];
      Record(before, Drain(i));
      hide IsRun, After;
      if writer == None {
        DrainSettles(before, i);
      }
    }

    /** The loop of the drain: send the loss of the connection to each sender, taking it out of the map. */
    method DrainSenders()
      requires PendingIsSound(View())
      requires forall k :: 0 <= k < |requests| ==> requests[k].number == k
      requires forall id :: id in pending ==> Holds(pending[id])
      modifies this`pending, requests
      ensures pending == map[] && View() == DrainPending(old(View()))
      ensures forall k :: 0 <= k < |requests| ==> requests[k].phase == old(requests[k].phase)
    {
      hide PendingIsSound, DrainedTo, Delivered, DrainPending;
      ghost var before := View();
      DrainStarts(before);
      assert before.pending.Keys == pending.Keys;
      while pending != map[]
        invariant forall id :: id in pending ==> id in old(pending) && pending[id] == old(pending)[id]
        invariant DrainedTo(before, pending.Keys, View().calls)
        decreases pending.Keys
      {
        var id :| id in pending;
        var r := pending[id];
        assert before.pending[id] == r.number;
        DrainOne(before, pending.Keys, id, View().calls);
        ghost var calls := View().calls;
        r.Deliver(TornDown);
        ghost var later, keys := View().calls, pending.Keys;
        assert later == calls[r.number := Delivered(calls[r.number], TornDown)];
        pending := pending - {id};
        assert pending.Keys == keys - {id} && View().calls == later;
      }
      assert pending.Keys == {};
      DrainDone(before, View().calls);
      forall k | 0 <= k < |requests| ensures requests[k].phase == old(requests[k].phase) {
        assert View().calls[k] == DrainPending(before).calls[k];
      }
    }

    /** A `disconnect` aborts a reader, which stops where it is. Whose handle it holds is left open. */
    method AbortReader(i: nat, reader: nat)
      requires Valid() && InStage(View(), i, WriterTaken) && !IsReader(View(), i) && IsUnfinished(View(), reader)
      modifies this
      ensures Valid() && trace == old(trace) + [Abort(i, reader)] && requests == old(requests)
      ensures !IsUnfinished(View(), reader)
    {
      tasks := tasks[reader := tasks[reader].(stage := Aborted)];
      Record(old(View()), Abort(i, reader));
    }

    /** `disconnect`, if nothing comes between its sections: nobody is left waiting in vain. */
    method Disconnect()
      requires Valid()
      modifies this, requests
      ensures Valid() && requests == old(requests) && Settled(View())
      ensures exists i :: trace == old(trace) + [CdpProtocol.StartDisconnect] + [CdpProtocol.TakeWriter(i)] + [Drain(i)]
    {
      var i := StartDisconnect();
      TakeWriter(i);
      DrainAll(i);
    }

    /** Any action that the protocol allows, performed by the section that it stands for. */
    method Perform(a: Action)
      requires Valid() && Enabled(View(), a)
      modifies this, requests
      ensures Valid() && trace == old(trace) + [a]
      ensures old(requests) <= requests && fresh(set q | q in requests && q !in old(requests))
    {
      match a
      case Allocate => var r := AllocateId();
      case FailToSerialise(k) => NotSerialise(requests[k]);
      case Register(k) => RegisterCall(requests[k]);
      case Write(k, succeeds) => WriteRequest(requests[k], succeeds);
      case Dispatch(i, id, payload) => DispatchReply(i, id, payload);
      case Receive(k) => var outcome := Await(requests[k]);
      case Expire(k) => Expire(requests[k]);
      case RemoveExpired(k) => GiveUp(requests[k]);
      case Connect => var i := Connect();
      case Lose(i) => LoseConnection(i);
      case StartDisconnect => var i := StartDisconnect();
      case TakeWriter(i) => TakeWriter(i);
      case Drain(i) => DrainAll(i);
      case Abort(i, reader) => AbortReader(i, reader);
    }
  }

  /** Of the senders that were in the map, all but those at `left` have been sent the loss of the connection. */
  ghost predicate DrainedTo(before: State, left: set<Id>, calls: seq<Call>) {
    && |calls| == |before.calls|
    && forall k :: 0 <= k < |calls| ==>
         calls[k] == if IsPending(before, k) && before.calls[k].id !in left then Delivered(before.calls[k], TornDown)
           else before.calls[k]
  }

  lemma DrainStarts(before: State)
    ensures DrainedTo(before, before.pending.Keys, before.calls)
  {
  }

  lemma DrainOne(before: State, left: set<Id>, id: Id, calls: seq<Call>)
    requires PendingIsSound(before) && DrainedTo(before, left, calls) && id in left && id in before.pending
    ensures before.pending[id] < |calls|
    ensures var k := before.pending[id]; DrainedTo(before, left - {id}, calls[k := Delivered(calls[k], TornDown)])
  {
    hide Delivered;
  }

  lemma DrainDone(before: State, calls: seq<Call>)
    requires DrainedTo(before, {}, calls)
    ensures DrainPending(before) == before.(pending := map[], calls := calls)
    ensures forall k :: 0 <= k < |calls| ==> calls[k].phase == before.calls[k].phase
  {
  }

  /** What a request that can receive will receive, and where it comes from. */
  lemma ReceivedFrom(trace: seq<Action>, k: nat)
    requires IsRun(trace) && CanReceive(After(trace), k)
    ensures var call := After(trace).calls[k];
      match call.mail
      case Some(Reply(payload)) => exists a :: a in trace && IsReplyTo(a, call.id, payload)
      case Some(TornDown) => exists i :: Drain(i) in trace
      case None => |After(trace).calls| > ID_SPACE
  {
    hide Apply;
    var call := After(trace).calls[k];
    if call.mail.Some? {
      var j := MailWasDelivered(trace, k);
      PrefixIsRun(trace, j);
      CompletesOnce(trace, j, k);
      assert trace[j] in trace;
    } else if |After(trace).calls| <= ID_SPACE {
      NoSenderLostInRuns(trace);
    }
  }

  lemma NextOfRun(actions: seq<Action>, n: nat)
    requires IsRun(actions) && n < |actions|
    ensures IsRun(actions[..n]) && Enabled(After(actions[..n]), actions[n])
    ensures actions[..n] + [actions[n]] == actions[..n + 1]
  {
    hide Enabled, Apply;
    PrefixIsRun(actions, n + 1);
    LastStep(actions[..n + 1]);
    assert actions[..n + 1][..n] == actions[..n];
  }

  /** Every run of the protocol can be performed by a client, which ends in the state that the run leads to. */
  method Execute(actions: seq<Action>) returns (client: CdpClient)
    requires IsRun(actions)
    ensures fresh(client) && client.Valid() && client.trace == actions && client.View() == After(actions)
  {
    client := new CdpClient();
    assert actions[..0] == [];
    hide IsRun, After, Apply, Enabled;
    for n := 0 to |actions|
      invariant fresh(client) && fresh(client.requests) && client.Valid() && client.trace == actions[..n]
    {
      NextOfRun(actions, n);
      client.Perform(actions[n]);
    }
    assert actions[..|actions|] == actions;
  }
}
