/**
 The request/response protocol of the CDP client (`y-browser/src/cdp_client.rs`) as the
 interleaving of its critical sections. A call is one run of `send_with_timeout`; its channel is
 the `mail` it may receive; the pending map says which call holds the sender for an id.
 */
module CdpProtocol {
  import opened Numbers
  import opened Wrappers

  type Id = nat

  const ID_SPACE: nat := U64_MAX + 1

  datatype Payload = Payload(isError: bool, body: string)

  datatype Mail = Reply(payload: Payload) | TornDown

  /** `NoWriter`, `ConnectionLost` and `SenderDropped` all surface as the error `NotConnected`. */
  datatype Outcome =
    | Replied(payload: Payload)
    | ConnectionLost
    | SenderDropped
    | NoWriter
    | WriteFailed
    | TimedOut
    | NotSerialised

  datatype Phase = Allocated | Registered | Waiting | Expiring | Returned(outcome: Outcome)

  datatype Call = Call(id: Id, phase: Phase, mail: Option<Mail>)

  /**
   A reader reads until its connection is lost; it and a `disconnect` then mark, take the writer and
   drain the map.
   */
  datatype Stage = Reading | Marked | WriterTaken | Drained | Aborted

  /** The reader of a connection, or a `disconnect`. */
  datatype Task = Task(isReader: bool, stage: Stage)

  /** `writer` belongs to the connection whose reader has that number among the tasks. */
  datatype State = State(nextId: Id, writer: Option<nat>, pending: map<Id, nat>, calls: seq<Call>, tasks: seq<Task>)

  datatype Action =
    | Allocate
    | FailToSerialise(call: nat)
    | Register(call: nat)
    | Write(call: nat, succeeds: bool)
    | Dispatch(task: nat, id: Id, payload: Payload)
    | Receive(call: nat)
    | Expire(call: nat)
    | RemoveExpired(call: nat)
    | Connect
    | Lose(task: nat)
    | StartDisconnect
    | TakeWriter(task: nat)
    | Drain(task: nat)
    | Abort(task: nat, reader: nat)

  const INIT := State(1, None, map[], [], [])

  // ---------------------------------------------------------------------------
  // Effects
  // ---------------------------------------------------------------------------

  predicate InPhase(s: State, k: nat, phase: Phase) {
    k < |s.calls| && s.calls[k].phase == phase
  }

  predicate InStage(s: State, i: nat, stage: Stage) {
    i < |s.tasks| && s.tasks[i].stage == stage
  }

  predicate IsReader(s: State, i: nat) {
    i < |s.tasks| && s.tasks[i].isReader
  }

  /** A reader that has not come to its end. */
  predicate IsUnfinished(s: State, i: nat) {
    IsReader(s, i) && s.tasks[i].stage in {Reading, Marked, WriterTaken}
  }

  function Advance(s: State, i: nat, stage: Stage): State
    requires i < |s.tasks|
  {
    s.(tasks := s.tasks[i := s.tasks[i].(stage := stage)])
  }

  /** The pending map still holds the sender of call `k`. */
  predicate IsPending(s: State, k: nat)
    requires k < |s.calls|
  {
    s.calls[k].id in s.pending && s.pending[s.calls[k].id] == k
  }

  /** The caller still holds its end of the channel. */
  predicate Listens(c: Call) {
    c.phase == Registered || c.phase == Waiting
  }

  function Move(s: State, k: nat, phase: Phase): State
    requires k < |s.calls|
  {
    s.(calls := s.calls[k := s.calls[k].(phase := phase)])
  }

  /** A send on a channel: lost if the other end is gone. */
  function Delivered(c: Call, mail: Mail): Call {
    if Listens(c) && c.mail == None then c.(mail := Some(mail)) else c
  }

  /** Every sender in the map sends `NotConnected`. */
  function DrainPending(s: State): State {
    s.(pending := map[],
       calls := seq(|s.calls|, k requires 0 <= k < |s.calls| =>
         if IsPending(s, k) then Delivered(s.calls[k], TornDown) else s.calls[k]))
  }

  /** The sender under `id`, if any, sends the reply. */
  function SendReply(s: State, id: Id, payload: Payload): State {
    if id in s.pending && s.pending[id] < |s.calls| then
      var k := s.pending[id];
      s.(pending := s.pending - {id}, calls := s.calls[k := Delivered(s.calls[k], Reply(payload))])
    else s
  }

  function OutcomeOf(mail: Mail): Outcome {
    match mail
    case Reply(payload) => Replied(payload)
    case TornDown => ConnectionLost
  }

  /** Whether a call that waits can go on: there is mail, or the sender is gone. */
  predicate CanReceive(s: State, k: nat) {
    InPhase(s, k, Waiting) && (s.calls[k].mail.Some? || !IsPending(s, k))
  }

  predicate Enabled(s: State, a: Action) {
    match a
    case Allocate => true
    case FailToSerialise(k) => InPhase(s, k, Allocated)
    case Register(k) => InPhase(s, k, Allocated)
    case Write(k, _) => InPhase(s, k, Registered)
    case Dispatch(i, _, _) => InStage(s, i, Reading)
    case Receive(k) => CanReceive(s, k)
    case Expire(k) => InPhase(s, k, Waiting) && !CanReceive(s, k)
    case RemoveExpired(k) => InPhase(s, k, Expiring)
    case Connect => true
    case Lose(i) => InStage(s, i, Reading)
    case StartDisconnect => true
    case TakeWriter(i) => InStage(s, i, Marked)
    case Drain(i) => InStage(s, i, WriterTaken)
    case Abort(i, j) => InStage(s, i, WriterTaken) && !IsReader(s, i) && IsUnfinished(s, j)
  }

  function Apply(s: State, a: Action): State
    requires Enabled(s, a)
  {
    match a
    case Allocate =>
      s.(nextId := (s.nextId + 1) % ID_SPACE, calls := s.calls + [Call(s.nextId, Allocated, None)])
    case FailToSerialise(k) => Move(s, k, Returned(NotSerialised))
    case Register(k) => Move(s, k, Registered).(pending := s.pending[s.calls[k].id := k])
    case Write(k, succeeds) =>
      if s.writer == None then Move(s, k, Returned(NoWriter))
      else if succeeds then Move(s, k, Waiting)
      else Move(s, k, Returned(WriteFailed))
    case Dispatch(_, id, payload) => SendReply(s, id, payload)
    case Receive(k) =>
      Move(s, k, Returned(if s.calls[k].mail.Some? then OutcomeOf(s.calls[k].mail.value) else SenderDropped))
    case Expire(k) => Move(s, k, Expiring)
    case RemoveExpired(k) => Move(s, k, Returned(TimedOut)).(pending := s.pending - {s.calls[k].id})
    case Connect => s.(writer := Some(|s.tasks|), tasks := s.tasks + [Task(true, Reading)])
    case Lose(i) => Advance(s, i, Marked)
    case StartDisconnect => s.(tasks := s.tasks + [Task(false, Marked)])
    case TakeWriter(i) => Advance(s, i, WriterTaken).(writer := None)
    case Drain(i) => Advance(DrainPending(s), i, Drained)
    case Abort(_, j) => Advance(s, j, Aborted)
  }

  // ---------------------------------------------------------------------------
  // Runs
  // ---------------------------------------------------------------------------

  ghost predicate IsRun(trace: seq<Action>)
    decreases |trace|, 0
  {
    trace == [] || (IsRun(trace[..|trace| - 1]) && Enabled(After(trace[..|trace| - 1]), trace[|trace| - 1]))
  }

  ghost function After(trace: seq<Action>): State
    requires IsRun(trace)
    decreases |trace|, 1
  {
    if trace == [] then INIT else Apply(After(trace[..|trace| - 1]), trace[|trace| - 1])
  }

  lemma OneMore(trace: seq<Action>, a: Action)
    requires IsRun(trace) && Enabled(After(trace), a)
    ensures IsRun(trace + [a]) && After(trace + [a]) == Apply(After(trace), a)
  {
    assert (trace + [a])[..|trace|] == trace;
  }

  lemma {:induction false} PrefixIsRun(trace: seq<Action>, n: nat)
    requires IsRun(trace) && n <= |trace|
    ensures IsRun(trace[..n])
  {
    if n == |trace| {
      assert trace[..n] == trace;
    } else {
      PrefixIsRun(trace[..|trace| - 1], n);
      assert trace[..|trace| - 1][..n] == trace[..n];
    }
  }

  // ---------------------------------------------------------------------------
  // Ids
  // ---------------------------------------------------------------------------

  ghost predicate IdsCount(s: State) {
    && s.nextId == (1 + |s.calls|) % ID_SPACE
    && forall k :: 0 <= k < |s.calls| ==> s.calls[k].id == (1 + k) % ID_SPACE
  }

  lemma IdsCountStep(s: State, a: Action)
    requires IdsCount(s) && Enabled(s, a)
    ensures IdsCount(Apply(s, a))
  {
    var t := Apply(s, a);
    ModNext(1 + |s.calls|, ID_SPACE);
    IdsArePermanent(s, a);
    hide Apply;
    forall k | 0 <= k < |t.calls| ensures t.calls[k].id == (1 + k) % ID_SPACE {
      assert k < |s.calls| ==> t.calls[k].id == s.calls[k].id;
    }
  }

  lemma IdsArePermanent(s: State, a: Action)
    requires Enabled(s, a)
    ensures var t := Apply(s, a);
      && (forall k :: 0 <= k < |s.calls| ==> k < |t.calls| && t.calls[k].id == s.calls[k].id)
      && (a.Allocate? ==> |t.calls| == |s.calls| + 1 && t.calls[|s.calls|].id == s.nextId)
      && (a.Allocate? ==> t.nextId == (s.nextId + 1) % ID_SPACE)
      && (!a.Allocate? ==> |t.calls| == |s.calls| && t.nextId == s.nextId)
  {
  }

  lemma {:induction false} IdsCountInRuns(trace: seq<Action>)
    requires IsRun(trace)
    ensures IdsCount(After(trace))
  {
    if trace == [] {
    } else {
      IdsCountInRuns(trace[..|trace| - 1]);
      IdsCountStep(After(trace[..|trace| - 1]), trace[|trace| - 1]);
    }
  }

  ghost predicate IdsDistinct(s: State) {
    forall j, k :: 0 <= j < k < |s.calls| ==> s.calls[j].id != s.calls[k].id
  }

  /** No id is used twice in a run exactly as long as it makes at most 2^64 calls. */
  lemma IdsAreDistinctIff(trace: seq<Action>)
    requires IsRun(trace)
    ensures IdsDistinct(After(trace)) <==> |After(trace).calls| <= ID_SPACE
  {
    IdsCountInRuns(trace);
    CountedIdsAreDistinctIff(After(trace));
  }

  lemma CountedIdsAreDistinctIff(s: State)
    requires IdsCount(s)
    ensures IdsDistinct(s) <==> |s.calls| <= ID_SPACE
  {
    if |s.calls| > ID_SPACE {
      ModUnique(1 + ID_SPACE, ID_SPACE, 1, 1);
      ModUnique(1, ID_SPACE, 0, 1);
      assert s.calls[0].id == s.calls[ID_SPACE].id;
    } else {
      forall j, k | 0 <= j < k < |s.calls| ensures s.calls[j].id != s.calls[k].id {
        ModUnique(1 + j, ID_SPACE, 0, 1 + j);
        if k + 1 < ID_SPACE {
          ModUnique(1 + k, ID_SPACE, 0, 1 + k);
        } else {
          ModUnique(1 + k, ID_SPACE, 1, 0);
        }
      }
    }
  }

  // ---------------------------------------------------------------------------
  // What every step keeps
  // ---------------------------------------------------------------------------

  /** A sender in the map is for a call of that id that has had no mail, and has not completed but by a failed write. */
  ghost predicate PendingIsSound(s: State) {
    forall id :: id in s.pending ==>
      && s.pending[id] < |s.calls|
      && s.calls[s.pending[id]].id == id
      && s.calls[s.pending[id]].mail == None
      && s.calls[s.pending[id]].phase in {Registered, Waiting, Expiring, Returned(NoWriter), Returned(WriteFailed)}
  }

  /** Calls that have not registered have no mail. */
  ghost predicate MailIsSound(s: State) {
    forall k :: 0 <= k < |s.calls| && s.calls[k].phase == Allocated ==> s.calls[k].mail == None && !IsPending(s, k)
  }

  ghost predicate Sound(s: State) {
    PendingIsSound(s) && MailIsSound(s)
  }

  lemma SoundStep(s: State, a: Action)
    requires Sound(s) && Enabled(s, a)
    ensures Sound(Apply(s, a))
  {
    PendingStaysSound(s, a);
    MailStaysSound(s, a);
  }

  lemma PendingStaysSound(s: State, a: Action)
    requires Sound(s) && Enabled(s, a)
    ensures PendingIsSound(Apply(s, a))
  {
    match a
    case Register(k) =>
      assert s.calls[k].mail == None;
      hide MailIsSound;
    case _ =>
      hide MailIsSound;
  }

  lemma MailStaysSound(s: State, a: Action)
    requires Sound(s) && Enabled(s, a)
    ensures MailIsSound(Apply(s, a))
  {
  }

  lemma {:induction false} SoundInRuns(trace: seq<Action>)
    requires IsRun(trace)
    ensures Sound(After(trace))
  {
    if trace == [] {
    } else {
      SoundInRuns(trace[..|trace| - 1]);
      SoundStep(After(trace[..|trace| - 1]), trace[|trace| - 1]);
    }
  }

  /** A call never disappears, never changes its id, never gets a second mail and never completes again. */
  ghost predicate Progresses(c: Call, d: Call) {
    && c.id == d.id
    && (c.mail.Some? ==> d.mail == c.mail)
    && (c.phase.Returned? ==> d.phase == c.phase)
  }

  lemma ProgressStep(s: State, a: Action, k: nat)
    requires Enabled(s, a) && k < |s.calls|
    ensures k < |Apply(s, a).calls| && Progresses(s.calls[k], Apply(s, a).calls[k])
  {
  }

  /** Each request completes at most once: what it returned at any point of a run, it keeps to the end. */
  lemma {:induction false} CompletesOnce(trace: seq<Action>, n: nat, k: nat)
    requires IsRun(trace) && n <= |trace| && IsRun(trace[..n]) && k < |After(trace[..n]).calls|
    ensures k < |After(trace).calls| && Progresses(After(trace[..n]).calls[k], After(trace).calls[k])
  {
    if n == |trace| {
      assert trace[..n] == trace;
    } else {
      var front := trace[..|trace| - 1];
      assert front[..n] == trace[..n];
      CompletesOnce(front, n, k);
      ProgressStep(After(front), trace[|trace| - 1], k);
    }
  }

  // ---------------------------------------------------------------------------
  // Where completions come from
  // ---------------------------------------------------------------------------

  /** Some reader dispatches that reply. */
  predicate IsReplyTo(a: Action, id: Id, payload: Payload) {
    a.Dispatch? && a.id == id && a.payload == payload
  }

  /** Position `j` of the run delivered `mail` to call `k`, which was pending under its own id. */
  ghost predicate Delivers(trace: seq<Action>, j: nat, k: nat, mail: Mail)
    requires IsRun(trace) && j < |trace|
  {
    PrefixIsRun(trace, j);
    var s := After(trace[..j]);
    && k < |s.calls| && IsPending(s, k) && Listens(s.calls[k])
    && (match mail
        case Reply(payload) => IsReplyTo(trace[j], s.calls[k].id, payload)
        case TornDown => trace[j].Drain?)
  }

  /** Any mail was delivered by a reply carrying the call's id, or by a drain. */
  lemma {:induction false} MailWasDelivered(trace: seq<Action>, k: nat) returns (j: nat)
    requires IsRun(trace) && k < |After(trace).calls| && After(trace).calls[k].mail.Some?
    ensures j < |trace| && Delivers(trace, j, k, After(trace).calls[k].mail.value)
  {
    var last := |trace| - 1;
    var front, a := trace[..last], trace[last];
    var s := After(front);
    SoundInRuns(front);
    if k < |s.calls| && s.calls[k].mail.Some? {
      ProgressStep(s, a, k);
      j := MailWasDelivered(front, k);
      PrefixIsRun(trace, j);
      assert front[..j] == trace[..j];
    } else {
      j := last;
      PrefixIsRun(trace, j);
      NewMail(s, a, k);
    }
  }

  lemma NewMail(s: State, a: Action, k: nat)
    requires Sound(s) && Enabled(s, a) && k < |Apply(s, a).calls| && Apply(s, a).calls[k].mail.Some?
    requires k < |s.calls| ==> s.calls[k].mail == None
    ensures k < |s.calls| && IsPending(s, k) && Listens(s.calls[k])
    ensures match Apply(s, a).calls[k].mail.value
      case Reply(payload) => IsReplyTo(a, s.calls[k].id, payload)
      case TornDown => a.Drain?
  {
  }

  /** What a completed call returned agrees with its mail. */
  ghost predicate ReturnsItsMail(s: State) {
    forall k :: 0 <= k < |s.calls| ==>
      && (forall payload :: s.calls[k].phase == Returned(Replied(payload)) ==> s.calls[k].mail == Some(Reply(payload)))
      && (s.calls[k].phase == Returned(ConnectionLost) ==> s.calls[k].mail == Some(TornDown))
  }

  lemma ReturnsItsMailStep(s: State, a: Action)
    requires ReturnsItsMail(s) && Enabled(s, a)
    ensures ReturnsItsMail(Apply(s, a))
  {
    var t := Apply(s, a);
    forall k | 0 <= k < |t.calls|
      ensures forall payload :: t.calls[k].phase == Returned(Replied(payload)) ==>
        t.calls[k].mail == Some(Reply(payload))
      ensures t.calls[k].phase == Returned(ConnectionLost) ==> t.calls[k].mail == Some(TornDown)
    {
      if k < |s.calls| {
        ProgressStep(s, a, k);
      }
    }
  }

  lemma {:induction false} ReturnsItsMailInRuns(trace: seq<Action>)
    requires IsRun(trace)
    ensures ReturnsItsMail(After(trace))
  {
    if trace == [] {
    } else {
      ReturnsItsMailInRuns(trace[..|trace| - 1]);
      ReturnsItsMailStep(After(trace[..|trace| - 1]), trace[|trace| - 1]);
    }
  }

  /** A reply reaches a caller only if it carries that caller's id, and came while the call was pending. */
  lemma ReplyCarriesTheCallersId(trace: seq<Action>, k: nat, payload: Payload) returns (j: nat)
    requires IsRun(trace) && k < |After(trace).calls|
    requires After(trace).calls[k].phase == Returned(Replied(payload))
    ensures j < |trace| && IsReplyTo(trace[j], After(trace).calls[k].id, payload)
    ensures Delivers(trace, j, k, Reply(payload))
  {
    ReturnsItsMailInRuns(trace);
    j := MailWasDelivered(trace, k);
    PrefixIsRun(trace, j);
    CompletesOnce(trace, j, k);
  }

  // ---------------------------------------------------------------------------
  // Teardown
  // ---------------------------------------------------------------------------

  /** The writer is gone, and no waiting caller still depends on a sender in the map. */
  ghost predicate Settled(s: State) {
    && s.writer == None
    && (forall k :: 0 <= k < |s.calls| && s.calls[k].phase == Waiting ==> CanReceive(s, k))
    && forall id :: id in s.pending && s.pending[id] < |s.calls| ==>
         s.calls[s.pending[id]].phase in {Registered, Returned(NoWriter)}
  }

  lemma DrainSettles(s: State, i: nat)
    requires Sound(s) && s.writer == None && Enabled(s, Drain(i))
    ensures Settled(Apply(s, Drain(i)))
  {
  }

  lemma SettledStep(s: State, a: Action)
    requires Sound(s) && Settled(s) && Enabled(s, a) && !a.Connect?
    ensures Settled(Apply(s, a))
  {
  }

  lemma WriterStaysGone(s: State, a: Action)
    requires Enabled(s, a) && s.writer == None && !a.Connect?
    ensures Apply(s, a).writer == None
  {
  }

  lemma {:induction false} NoWriterUntilConnect(trace: seq<Action>, n: nat)
    requires IsRun(trace) && n <= |trace| && IsRun(trace[..n]) && After(trace[..n]).writer == None
    requires forall j :: n <= j < |trace| ==> !trace[j].Connect?
    ensures After(trace).writer == None
  {
    if n == |trace| {
      assert trace[..n] == trace;
    } else {
      var front := trace[..|trace| - 1];
      assert front[..n] == trace[..n];
      NoWriterUntilConnect(front, n);
      WriterStaysGone(After(front), trace[|trace| - 1]);
    }
  }

  lemma {:induction false} SettledUntilConnect(trace: seq<Action>, n: nat)
    requires IsRun(trace) && n <= |trace| && IsRun(trace[..n]) && Settled(After(trace[..n]))
    requires forall j :: n <= j < |trace| ==> !trace[j].Connect?
    ensures Settled(After(trace))
  {
    if n == |trace| {
      assert trace[..n] == trace;
    } else {
      var front := trace[..|trace| - 1];
      assert front[..n] == trace[..n];
      SettledUntilConnect(front, n);
      SoundInRuns(front);
      SettledStep(After(front), trace[|trace| - 1]);
    }
  }

  /**
   Once a teardown has taken the writer and then drained the map, and until somebody connects
   again, no caller that got past its write is left without a completion. Senders left in the map
   belong only to callers that are about to fail their write or have already failed it.
   */
  lemma TeardownStrandsNobody(trace: seq<Action>, t: nat, d: nat, i: nat)
    requires IsRun(trace) && t < d < |trace| && trace[t] == TakeWriter(i) && trace[d] == Drain(i)
    requires forall j :: t < j < |trace| ==> !trace[j].Connect?
    ensures Settled(After(trace))
  {
    hide *;
    PrefixIsRun(trace, d);
    var before := trace[..d];
    TakeClearsWriter(before, t, i);
    NoWriterUntilConnect(before, t + 1);
    PrefixIsRun(trace, d + 1);
    var drained := trace[..d + 1];
    assert drained[..|drained| - 1] == before;
    LastStep(drained);
    SoundInRuns(before);
    DrainSettles(After(before), i);
    SettledUntilConnect(trace, d + 1);
  }

  /** A call that a teardown has freed: it has returned, or can do so without anyone's help. */
  ghost predicate IsFreed(s: State, k: nat) {
    k < |s.calls| && match s.calls[k].phase
      case Waiting => CanReceive(s, k)
      case Returned(outcome) => outcome == if s.calls[k].mail.Some? then OutcomeOf(s.calls[k].mail.value)
        else SenderDropped
      case _ => false
  }

  lemma FreedStep(s: State, a: Action, k: nat)
    requires IsFreed(s, k) && Enabled(s, a)
    ensures IsFreed(Apply(s, a), k)
  {
  }

  lemma {:induction false} StaysFreed(trace: seq<Action>, n: nat, k: nat)
    requires IsRun(trace) && n <= |trace| && IsRun(trace[..n]) && IsFreed(After(trace[..n]), k)
    ensures IsFreed(After(trace), k)
  {
    if n == |trace| {
      assert trace[..n] == trace;
    } else {
      var front := trace[..|trace| - 1];
      assert front[..n] == trace[..n];
      StaysFreed(front, n, k);
      FreedStep(After(front), trace[|trace| - 1], k);
    }
  }

  /**
   A drain frees every call that waits at it, for good: whatever follows, new connections and other
   teardowns included, the call can receive until it returns its mail or the loss of its sender,
   and it never times out.
   */
  lemma DrainFreesWaiters(trace: seq<Action>, d: nat, i: nat, k: nat)
    requires IsRun(trace) && d < |trace| && trace[d] == Drain(i)
    requires IsRun(trace[..d]) && InPhase(After(trace[..d]), k, Waiting)
    ensures IsFreed(After(trace), k)
  {
    PrefixIsRun(trace, d + 1);
    LastStep(trace[..d + 1]);
    assert trace[..d + 1][..d] == trace[..d];
    StaysFreed(trace, d + 1, k);
  }

  lemma TakeClearsWriter(trace: seq<Action>, t: nat, i: nat)
    requires IsRun(trace) && t < |trace| && trace[t] == TakeWriter(i)
    ensures IsRun(trace[..t + 1]) && After(trace[..t + 1]).writer == None
  {
    PrefixIsRun(trace, t + 1);
    LastStep(trace[..t + 1]);
  }

  lemma LastStep(trace: seq<Action>)
    requires IsRun(trace) && trace != []
    ensures var front, a := trace[..|trace| - 1], trace[|trace| - 1];
      IsRun(front) && Enabled(After(front), a) && After(trace) == Apply(After(front), a)
  {
  }

  /**
   The order matters: with the map drained first and the writer taken second, a caller that
   registers and writes in between waits for a reply that nobody can send.
   */
  lemma DrainBeforeTakeStrandsACaller(s: State)
    requires s.writer.Some?
    ensures var k := |s.calls|;
      var drained := DrainPending(s);
      var called := Apply(drained, Allocate);
      var registered := Apply(called, Register(k));
      var written := Apply(registered, Write(k, true));
      var end := written.(writer := None);
      InPhase(end, k, Waiting) && !CanReceive(end, k) && end.writer == None
  {
  }

  // ---------------------------------------------------------------------------
  // No sender is lost while ids last
  // ---------------------------------------------------------------------------

  /** Every caller that listens without mail has its sender in the map. */
  ghost predicate NoSenderLost(s: State) {
    && (forall k :: 0 <= k < |s.calls| && Listens(s.calls[k]) && s.calls[k].mail == None ==> IsPending(s, k))
    && forall k :: 0 <= k < |s.calls| ==> s.calls[k].phase != Returned(SenderDropped)
  }

  ghost predicate KeepsSender(s: State, k: nat)
    requires k < |s.calls|
  {
    && (Listens(s.calls[k]) && s.calls[k].mail == None ==> IsPending(s, k))
    && s.calls[k].phase != Returned(SenderDropped)
  }

  lemma NoSenderLostStep(s: State, a: Action)
    requires Sound(s) && NoSenderLost(s) && IdsDistinct(s) && Enabled(s, a) && IdsDistinct(Apply(s, a))
    ensures NoSenderLost(Apply(s, a))
  {
    var t := Apply(s, a);
    forall k | 0 <= k < |t.calls| ensures KeepsSender(t, k) {
      SenderStays(s, a, k);
    }
  }

  lemma SenderStays(s: State, a: Action, k: nat)
    requires Sound(s) && NoSenderLost(s) && IdsDistinct(s) && Enabled(s, a)
    requires k < |Apply(s, a).calls|
    ensures KeepsSender(Apply(s, a), k)
  {
    if k < |s.calls| {
      assert KeepsSender(s, k);
    }
    hide NoSenderLost, IdsDistinct;
    match a
    case Register(j) =>
      OtherIdsDiffer(s, j, k);
    case RemoveExpired(j) =>
      OtherIdsDiffer(s, j, k);
    case Dispatch(_, id, _) =>
      if id in s.pending {
        OtherIdsDiffer(s, s.pending[id], k);
      }
    case _ =>
  }

  lemma OtherIdsDiffer(s: State, j: nat, k: nat)
    requires IdsDistinct(s) && j < |s.calls| && k < |s.calls|
    ensures j != k ==> s.calls[j].id != s.calls[k].id
  {
  }

  /**
   In runs of at most 2^64 calls a sender is never dropped unused: a caller that waits has mail or
   is in the map, and `NotConnected` only ever means no writer or a teardown.
   */
  lemma {:induction false} NoSenderLostInRuns(trace: seq<Action>)
    requires IsRun(trace) && |After(trace).calls| <= ID_SPACE
    ensures NoSenderLost(After(trace))
  {
    IdsAreDistinctIff(trace);
    if trace == [] {
    } else {
      var front, a := trace[..|trace| - 1], trace[|trace| - 1];
      assert |After(front).calls| <= |After(trace).calls|;
      NoSenderLostInRuns(front);
      IdsAreDistinctIff(front);
      SoundInRuns(front);
      NoSenderLostStep(After(front), a);
    }
  }

  /** In such runs a caller that waits after a teardown has been sent its error or its reply. */
  lemma SettledCallersHaveMail(trace: seq<Action>, k: nat)
    requires IsRun(trace) && |After(trace).calls| <= ID_SPACE && Settled(After(trace))
    requires k < |After(trace).calls| && After(trace).calls[k].phase == Waiting
    ensures After(trace).calls[k].mail.Some?
  {
    NoSenderLostInRuns(trace);
    assert CanReceive(After(trace), k);
  }
}
