/**
 What an old connection can do to a new one (`y-browser/src/cdp_client.rs`). Connecting again does
 not stop the reader of an earlier connection, and that reader's teardown makes no difference
 between the connections.
 */
module CdpReconnect {
  import opened CdpProtocol
  import opened Wrappers

  // ---------------------------------------------------------------------------
  // Continuations of a run
  // ---------------------------------------------------------------------------

  ghost predicate Continues(s: State, more: seq<Action>)
    decreases |more|
  {
    more == [] || (Enabled(s, more[0]) && Continues(Apply(s, more[0]), more[1..]))
  }

  ghost function AfterMore(s: State, more: seq<Action>): State
    requires Continues(s, more)
    decreases |more|
  {
    if more == [] then s else AfterMore(Apply(s, more[0]), more[1..])
  }

  /** A run goes on exactly with the continuations of the state that it leads to. */
  lemma {:induction false} ContinuationsOfRuns(trace: seq<Action>, more: seq<Action>)
    requires IsRun(trace)
    ensures IsRun(trace + more) <==> Continues(After(trace), more)
    ensures IsRun(trace + more) ==> After(trace + more) == AfterMore(After(trace), more)
    decreases |more|
  {
    if more == [] {
      assert trace + more == trace;
    } else {
      var one, rest := trace + [more[0]], more[1..];
      assert trace + more == one + rest;
      assert one[..|one| - 1] == trace && (trace + more)[..|one|] == one;
      if IsRun(trace + more) {
        PrefixIsRun(trace + more, |one|);
        LastStep(one);
      }
      if Enabled(After(trace), more[0]) {
        OneMore(trace, more[0]);
        ContinuationsOfRuns(one, rest);
      }
    }
  }

  // ---------------------------------------------------------------------------
  // The newest connection
  // ---------------------------------------------------------------------------

  /** The state that a connect leads to: the newest task is the reader of the connection whose writer is in place. */
  ghost predicate IsConnected(s: State) {
    s.tasks != [] && var n := |s.tasks| - 1; s.writer == Some(n) && s.tasks[n] == Task(true, Reading)
  }

  /** `a` is no connect, and no taking or draining by the new reader, a `disconnect` or anyone later. */
  predicate LeavesToOldReaders(s: State, a: Action) {
    match a
    case Connect => false
    case TakeWriter(i) => i < |s.tasks| - 1 && s.tasks[i].isReader
    case Drain(i) => i < |s.tasks| - 1 && s.tasks[i].isReader
    case _ => true
  }

  /** A continuation in which only readers of earlier connections tear anything down. */
  ghost predicate OnlyOldTeardowns(s: State, more: seq<Action>) {
    Continues(s, more) && forall a :: a in more ==> LeavesToOldReaders(s, a)
  }

  /** The reader of an earlier connection has yet to take the writer. */
  predicate MayTake(s: State, i: nat) {
    i < |s.tasks| - 1 && IsReader(s, i) && s.tasks[i].stage in {Reading, Marked}
  }

  /** It has yet to drain the map. */
  predicate MayDrain(s: State, i: nat) {
    i < |s.tasks| - 1 && IsUnfinished(s, i)
  }

  lemma ConnectConnects(s: State)
    ensures IsConnected(Apply(s, Connect))
  {
  }

  // ---------------------------------------------------------------------------
  // The writer
  // ---------------------------------------------------------------------------

  /** Seen from `s`, the earlier readers have all taken the writer or come to their end. */
  ghost predicate NobodyTakes(s: State, t: State) {
    && |s.tasks| <= |t.tasks|
    && t.writer == s.writer
    && forall i :: 0 <= i < |s.tasks| - 1 && s.tasks[i].isReader ==>
      t.tasks[i].isReader && t.tasks[i].stage !in {Reading, Marked}
  }

  lemma NobodyTakesStep(s: State, t: State, a: Action)
    requires NobodyTakes(s, t) && Enabled(t, a) && LeavesToOldReaders(s, a)
    ensures NobodyTakes(s, Apply(t, a))
  {
  }

  lemma {:induction false} WriterStays(s: State, t: State, more: seq<Action>)
    requires NobodyTakes(s, t) && Continues(t, more) && forall a :: a in more ==> LeavesToOldReaders(s, a)
    ensures AfterMore(t, more).writer == s.writer
    decreases |more|
  {
    if more == [] {
    } else {
      NobodyTakesStep(s, t, more[0]);
      WriterStays(s, Apply(t, more[0]), more[1..]);
    }
  }

  /** How an earlier reader that may still do so loses the new connection its writer. */
  function Taking(s: State, i: nat): seq<Action>
    requires i < |s.tasks|
  {
    (if s.tasks[i].stage == Reading then [Lose(i)] else []) + [TakeWriter(i)]
  }

  lemma TakingTakes(s: State, i: nat)
    requires MayTake(s, i)
    ensures OnlyOldTeardowns(s, Taking(s, i)) && AfterMore(s, Taking(s, i)).writer == None
  {
    var t := if s.tasks[i].stage == Reading then Apply(s, Lose(i)) else s;
    assert Continues(Apply(t, TakeWriter(i)), []);
    assert [TakeWriter(i)][1..] == [];
    assert Continues(t, [TakeWriter(i)]) && AfterMore(t, [TakeWriter(i)]) == Apply(t, TakeWriter(i));
    assert Taking(s, i)[1..] == if s.tasks[i].stage == Reading then [TakeWriter(i)] else [];
  }

  /**
   As long as neither its own reader nor a `disconnect` tears it down, a new connection keeps its
   writer whatever else happens, exactly if every earlier reader has taken the writer before it
   or has come to its end.
   */
  lemma WriterSurvivesIff(s: State)
    requires IsConnected(s)
    ensures (forall more :: OnlyOldTeardowns(s, more) ==> AfterMore(s, more).writer == s.writer)
      <==> forall i: nat :: !MayTake(s, i)
  {
    hide Continues, AfterMore;
    if i: nat :| MayTake(s, i) {
      TakingTakes(s, i);
    } else {
      forall i | 0 <= i < |s.tasks| - 1 && s.tasks[i].isReader ensures s.tasks[i].stage !in {Reading, Marked} {
        assert !MayTake(s, i);
      }
      forall more | OnlyOldTeardowns(s, more) ensures AfterMore(s, more).writer == s.writer {
        WriterStays(s, s, more);
      }
    }
  }

  // ---------------------------------------------------------------------------
  // The callers
  // ---------------------------------------------------------------------------

  lemma EndedOrNot(stage: Stage)
    ensures stage in {Drained, Aborted} <==> stage !in {Reading, Marked, WriterTaken}
  {
    match stage
    case Reading => case Marked => case WriterTaken => case Drained => case Aborted =>
  }

  /** Call `k` was made after the connect and has been told that the connection is lost. */
  predicate IsCutOff(s: State, t: State, k: nat) {
    |s.calls| <= k && InPhase(t, k, Returned(ConnectionLost))
  }

  /** Seen from `s`, the earlier readers have all come to their end, and no later call has been sent a loss. */
  ghost predicate NobodyDrains(s: State, t: State) {
    && |s.tasks| <= |t.tasks| && |s.calls| <= |t.calls|
    && (forall i :: 0 <= i < |s.tasks| - 1 && s.tasks[i].isReader ==>
      t.tasks[i].isReader && t.tasks[i].stage in {Drained, Aborted})
    && forall k :: |s.calls| <= k < |t.calls| ==>
         t.calls[k].mail != Some(TornDown) && t.calls[k].phase != Returned(ConnectionLost)
  }

  lemma NobodyDrainsStep(s: State, t: State, a: Action)
    requires NobodyDrains(s, t) && Enabled(t, a) && LeavesToOldReaders(s, a)
    ensures NobodyDrains(s, Apply(t, a))
  {
  }

  lemma {:induction false} NobodyIsCutOff(s: State, t: State, more: seq<Action>)
    requires NobodyDrains(s, t) && Continues(t, more) && forall a :: a in more ==> LeavesToOldReaders(s, a)
    ensures NobodyDrains(s, AfterMore(t, more))
    decreases |more|
  {
    if more == [] {
    } else {
      NobodyDrainsStep(s, t, more[0]);
      NobodyIsCutOff(s, Apply(t, more[0]), more[1..]);
    }
  }

  /** What brings an earlier reader to the drain. */
  function Draining(s: State, i: nat): seq<Action>
    requires i < |s.tasks|
  {
    (if s.tasks[i].stage == WriterTaken then [] else Taking(s, i)) + [Drain(i)]
  }

  /** A caller writes to the new connection and waits; the drain of the earlier reader cuts it off. */
  function CuttingOff(s: State, i: nat): seq<Action>
    requires i < |s.tasks|
  {
    var k := |s.calls|;
    [Allocate, Register(k), Write(k, true)] + Draining(s, i) + [Receive(k)]
  }

  lemma {:induction false} ContinuesBoth(s: State, a: seq<Action>, b: seq<Action>)
    requires Continues(s, a) && Continues(AfterMore(s, a), b)
    ensures Continues(s, a + b) && AfterMore(s, a + b) == AfterMore(AfterMore(s, a), b)
    decreases |a|
  {
    if a == [] {
      assert a + b == b;
    } else {
      assert (a + b)[1..] == a[1..] + b;
      ContinuesBoth(Apply(s, a[0]), a[1..], b);
    }
  }

  lemma ContinuesOne(s: State, a: Action)
    requires Enabled(s, a)
    ensures Continues(s, [a]) && AfterMore(s, [a]) == Apply(s, a)
  {
    assert [a][1..] == [];
    assert Continues(Apply(s, a), []);
  }

  lemma WritesAndWaits(s: State)
    requires IsConnected(s)
    ensures var k := |s.calls|;
      var more := [Allocate, Register(k), Write(k, true)];
      && Continues(s, more)
      && var t := AfterMore(s, more);
        t.tasks == s.tasks && InPhase(t, k, Waiting) && t.calls[k].mail == None && IsPending(t, k)
  {
    var k := |s.calls|;
    var t := Apply(s, Allocate);
    var u := Apply(t, Register(k));
    ContinuesOne(s, Allocate);
    ContinuesOne(t, Register(k));
    ContinuesOne(u, Write(k, true));
    ContinuesBoth(s, [Allocate], [Register(k)]);
    ContinuesBoth(s, [Allocate] + [Register(k)], [Write(k, true)]);
    assert [Allocate] + [Register(k)] + [Write(k, true)] == [Allocate, Register(k), Write(k, true)];
  }

  lemma DrainingDrains(s: State, i: nat, k: nat)
    requires IsUnfinished(s, i) && InPhase(s, k, Waiting) && s.calls[k].mail == None && IsPending(s, k)
    ensures Continues(s, Draining(s, i))
    ensures var t := AfterMore(s, Draining(s, i)); InPhase(t, k, Waiting) && t.calls[k].mail == Some(TornDown)
  {
    hide Continues, AfterMore;
    var t := if s.tasks[i].stage == Reading then Apply(s, Lose(i)) else s;
    if s.tasks[i].stage == WriterTaken {
      ContinuesOne(s, Drain(i));
      assert Draining(s, i) == [Drain(i)];
    } else {
      var u := Apply(t, TakeWriter(i));
      ContinuesOne(t, TakeWriter(i));
      if s.tasks[i].stage == Reading {
        ContinuesOne(s, Lose(i));
        ContinuesBoth(s, [Lose(i)], [TakeWriter(i)]);
      } else {
        assert Taking(s, i) == [TakeWriter(i)];
      }
      ContinuesOne(u, Drain(i));
      ContinuesBoth(s, Taking(s, i), [Drain(i)]);
    }
  }

  lemma CuttingOffCuts(s: State, i: nat)
    requires IsConnected(s) && MayDrain(s, i)
    ensures OnlyOldTeardowns(s, CuttingOff(s, i)) && IsCutOff(s, AfterMore(s, CuttingOff(s, i)), |s.calls|)
  {
    hide Continues, AfterMore;
    var k := |s.calls|;
    var first := [Allocate, Register(k), Write(k, true)];
    WritesAndWaits(s);
    var t := AfterMore(s, first);
    assert Draining(t, i) == Draining(s, i);
    DrainingDrains(t, i, k);
    ContinuesBoth(s, first, Draining(s, i));
    var u := AfterMore(t, Draining(t, i));
    ContinuesOne(u, Receive(k));
    ContinuesBoth(s, first + Draining(s, i), [Receive(k)]);
  }

  /**
   As long as neither its own reader nor a `disconnect` tears it down, no caller of a new
   connection is told that the connection is lost, exactly if every earlier reader has come to
   its end before it. A reader that has taken the writer and not yet drained is enough.
   */
  lemma CallersSurviveIff(s: State)
    requires IsConnected(s)
    ensures (forall more, k :: OnlyOldTeardowns(s, more) ==> !IsCutOff(s, AfterMore(s, more), k))
      <==> forall i: nat :: !MayDrain(s, i)
  {
    hide Continues, AfterMore;
    if i: nat :| MayDrain(s, i) {
      CuttingOffCuts(s, i);
    } else {
      forall i | 0 <= i < |s.tasks| - 1 && s.tasks[i].isReader ensures s.tasks[i].stage in {Drained, Aborted} {
        assert !MayDrain(s, i);
        EndedOrNot(s.tasks[i].stage);
      }
      forall more, k | OnlyOldTeardowns(s, more) ensures !IsCutOff(s, AfterMore(s, more), k) {
        NobodyIsCutOff(s, s, more);
      }
    }
  }

  /**
   That does happen: the first reader has taken its writer when the second connection is made, a
   caller writes to the second, and the first reader's drain cuts it off though the writer stays.
   */
  lemma OldReaderCutsOffNewCaller()
    ensures var trace := [Connect, Lose(0), TakeWriter(0), Connect, Allocate, Register(0), Write(0, true), Drain(0),
      Receive(0)];
      && IsRun(trace)
      && After(trace).writer == Some(1)
      && InPhase(After(trace), 0, Returned(ConnectionLost))
  {
    var start := [Connect] + [Lose(0)] + [TakeWriter(0)] + [Connect];
    ReconnectedInTheMiddle(start);
    var s := After(start);
    hide IsRun, After, Continues, AfterMore;
    CuttingOffCuts(s, 0);
    ContinuationsOfRuns(start, CuttingOff(s, 0));
    WriterStays(s, s, CuttingOff(s, 0));
    assert start + CuttingOff(s, 0)
      == [Connect, Lose(0), TakeWriter(0), Connect, Allocate, Register(0), Write(0, true), Drain(0), Receive(0)];
  }

  lemma ReconnectedInTheMiddle(start: seq<Action>)
    requires start == [Connect] + [Lose(0)] + [TakeWriter(0)] + [Connect]
    ensures IsRun(start) && After(start) == State(1, Some(1), map[], [], [Task(true, WriterTaken), Task(true, Reading)])
  {
    assert IsRun([]) && After([]) == INIT && [] + [Connect] == [Connect];
    hide IsRun, After, Enabled, Apply;
    StepsOfReconnecting();
    OneMore([], Connect);
    OneMore([Connect], Lose(0));
    OneMore([Connect] + [Lose(0)], TakeWriter(0));
    OneMore([Connect] + [Lose(0)] + [TakeWriter(0)], Connect);
  }

  lemma StepsOfReconnecting()
    ensures Enabled(INIT, Connect)
    ensures var s := Apply(INIT, Connect);
      && Enabled(s, Lose(0)) && Enabled(Apply(s, Lose(0)), TakeWriter(0))
      && Enabled(Apply(Apply(s, Lose(0)), TakeWriter(0)), Connect)
      && Apply(Apply(Apply(s, Lose(0)), TakeWriter(0)), Connect)
        == State(1, Some(1), map[], [], [Task(true, WriterTaken), Task(true, Reading)])
  {
  }
}
