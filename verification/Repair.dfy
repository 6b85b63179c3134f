/** Repairing a session history (`y-context/src/repair.rs`). */
module Repair {
  import opened Text
  import opened Wrappers

  datatype HistoryMessage = HistoryMessage(id: string, role: string, content: string, toolCallId: Option<string>)

  datatype RepairReport = RepairReport(emptyRemoved: nat, orphansRemoved: nat, duplicatesRemoved: nat, merged: nat)
  {
    function TotalFixes(): nat {
      emptyRemoved + orphansRemoved + duplicatesRemoved + merged
    }
  }

  const NO_FIXES := RepairReport(0, 0, 0, 0)

  // ---------------------------------------------------------------------------
  // What a repaired history is: keep the messages that count, then merge the runs
  // ---------------------------------------------------------------------------

  function CallIds(messages: seq<HistoryMessage>): set<string> {
    set m | m in messages && m.role == "assistant" && m.toolCallId.Some? :: m.toolCallId.value
  }

  predicate IsEmpty(m: HistoryMessage) {
    m.content == "" && m.toolCallId == None
  }

  predicate IsOrphan(m: HistoryMessage, calls: set<string>) {
    m.role == "tool" && m.toolCallId.Some? && m.toolCallId.value !in calls
  }

  /** A system message that the repair sees after another one. */
  predicate IsDuplicateSystem(messages: seq<HistoryMessage>, i: nat)
    requires i < |messages|
  {
    messages[i].role == "system" && SeesSystem(messages[..i])
  }

  predicate SeesSystem(messages: seq<HistoryMessage>) {
    exists m :: m in messages && m.role == "system" && !IsEmpty(m)
  }

  predicate Keeps(messages: seq<HistoryMessage>, calls: set<string>, i: nat)
    requires i < |messages|
  {
    !IsEmpty(messages[i]) && !IsDuplicateSystem(messages, i) && !IsOrphan(messages[i], calls)
  }

  /** What the pass does with a message, in the order of its tests. */
  datatype Fate = Empty | Duplicate | Orphaned | Surviving

  function FateOf(m: HistoryMessage, calls: set<string>, seenSystem: bool): Fate {
    if IsEmpty(m) then Empty
    else if m.role == "system" && seenSystem then Duplicate
    else if IsOrphan(m, calls) then Orphaned
    else Surviving
  }

  /** How many messages meet a fate. */
  function Count(messages: seq<HistoryMessage>, calls: set<string>, fate: Fate): nat {
    if messages == [] then 0
    else
      var last := |messages| - 1;
      Count(messages[..last], calls, fate)
        + if FateOf(messages[last], calls, SeesSystem(messages[..last])) == fate then 1 else 0
  }

  function Kept(messages: seq<HistoryMessage>, calls: set<string>): seq<HistoryMessage> {
    if messages == [] then []
    else
      var last := |messages| - 1;
      Kept(messages[..last], calls) + (if Keeps(messages, calls, last) then [messages[last]] else [])
  }

  /** `next` continues the run that `m` belongs to. */
  predicate Continues(m: HistoryMessage, next: HistoryMessage) {
    m.role == next.role && next.role != "system" && next.toolCallId == None
  }

  function RunLength(s: seq<HistoryMessage>): (n: nat)
    requires s != []
    ensures 1 <= n <= |s|
  {
    if |s| > 1 && Continues(s[0], s[1]) then 1 + RunLength(s[1..]) else 1
  }

  function Contents(s: seq<HistoryMessage>): (r: seq<string>)
    ensures |r| == |s|
  {
    seq(|s|, i requires 0 <= i < |s| => s[i].content)
  }

  /** The entry that a whole run becomes. */
  function RunEntry(run: seq<HistoryMessage>): HistoryMessage
    requires run != []
  {
    run[0].(content := Join(Contents(run), "\n"))
  }

  /** Each maximal run becomes its first message, holding the run's lines. */
  function MergeRuns(s: seq<HistoryMessage>): seq<HistoryMessage> {
    if s == [] then []
    else
      var n := RunLength(s);
      [RunEntry(s[..n])] + MergeRuns(s[n..])
  }

  function Repaired(messages: seq<HistoryMessage>): seq<HistoryMessage> {
    MergeRuns(Kept(messages, CallIds(messages)))
  }

  // ---------------------------------------------------------------------------
  // The single pass
  // ---------------------------------------------------------------------------

  /** A merged history with `m` appended: it extends the last entry, or becomes a new one. */
  function Extended(r: seq<HistoryMessage>, continues: bool, m: HistoryMessage): seq<HistoryMessage> {
    if r != [] && continues
    then r[..|r| - 1] + [r[|r| - 1].(content := r[|r| - 1].content + "\n" + m.content)]
    else r + [m]
  }

  lemma ExtendedShape(r: seq<HistoryMessage>, continues: bool, m: HistoryMessage)
    ensures var x := Extended(r, continues, m);
      var merges := r != [] && continues;
      && |x| == (if merges then |r| else |r| + 1)
      && (forall k :: 0 <= k < |r| - 1 ==> x[k] == r[k])
      && (merges ==> x[|r| - 1] == r[|r| - 1].(content := r[|r| - 1].content + "\n" + m.content))
      && (!merges ==> x[|r|] == m && x[..|r|] == r)
  {
  }

  /** The last entry of a merged history carries the role of the last message. */
  lemma {:induction false} LastRole(s: seq<HistoryMessage>)
    requires s != []
    ensures MergeRuns(s) != [] && MergeRuns(s)[|MergeRuns(s)| - 1].role == s[|s| - 1].role
    decreases |s|
  {
    var n := RunLength(s);
    if n < |s| {
      LastRole(s[n..]);
    } else {
      SameRole(s);
      SingleRun(s);
    }
  }

  lemma {:induction false} MergeRunsAppend(s: seq<HistoryMessage>, m: HistoryMessage)
    ensures MergeRuns(s + [m]) == Extended(MergeRuns(s), s != [] && Continues(s[|s| - 1], m), m)
    decreases |s|
  {
    if s == [] {
      SingleRun([m]);
    } else if RunLength(s) < |s| {
      var n := RunLength(s);
      RunLengthAppend(s, m);
      assert (s + [m])[..n] == s[..n] && (s + [m])[n..] == s[n..] + [m];
      MergeRunsAppend(s[n..], m);
      LastRole(s[n..]);
      ConsExtended(RunEntry(s[..n]), MergeRuns(s[n..]), Continues(s[|s| - 1], m), m);
    } else {
      AppendToOnlyRun(s, m);
    }
  }

  lemma AppendToOnlyRun(s: seq<HistoryMessage>, m: HistoryMessage)
    requires s != [] && RunLength(s) == |s|
    ensures MergeRuns(s + [m]) == Extended(MergeRuns(s), Continues(s[|s| - 1], m), m)
  {
    var t := s + [m];
    hide RunLength, MergeRuns;
    RunLengthAppend(s, m);
    SingleRun(s);
    if Continues(s[|s| - 1], m) {
      SingleRun(t);
      EntryGrows(s, m);
    } else {
      TwoRuns(s, m);
    }
  }

  lemma EntryGrows(s: seq<HistoryMessage>, m: HistoryMessage)
    requires s != []
    ensures RunEntry(s + [m]) == RunEntry(s).(content := RunEntry(s).content + "\n" + m.content)
  {
    assert Contents(s + [m]) == Contents(s) + [m.content];
    JoinAppend(Contents(s), m.content, "\n");
  }

  lemma TwoRuns(s: seq<HistoryMessage>, m: HistoryMessage)
    requires s != [] && RunLength(s + [m]) == |s|
    ensures MergeRuns(s + [m]) == [RunEntry(s)] + [m]
  {
    var t := s + [m];
    assert t[..|s|] == s && t[|s|..] == [m];
    SingleRun([m]);
  }

  lemma ConsExtended(e: HistoryMessage, r: seq<HistoryMessage>, continues: bool, m: HistoryMessage)
    requires r != []
    ensures Extended([e] + r, continues, m) == [e] + Extended(r, continues, m)
  {
    assert ([e] + r)[..|r|] == [e] + r[..|r| - 1];
  }

  lemma SingleRun(s: seq<HistoryMessage>)
    requires s != [] && RunLength(s) == |s|
    ensures MergeRuns(s) == [RunEntry(s)]
    ensures |s| == 1 ==> RunEntry(s) == s[0]
  {
    assert s[..|s|] == s && s[|s|..] == [];
    if |s| == 1 {
      assert Contents(s) == [s[0].content];
    }
  }

  lemma {:induction false} RunLengthAppend(s: seq<HistoryMessage>, m: HistoryMessage)
    requires s != []
    ensures RunLength(s + [m]) ==
      if RunLength(s) == |s| && Continues(s[|s| - 1], m) then |s| + 1 else RunLength(s)
  {
    if |s| > 1 {
      assert (s + [m])[1..] == s[1..] + [m];
      RunLengthAppend(s[1..], m);
    }
  }

  lemma {:induction false} SameRole(s: seq<HistoryMessage>)
    requires s != [] && RunLength(s) == |s|
    ensures s[|s| - 1].role == s[0].role
  {
    if |s| > 1 {
      SameRole(s[1..]);
    }
  }

  lemma KeepsInPrefix(messages: seq<HistoryMessage>, calls: set<string>, n: nat, i: nat)
    requires i < n <= |messages|
    ensures Keeps(messages[..n], calls, i) == Keeps(messages, calls, i)
  {
    assert messages[..n][..i] == messages[..i];
  }

  lemma KeptAppend(messages: seq<HistoryMessage>, calls: set<string>, i: nat)
    requires i < |messages|
    ensures Keeps(messages, calls, i) ==> Kept(messages[..i + 1], calls) == Kept(messages[..i], calls) + [messages[i]]
    ensures !Keeps(messages, calls, i) ==> Kept(messages[..i + 1], calls) == Kept(messages[..i], calls)
  {
    assert messages[..i + 1][..i] == messages[..i];
    KeepsInPrefix(messages, calls, i + 1, i);
  }

  lemma SeesSystemAppend(messages: seq<HistoryMessage>, i: nat)
    requires i < |messages|
    ensures SeesSystem(messages[..i + 1]) ==
      (SeesSystem(messages[..i]) || (messages[i].role == "system" && !IsEmpty(messages[i])))
  {
    assert messages[..i + 1] == messages[..i] + [messages[i]];
  }

  /** The end of the loop body: extend the last entry in place, or push a new one. */
  method PushOrMerge(result: seq<HistoryMessage>, msg: HistoryMessage, report: RepairReport,
      ghost kept: seq<HistoryMessage>)
      returns (r: seq<HistoryMessage>, counted: RepairReport)
    requires result == MergeRuns(kept)
    ensures r == MergeRuns(kept + [msg])
    ensures |r| <= |result| + 1 && counted == report.(merged := report.merged + (|result| + 1 - |r|))
  {
    MergeRunsAppend(kept, msg);
    if kept == [] {
      NothingYet([], {});
    } else {
      LastRole(kept);
    }
    hide MergeRuns;
    r, counted := result, report;
    if result != [] {
      var last := result[|result| - 1];
      if last.role == msg.role && msg.role != "system" && msg.toolCallId == None {
        r := r[..|r| - 1] + [last.(content := last.content + "\n" + msg.content)];
        counted := report.(merged := report.merged + 1);
        return;
      }
    }
    r := r + [msg];
  }

  function Tally(report: RepairReport, fate: Fate): RepairReport {
    match fate
    case Empty => report.(emptyRemoved := report.emptyRemoved + 1)
    case Duplicate => report.(duplicatesRemoved := report.duplicatesRemoved + 1)
    case Orphaned => report.(orphansRemoved := report.orphansRemoved + 1)
    case Surviving => report
  }

  /** Each fix counted under its own heading, after reading `messages` and keeping `kept`. */
  predicate Accounts(report: RepairReport, messages: seq<HistoryMessage>, calls: set<string>) {
    && report.emptyRemoved == Count(messages, calls, Empty)
    && report.duplicatesRemoved == Count(messages, calls, Duplicate)
    && report.orphansRemoved == Count(messages, calls, Orphaned)
    && report.merged == |Kept(messages, calls)| - |MergeRuns(Kept(messages, calls))|
  }

  lemma AccountsFor(report: RepairReport, messages: seq<HistoryMessage>, calls: set<string>, i: nat)
    requires i < |messages| && Accounts(report, messages[..i], calls)
    ensures var fate := FateOf(messages[i], calls, SeesSystem(messages[..i]));
      var kept, counted := Kept(messages[..i], calls), Tally(report, fate);
      var shrunk := |MergeRuns(kept)| + 1 - |MergeRuns(kept + [messages[i]])|;
      && (fate != Surviving ==> Accounts(counted, messages[..i + 1], calls))
      && (fate == Surviving && report.merged + shrunk >= 0
          ==> Accounts(counted.(merged := report.merged + shrunk), messages[..i + 1], calls))
  {
    hide MergeRuns, SeesSystem, IsOrphan, IsEmpty;
    assert messages[..i + 1][..i] == messages[..i];
    KeptAppend(messages, calls, i);
  }

  /** The skips at the head of the loop body, in order, and what they do to the report and the flag. */
  method Skip(msg: HistoryMessage, calls: set<string>, seenSystem: bool, report: RepairReport)
      returns (skip: bool, seen: bool, counted: RepairReport)
    ensures skip == (FateOf(msg, calls, seenSystem) != Surviving)
    ensures seen == (seenSystem || (msg.role == "system" && !IsEmpty(msg)))
    ensures counted == Tally(report, FateOf(msg, calls, seenSystem))
  {
    skip, seen, counted := true, seenSystem, report;
    if msg.content == "" && msg.toolCallId == None {
      counted := report.(emptyRemoved := report.emptyRemoved + 1);
      return;
    }
    if msg.role == "system" {
      if seenSystem {
        counted := report.(duplicatesRemoved := report.duplicatesRemoved + 1);
        return;
      }
      seen := true;
    }
    if msg.role == "tool" && msg.toolCallId.Some? && msg.toolCallId.value !in calls {
      counted := report.(orphansRemoved := report.orphansRemoved + 1);
      return;
    }
    skip := false;
  }

  /** The one-pass repair computes the filtered and merged history, and accounts for every message. */
  method RepairHistory(messages: seq<HistoryMessage>) returns (result: seq<HistoryMessage>, report: RepairReport)
    ensures result == Repaired(messages) && |messages| == |result| + report.TotalFixes()
    ensures Accounts(report, messages, CallIds(messages))
  {
    hide Kept, MergeRuns, SeesSystem, IsOrphan, IsEmpty, Accounts;
    result, report := [], NO_FIXES;
    var calls := CallIds(messages);
    var seenSystem := false;
    ghost var kept := [];
    NothingYet(messages, calls);
    for i := 0 to |messages|
      invariant kept == Kept(messages[..i], calls)
      invariant result == MergeRuns(kept)
      invariant seenSystem == SeesSystem(messages[..i])
      invariant Accounts(report, messages[..i], calls)
    {
      KeptAppend(messages, calls, i);
      AccountsFor(report, messages, calls, i);
      SeesSystemAppend(messages, i);
      var skip;
      skip, seenSystem, report := Skip(messages[i], calls, seenSystem, report);
      if !skip {
        result, report := PushOrMerge(result, messages[i], report, kept);
        kept := kept + [messages[i]];
      }
    }
    assert messages[..|messages|] == messages;
    NothingGoesUncounted(messages, report);
  }

  /** Every message is kept, merged away or counted as removed. */
  lemma NothingGoesUncounted(messages: seq<HistoryMessage>, report: RepairReport)
    requires Accounts(report, messages, CallIds(messages))
    ensures |messages| == |Repaired(messages)| + report.TotalFixes()
  {
    FatesAddUp(messages, CallIds(messages));
  }

  lemma {:induction false} FatesAddUp(messages: seq<HistoryMessage>, calls: set<string>)
    ensures |messages| == |Kept(messages, calls)|
      + Count(messages, calls, Empty) + Count(messages, calls, Duplicate) + Count(messages, calls, Orphaned)
  {
    if messages == [] {
    } else {
      FatesAddUp(messages[..|messages| - 1], calls);
    }
  }

  lemma NothingYet(messages: seq<HistoryMessage>, calls: set<string>)
    ensures Kept(messages[..0], calls) == [] && MergeRuns([]) == [] && !SeesSystem(messages[..0])
    ensures Accounts(NO_FIXES, messages[..0], calls)
  {
  }

  // ---------------------------------------------------------------------------
  // Idempotence
  // ---------------------------------------------------------------------------

  /** Nothing left for the repair to do. */
  ghost predicate IsSound(s: seq<HistoryMessage>) {
    && (forall i :: 0 <= i < |s| ==> Keeps(s, CallIds(s), i))
    && NoRuns(s)
  }

  ghost predicate NoRuns(s: seq<HistoryMessage>) {
    forall i, j :: 0 <= i < j < |s| && j == i + 1 ==> !Continues(s[i], s[j])
  }

  /** A history is its own repair exactly when it is sound. */
  lemma RepairIsIdentityIffSound(s: seq<HistoryMessage>)
    ensures Repaired(s) == s <==> IsSound(s)
  {
    var calls := CallIds(s);
    KeptLength(s, calls);
    MergeRunsLength(Kept(s, calls));
  }

  ghost predicate KeepsAll(s: seq<HistoryMessage>, calls: set<string>) {
    forall i :: 0 <= i < |s| ==> Keeps(s, calls, i)
  }

  lemma KeepsAllAppend(s: seq<HistoryMessage>, calls: set<string>)
    requires s != []
    ensures KeepsAll(s, calls) <==> KeepsAll(s[..|s| - 1], calls) && Keeps(s, calls, |s| - 1)
  {
    hide Keeps;
    var last := |s| - 1;
    forall i | 0 <= i < last ensures Keeps(s[..last], calls, i) == Keeps(s, calls, i) {
      KeepsInPrefix(s, calls, last, i);
    }
  }

  lemma {:induction false} KeptLength(s: seq<HistoryMessage>, calls: set<string>)
    ensures |Kept(s, calls)| <= |s|
    ensures |Kept(s, calls)| == |s| <==> KeepsAll(s, calls)
    ensures |Kept(s, calls)| == |s| ==> Kept(s, calls) == s
  {
    hide Keeps;
    if s == [] {
    } else {
      hide KeepsAll;
      KeepsAllAppend(s, calls);
      KeptLength(s[..|s| - 1], calls);
    }
  }

  lemma {:induction false} MergeRunsLength(s: seq<HistoryMessage>)
    ensures |MergeRuns(s)| <= |s|
    ensures |MergeRuns(s)| == |s| <==> NoRuns(s)
    ensures |MergeRuns(s)| == |s| ==> MergeRuns(s) == s
  {
    if s == [] {
    } else {
      hide MergeRuns, Extended;
      var front, m := s[..|s| - 1], s[|s| - 1];
      MergeRunsLength(front);
      assert s == front + [m];
      MergeRunsAppend(front, m);
      var merges := front != [] && Continues(front[|front| - 1], m);
      ExtendedShape(MergeRuns(front), merges, m);
      NoRunsAppend(front, m);
    }
  }

  lemma NoRunsAppend(s: seq<HistoryMessage>, m: HistoryMessage)
    ensures NoRuns(s + [m]) <==> NoRuns(s) && (s == [] || !Continues(s[|s| - 1], m))
  {
    var t := s + [m];
    if NoRuns(t) {
      assert forall i :: 0 <= i < |s| ==> s[i] == t[i];
      assert s != [] ==> t[|s| - 1] == s[|s| - 1] && t[|s|] == m;
    }
  }

  /** What merging keeps of a message: everything but the content, which only gets longer. */
  predicate HeadOf(m: HistoryMessage, r: HistoryMessage) {
    r == m.(content := r.content) && (m.content != "" ==> r.content != "")
  }

  /** `heads[k]` is the position in `s` of the message that entry `k` of the merged history grew from. */
  ghost predicate AreHeads(s: seq<HistoryMessage>, r: seq<HistoryMessage>, heads: seq<nat>) {
    && |heads| == |r|
    && (forall k :: 0 <= k < |heads| ==> heads[k] < |s| && HeadOf(s[heads[k]], r[k]))
    && (forall k, l :: 0 <= k < l < |heads| ==> heads[k] < heads[l])
    && (forall i :: 0 <= i < |s| && s[i].toolCallId.Some? ==> i in heads)
  }

  lemma {:induction false} RunHeads(s: seq<HistoryMessage>) returns (heads: seq<nat>)
    ensures AreHeads(s, MergeRuns(s), heads)
  {
    heads := [];
    if s == [] {
    } else {
      hide MergeRuns, Extended;
      var front, m := s[..|s| - 1], s[|s| - 1];
      heads := RunHeads(front);
      assert s == front + [m];
      MergeRunsAppend(front, m);
      var r := MergeRuns(front);
      var merges := front != [] && Continues(front[|front| - 1], m);
      ExtendedShape(r, merges, m);
      if !merges {
        HeadsPush(front, r, heads, m);
        heads := heads + [|front|];
      } else {
        HeadsKeep(front, r, heads, m);
      }
    }
  }

  lemma HeadsPush(s: seq<HistoryMessage>, r: seq<HistoryMessage>, heads: seq<nat>, m: HistoryMessage)
    requires AreHeads(s, r, heads)
    ensures AreHeads(s + [m], r + [m], heads + [|s|])
  {
    var t, longer := s + [m], heads + [|s|];
    forall i | 0 <= i < |t| && t[i].toolCallId.Some? ensures i in longer {
      assert i < |s| ==> s[i] == t[i];
      assert longer[|heads|] == |s|;
    }
  }

  lemma HeadsKeep(s: seq<HistoryMessage>, r: seq<HistoryMessage>, heads: seq<nat>, m: HistoryMessage)
    requires AreHeads(s, r, heads) && r != [] && m.toolCallId == None
    ensures AreHeads(s + [m], Extended(r, true, m), heads)
  {
    var last := |r| - 1;
    assert HeadOf(s[heads[last]], r[last]);
    assert r[last].content + "\n" + m.content != "";
  }

  /** Merged messages never continue one another. */
  lemma {:induction false} MergedHasNoRuns(s: seq<HistoryMessage>)
    ensures NoRuns(MergeRuns(s))
  {
    if s == [] {
    } else {
      hide MergeRuns;
      var front, m := s[..|s| - 1], s[|s| - 1];
      MergedHasNoRuns(front);
      assert s == front + [m];
      MergeRunsAppend(front, m);
      if front == [] {
        NothingYet([], {});
      } else {
        LastRole(front);
        ExtendedHasNoRuns(MergeRuns(front), Continues(front[|front| - 1], m), m);
      }
    }
  }

  lemma ExtendedHasNoRuns(r: seq<HistoryMessage>, continues: bool, m: HistoryMessage)
    requires NoRuns(r) && r != [] && (Continues(r[|r| - 1], m) ==> continues)
    ensures NoRuns(Extended(r, continues, m))
  {
    hide NoRuns;
    var init, last := r[..|r| - 1], r[|r| - 1];
    assert r == init + [last];
    if continues {
      NoRunsAppend(init, last);
      NoRunsAppend(init, last.(content := last.content + "\n" + m.content));
    } else {
      NoRunsAppend(r, m);
    }
  }

  /** The positions of the messages that the filter lets through. */
  lemma {:induction false} KeptPositions(s: seq<HistoryMessage>, calls: set<string>) returns (from: seq<nat>)
    ensures ArePositions(s, calls, Kept(s, calls), from)
  {
    from := [];
    if s == [] {
    } else {
      hide Keeps;
      var last := |s| - 1;
      from := KeptPositions(s[..last], calls);
      PositionsInPrefix(s, calls, Kept(s[..last], calls), from);
      if Keeps(s, calls, last) {
        from := from + [last];
      }
    }
  }

  /** `from` lists the positions of the kept messages among the first `n`, in order. */
  ghost predicate ArePositionsTo(s: seq<HistoryMessage>, calls: set<string>, kept: seq<HistoryMessage>, from: seq<nat>,
      n: nat)
    requires n <= |s|
  {
    && |from| == |kept|
    && (forall k :: 0 <= k < |from| ==> from[k] < n && Keeps(s, calls, from[k]) && kept[k] == s[from[k]])
    && (forall k, l :: 0 <= k < l < |from| ==> from[k] < from[l])
    && forall i :: 0 <= i < n && Keeps(s, calls, i) ==> i in from
  }

  ghost predicate ArePositions(s: seq<HistoryMessage>, calls: set<string>, kept: seq<HistoryMessage>, from: seq<nat>) {
    ArePositionsTo(s, calls, kept, from, |s|)
  }

  lemma PositionsInPrefix(s: seq<HistoryMessage>, calls: set<string>, kept: seq<HistoryMessage>, from: seq<nat>)
    requires s != [] && ArePositions(s[..|s| - 1], calls, kept, from)
    ensures ArePositionsTo(s, calls, kept, from, |s| - 1)
    ensures Keeps(s, calls, |s| - 1) ==> ArePositions(s, calls, kept + [s[|s| - 1]], from + [|s| - 1])
    ensures !Keeps(s, calls, |s| - 1) ==> ArePositions(s, calls, kept, from)
  {
    hide Keeps;
    var last := |s| - 1;
    forall i | 0 <= i < last ensures Keeps(s[..last], calls, i) == Keeps(s, calls, i) {
      KeepsInPrefix(s, calls, last, i);
    }
    forall k | 0 <= k < |from| ensures from[k] < last && Keeps(s, calls, from[k]) && kept[k] == s[from[k]] {
      assert from[k] < last;
    }
    var longer := from + [last];
    assert longer[|from|] == last;
    assert forall i :: i in from ==> i in longer;
  }

  /** No assistant call is ever dropped or merged away. */
  lemma CallsSurvive(messages: seq<HistoryMessage>)
    ensures CallIds(messages) <= CallIds(Repaired(messages))
  {
    hide *;
    var r := Repaired(messages);
    forall c | c in CallIds(messages) ensures c in CallIds(r) {
      var i := CallAt(messages, c);
      CallIsKept(messages, CallIds(messages), i);
      var k := KeptAt(messages, CallIds(messages), i);
      var h := HeadAt(Kept(messages, CallIds(messages)), k);
      RepairedUnfolds(messages);
      CallFound(r, h, c);
    }
  }

  lemma RepairedUnfolds(messages: seq<HistoryMessage>)
    ensures Repaired(messages) == MergeRuns(Kept(messages, CallIds(messages)))
  {
  }

  lemma CallAt(s: seq<HistoryMessage>, c: string) returns (i: nat)
    requires c in CallIds(s)
    ensures i < |s| && s[i].role == "assistant" && s[i].toolCallId == Some(c)
  {
    var m :| m in s && m.role == "assistant" && m.toolCallId == Some(c);
    i :| 0 <= i < |s| && s[i] == m;
  }

  lemma CallFound(s: seq<HistoryMessage>, i: nat, c: string)
    requires i < |s| && s[i].role == "assistant" && s[i].toolCallId == Some(c)
    ensures c in CallIds(s)
  {
    assert s[i] in s;
  }

  lemma CallIsKept(s: seq<HistoryMessage>, calls: set<string>, i: nat)
    requires i < |s| && s[i].role == "assistant" && s[i].toolCallId.Some?
    ensures Keeps(s, calls, i)
  {
  }

  /** Where a kept message ends up among the kept ones. */
  lemma KeptAt(s: seq<HistoryMessage>, calls: set<string>, i: nat) returns (k: nat)
    requires i < |s| && Keeps(s, calls, i)
    ensures k < |Kept(s, calls)| && Kept(s, calls)[k] == s[i]
  {
    hide Keeps, Kept;
    var from := KeptPositions(s, calls);
    k :| 0 <= k < |from| && from[k] == i;
  }

  /** Where a message with a call id ends up among the merged ones. */
  lemma HeadAt(s: seq<HistoryMessage>, i: nat) returns (h: nat)
    requires i < |s| && s[i].toolCallId.Some?
    ensures h < |MergeRuns(s)| && MergeRuns(s)[h].role == s[i].role && MergeRuns(s)[h].toolCallId == s[i].toolCallId
  {
    hide MergeRuns;
    var heads := RunHeads(s);
    h :| 0 <= h < |heads| && heads[h] == i;
  }

  /** Two system messages are never both kept. */
  lemma OneSystemIsKept(messages: seq<HistoryMessage>, calls: set<string>, i: nat, j: nat)
    requires i < j < |messages| && Keeps(messages, calls, i) && Keeps(messages, calls, j)
    ensures messages[i].role != "system" || messages[j].role != "system"
  {
    assert messages[..j][i] == messages[i];
  }

  /** A repaired history is sound. */
  lemma RepairedIsSound(messages: seq<HistoryMessage>)
    ensures IsSound(Repaired(messages))
  {
    hide Kept, MergeRuns, CallIds, Keeps;
    var calls := CallIds(messages);
    var kept := Kept(messages, calls);
    var from := KeptPositions(messages, calls);
    var heads := RunHeads(kept);
    var r := Repaired(messages);
    CallsSurvive(messages);
    MergedHasNoRuns(kept);
    forall h | 0 <= h < |r| ensures Keeps(r, CallIds(r), h) {
      var i := from[heads[h]];
      forall e | e in r[..h] ensures e.role != "system" || r[h].role != "system" {
        var j :| 0 <= j < h && r[j] == e;
        assert HeadOf(messages[from[heads[j]]], r[j]);
        OneSystemIsKept(messages, calls, from[heads[j]], i);
      }
      HeadIsKept(messages, calls, i, r, CallIds(r), h);
    }
  }

  lemma HeadIsKept(s: seq<HistoryMessage>, calls: set<string>, i: nat, r: seq<HistoryMessage>, later: set<string>,
      h: nat)
    requires i < |s| && Keeps(s, calls, i) && calls <= later
    requires h < |r| && HeadOf(s[i], r[h])
    requires forall e :: e in r[..h] ==> e.role != "system" || r[h].role != "system"
    ensures Keeps(r, later, h)
  {
  }

  /** Repairing twice is repairing once. */
  lemma RepairIsIdempotent(messages: seq<HistoryMessage>)
    ensures Repaired(Repaired(messages)) == Repaired(messages)
  {
    RepairedIsSound(messages);
    RepairIsIdentityIffSound(Repaired(messages));
  }

  /** The second repair also reports no fixes. */
  method RepairTwice(messages: seq<HistoryMessage>)
      returns (once: seq<HistoryMessage>, twice: seq<HistoryMessage>, second: RepairReport)
    ensures once == Repaired(messages) && twice == once && second == NO_FIXES
  {
    var first;
    once, first := RepairHistory(messages);
    RepairIsIdempotent(messages);
    twice, second := RepairHistory(once);
    NothingGoesUncounted(once, second);
  }

  /** Merging loses no text: the lines of the history are those of the messages kept. */
  lemma {:induction false} MergingKeepsTheText(s: seq<HistoryMessage>)
    ensures Join(Contents(MergeRuns(s)), "\n") == Join(Contents(s), "\n")
  {
    if s == [] {
    } else {
      hide MergeRuns;
      var front, m := s[..|s| - 1], s[|s| - 1];
      assert s == front + [m];
      MergingKeepsTheText(front);
      MergeRunsAppend(front, m);
      assert Contents(s) == Contents(front) + [m.content];
      var r := MergeRuns(front);
      if front == [] {
        NothingYet([], {});
        assert MergeRuns(s) == [m];
      } else {
        JoinAppend(Contents(front), m.content, "\n");
        if Continues(front[|front| - 1], m) {
          ExtendLastLine(r, m);
        } else {
          assert Contents(r + [m]) == Contents(r) + [m.content];
          JoinAppend(Contents(r), m.content, "\n");
        }
      }
    }
  }

  lemma ExtendLastLine(r: seq<HistoryMessage>, m: HistoryMessage)
    requires r != []
    ensures Join(Contents(Extended(r, true, m)), "\n") == Join(Contents(r), "\n") + "\n" + m.content
  {
    var init, last := r[..|r| - 1], r[|r| - 1].content;
    var longer := last + "\n" + m.content;
    assert Contents(r) == Contents(init) + [last];
    assert Contents(Extended(r, true, m)) == Contents(init) + [longer];
    if init != [] {
      JoinAppend(Contents(init), last, "\n");
      JoinAppend(Contents(init), longer, "\n");
    }
  }
}
