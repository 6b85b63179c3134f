/** What becomes of each message in a repair, said of the messages themselves. */
module RepairCases {
  import opened Repair
  import opened Text
  import opened Wrappers

  // ---------------------------------------------------------------------------
  // What is kept
  // ---------------------------------------------------------------------------

  /** Some assistant message makes the call `t`. */
  ghost predicate IsCalled(messages: seq<HistoryMessage>, t: string) {
    exists j :: 0 <= j < |messages| && messages[j].role == "assistant" && messages[j].toolCallId == Some(t)
  }

  /** No content and no call id. */
  predicate IsVoid(m: HistoryMessage) {
    m.content == "" && m.toolCallId == None
  }

  /** A system message after another one. */
  ghost predicate IsLaterSystem(messages: seq<HistoryMessage>, i: nat)
    requires i < |messages|
  {
    messages[i].role == "system" && exists j :: 0 <= j < i && messages[j].role == "system" && !IsVoid(messages[j])
  }

  /** A tool message under an id that nobody called. */
  ghost predicate IsUnanswerable(messages: seq<HistoryMessage>, i: nat)
    requires i < |messages|
  {
    messages[i].role == "tool" && messages[i].toolCallId.Some? && !IsCalled(messages, messages[i].toolCallId.value)
  }

  lemma CalledIff(messages: seq<HistoryMessage>, t: string)
    ensures t in CallIds(messages) <==> IsCalled(messages, t)
  {
    if t in CallIds(messages) {
      var i := CallAt(messages, t);
    }
    if j :| 0 <= j < |messages| && messages[j].role == "assistant" && messages[j].toolCallId == Some(t) {
      CallFound(messages, j, t);
    }
  }

  lemma SeesSystemIff(messages: seq<HistoryMessage>, i: nat)
    requires i <= |messages|
    ensures SeesSystem(messages[..i]) <==>
      exists j :: 0 <= j < i && messages[j].role == "system" && !IsVoid(messages[j])
  {
    if SeesSystem(messages[..i]) {
      var m :| m in messages[..i] && m.role == "system" && !IsEmpty(m);
      var j :| 0 <= j < |messages[..i]| && messages[..i][j] == m;
      assert messages[j] == m;
    }
    if j :| 0 <= j < i && messages[j].role == "system" && !IsVoid(messages[j]) {
      assert messages[..i][j] == messages[j];
    }
  }

  /** What the pass does with a message. */
  lemma FateIff(messages: seq<HistoryMessage>, i: nat)
    requires i < |messages|
    ensures var fate := FateOf(messages[i], CallIds(messages), SeesSystem(messages[..i]));
      && (fate == Empty <==> IsVoid(messages[i]))
      && (fate == Duplicate <==> !IsVoid(messages[i]) && IsLaterSystem(messages, i))
      && (fate == Orphaned <==> IsUnanswerable(messages, i))
      && (fate == Surviving <==> Keeps(messages, CallIds(messages), i))
  {
    SeesSystemIff(messages, i);
    if messages[i].toolCallId.Some? {
      CalledIff(messages, messages[i].toolCallId.value);
    }
    hide SeesSystem, CallIds, IsCalled;
  }

  /** A message is kept if it is neither void nor a later system message nor an unanswerable result. */
  lemma KeptIff(messages: seq<HistoryMessage>, i: nat)
    requires i < |messages|
    ensures Keeps(messages, CallIds(messages), i) <==>
      !IsVoid(messages[i]) && !IsLaterSystem(messages, i) && !IsUnanswerable(messages, i)
  {
    FateIff(messages, i);
    hide SeesSystem, CallIds, IsCalled;
  }

  // ---------------------------------------------------------------------------
  // What is counted
  // ---------------------------------------------------------------------------

  predicate HasFate(messages: seq<HistoryMessage>, calls: set<string>, fate: Fate, i: nat)
    requires i < |messages|
  {
    FateOf(messages[i], calls, SeesSystem(messages[..i])) == fate
  }

  lemma FateInFront(messages: seq<HistoryMessage>, calls: set<string>, fate: Fate, i: nat)
    requires i < |messages| - 1
    ensures HasFate(messages[..|messages| - 1], calls, fate, i) == HasFate(messages, calls, fate, i)
  {
    assert messages[..|messages| - 1][..i] == messages[..i];
  }

  lemma CountUnfolds(messages: seq<HistoryMessage>, calls: set<string>, fate: Fate)
    requires messages != []
    ensures var last := |messages| - 1;
      Count(messages, calls, fate)
        == Count(messages[..last], calls, fate) + if HasFate(messages, calls, fate, last) then 1 else 0
  {
  }

  function Having(messages: seq<HistoryMessage>, calls: set<string>, fate: Fate): set<nat> {
    set i: nat | i < |messages| && HasFate(messages, calls, fate, i)
  }

  lemma HavingUnfolds(messages: seq<HistoryMessage>, calls: set<string>, fate: Fate)
    requires messages != []
    ensures var last := |messages| - 1;
      var before := Having(messages[..last], calls, fate);
      && last !in before
      && Having(messages, calls, fate) == if HasFate(messages, calls, fate, last) then before + {last} else before
  {
    hide HasFate;
    var last := |messages| - 1;
    forall i: nat | i < last ensures HasFate(messages[..last], calls, fate, i) == HasFate(messages, calls, fate, i) {
      FateInFront(messages, calls, fate, i);
    }
  }

  /** The count of a fate is the number of positions that meet it. */
  lemma {:induction false} CountIsNumber(messages: seq<HistoryMessage>, calls: set<string>, fate: Fate)
    ensures Count(messages, calls, fate) == |Having(messages, calls, fate)|
  {
    if messages == [] {
    } else {
      hide HasFate, Count, Having;
      CountIsNumber(messages[..|messages| - 1], calls, fate);
      CountUnfolds(messages, calls, fate);
      HavingUnfolds(messages, calls, fate);
    }
  }

  /** Each counter of the report is the number of messages removed for that reason. */
  lemma ReportCounts(messages: seq<HistoryMessage>, report: RepairReport)
    requires Accounts(report, messages, CallIds(messages))
    ensures report.emptyRemoved == |set i: nat | i < |messages| && IsVoid(messages[i])|
    ensures report.duplicatesRemoved
      == |set i: nat | i < |messages| && !IsVoid(messages[i]) && IsLaterSystem(messages, i)|
    ensures report.orphansRemoved == |set i: nat | i < |messages| && IsUnanswerable(messages, i)|
  {
    hide CallIds, Count, IsVoid, IsLaterSystem, IsUnanswerable, HasFate;
    var calls := CallIds(messages);
    forall i: nat | i < |messages|
      ensures HasFate(messages, calls, Empty, i) <==> IsVoid(messages[i])
      ensures HasFate(messages, calls, Duplicate, i) <==> !IsVoid(messages[i]) && IsLaterSystem(messages, i)
      ensures HasFate(messages, calls, Orphaned, i) <==> IsUnanswerable(messages, i)
    {
      FateMeans(messages, i);
    }
    CountIsNumber(messages, calls, Empty);
    CountIsNumber(messages, calls, Duplicate);
    CountIsNumber(messages, calls, Orphaned);
    assert Having(messages, calls, Empty)
      == set i: nat | i < |messages| && IsVoid(messages[i]);
    assert Having(messages, calls, Duplicate)
      == set i: nat | i < |messages| && !IsVoid(messages[i]) && IsLaterSystem(messages, i);
    assert Having(messages, calls, Orphaned)
      == set i: nat | i < |messages| && IsUnanswerable(messages, i);
  }

  lemma FateMeans(messages: seq<HistoryMessage>, i: nat)
    requires i < |messages|
    ensures var calls := CallIds(messages);
      && (HasFate(messages, calls, Empty, i) <==> IsVoid(messages[i]))
      && (HasFate(messages, calls, Duplicate, i) <==> !IsVoid(messages[i]) && IsLaterSystem(messages, i))
      && (HasFate(messages, calls, Orphaned, i) <==> IsUnanswerable(messages, i))
  {
    FateIff(messages, i);
  }

  // ---------------------------------------------------------------------------
  // What an entry is made of
  // ---------------------------------------------------------------------------

  /** The message goes on where the one before it, in the kept ones, left off. */
  predicate JoinsOn(before: HistoryMessage, m: HistoryMessage) {
    m.role == before.role && m.role != "system" && m.toolCallId == None
  }

  /** `starts` are the places in `s` where a new entry begins: those of messages that do not join on. */
  ghost predicate AreStarts(s: seq<HistoryMessage>, starts: seq<nat>) {
    && (forall k, l :: 0 <= k < l < |starts| ==> starts[k] < starts[l])
    && (forall k :: 0 <= k < |starts| ==> starts[k] < |s|)
    && forall j :: 0 <= j < |s| ==> (j in starts <==> StartsEntry(s, j))
  }

  predicate StartsEntry(s: seq<HistoryMessage>, j: nat)
    requires j < |s|
  {
    j == 0 || !JoinsOn(s[j - 1], s[j])
  }

  function Lines(s: seq<HistoryMessage>, from: nat, to: nat): seq<string>
    requires from <= to <= |s|
  {
    seq(to - from, i requires 0 <= i < to - from => s[from + i].content)
  }

  /** Where the entry that begins at place `k` of `starts` ends. */
  function EndOf(s: seq<HistoryMessage>, starts: seq<nat>, k: nat): nat
    requires k < |starts|
  {
    if k + 1 < |starts| then starts[k + 1] else |s|
  }

  /** An entry stands for the messages from `from` up to `to`: the first of them, holding the lines of all. */
  ghost predicate StandsFor(r: HistoryMessage, s: seq<HistoryMessage>, from: nat, to: nat) {
    && from < to <= |s|
    && r.id == s[from].id && r.role == s[from].role && r.toolCallId == s[from].toolCallId
    && r.content == Join(Lines(s, from, to), "\n")
  }

  /** One entry for each start, which stands for the messages up to the next. */
  ghost predicate AreEntries(s: seq<HistoryMessage>, r: seq<HistoryMessage>, starts: seq<nat>) {
    && |r| == |starts|
    && forall k :: 0 <= k < |r| ==> StandsFor(r[k], s, starts[k], EndOf(s, starts, k))
  }

  lemma StandsForInMore(r: HistoryMessage, s: seq<HistoryMessage>, m: HistoryMessage, from: nat, to: nat)
    requires StandsFor(r, s, from, to)
    ensures StandsFor(r, s + [m], from, to)
    ensures to == |s| ==> StandsFor(r.(content := r.content + "\n" + m.content), s + [m], from, to + 1)
  {
    assert Lines(s + [m], from, to) == Lines(s, from, to);
    if to == |s| {
      assert Lines(s + [m], from, to + 1) == Lines(s, from, to) + [m.content];
      JoinAppend(Lines(s, from, to), m.content, "\n");
    }
  }

  lemma StartsOfMore(s: seq<HistoryMessage>, m: HistoryMessage, starts: seq<nat>)
    requires AreStarts(s, starts)
    ensures StartsEntry(s + [m], |s|) ==> AreStarts(s + [m], starts + [|s|])
    ensures !StartsEntry(s + [m], |s|) ==> AreStarts(s + [m], starts)
  {
    var t, longer := s + [m], starts + [|s|];
    assert longer[|starts|] == |s|;
    assert forall j :: j in longer <==> j in starts || j == |s|;
    assert forall j :: 0 <= j < |s| ==> StartsEntry(t, j) == StartsEntry(s, j);
  }

  lemma NewEntry(s: seq<HistoryMessage>, m: HistoryMessage, r: seq<HistoryMessage>, starts: seq<nat>)
    requires AreStarts(s, starts) && AreEntries(s, r, starts)
    ensures AreEntries(s + [m], r + [m], starts + [|s|])
  {
    var t, longer := s + [m], starts + [|s|];
    OneLine(s, m);
    forall k | 0 <= k < |r| ensures StandsFor(r[k], t, starts[k], EndOf(t, longer, k)) {
      StandsForInMore(r[k], s, m, starts[k], EndOf(s, starts, k));
    }
    hide StandsFor;
  }

  lemma LongerEntry(s: seq<HistoryMessage>, m: HistoryMessage, r: seq<HistoryMessage>, starts: seq<nat>)
    requires AreStarts(s, starts) && AreEntries(s, r, starts) && r != []
    ensures AreEntries(s + [m], Extended(r, true, m), starts)
  {
    var t, x := s + [m], Extended(r, true, m);
    ExtendedShape(r, true, m);
    hide Extended;
    forall k | 0 <= k < |x| ensures StandsFor(x[k], t, starts[k], EndOf(t, starts, k)) {
      EntryInMore(s, m, r, starts, k);
    }
    hide StandsFor, EndOf;
  }

  lemma EntryInMore(s: seq<HistoryMessage>, m: HistoryMessage, r: seq<HistoryMessage>, starts: seq<nat>, k: nat)
    requires AreEntries(s, r, starts) && k < |r|
    ensures var entry := if k < |r| - 1 then r[k] else r[k].(content := r[k].content + "\n" + m.content);
      StandsFor(entry, s + [m], starts[k], EndOf(s + [m], starts, k))
  {
    StandsForInMore(r[k], s, m, starts[k], EndOf(s, starts, k));
  }

  lemma OneLine(s: seq<HistoryMessage>, m: HistoryMessage)
    ensures StandsFor(m, s + [m], |s|, |s| + 1)
  {
    assert Lines(s + [m], |s|, |s| + 1) == [m.content];
  }

  /** Every merged history has one entry for each message that does not join on, with the lines of those that do. */
  lemma {:induction false} MergedEntries(s: seq<HistoryMessage>) returns (starts: seq<nat>)
    ensures AreStarts(s, starts) && AreEntries(s, MergeRuns(s), starts)
  {
    if s == [] {
      starts := [];
    } else {
      var front, m := s[..|s| - 1], s[|s| - 1];
      starts := MergedEntries(front);
      assert s == front + [m];
      MergeRunsAppend(front, m);
      StartsOfMore(front, m, starts);
      var joins := front != [] && Continues(front[|front| - 1], m);
      JoinsIff(front, m);
      hide MergeRuns, AreStarts, AreEntries, Extended, Continues, StartsEntry;
      if front != [] {
        LastRole(front);
      }
      ExtendedShape(MergeRuns(front), joins, m);
      if joins {
        LongerEntry(front, m, MergeRuns(front), starts);
      } else {
        PlainExtension(MergeRuns(front), m);
        NewEntry(front, m, MergeRuns(front), starts);
        starts := starts + [|front|];
      }
    }
  }

  lemma JoinsIff(front: seq<HistoryMessage>, m: HistoryMessage)
    ensures StartsEntry(front + [m], |front|) <==> !(front != [] && Continues(front[|front| - 1], m))
  {
  }

  lemma PlainExtension(r: seq<HistoryMessage>, m: HistoryMessage)
    ensures Extended(r, false, m) == r + [m]
  {
  }

  // ---------------------------------------------------------------------------
  // Tool results
  // ---------------------------------------------------------------------------

  /** An entry for message `m`: its id, its role, its call id, and content that begins with its own. */
  predicate IsEntryOf(r: HistoryMessage, m: HistoryMessage) {
    r.id == m.id && r.role == m.role && r.toolCallId == m.toolCallId && m.content <= r.content
  }

  /** A tool result has its entry in the repaired history exactly if some assistant message made the call. */
  lemma ResultSurvivesIffCalled(messages: seq<HistoryMessage>, i: nat, t: string)
    requires i < |messages| && messages[i].role == "tool" && messages[i].toolCallId == Some(t)
    ensures (exists h :: 0 <= h < |Repaired(messages)| && IsEntryOf(Repaired(messages)[h], messages[i]))
      <==> IsCalled(messages, t)
  {
    var calls, r := CallIds(messages), Repaired(messages);
    KeptIff(messages, i);
    hide MergeRuns, Kept, CallIds, Keeps, IsCalled;
    RepairedUnfolds(messages);
    var kept := Kept(messages, calls);
    var starts := MergedEntries(kept);
    if IsCalled(messages, t) {
      var k := KeptAt(messages, calls, i);
      assert StartsEntry(kept, k) && k in starts;
      var h :| 0 <= h < |starts| && starts[h] == k;
      EntryBegins(kept, r[h], k, EndOf(kept, starts, h));
    }
    if h :| 0 <= h < |r| && IsEntryOf(r[h], messages[i]) {
      assert StandsFor(r[h], kept, starts[h], EndOf(kept, starts, h));
      var from := KeptPositions(messages, calls);
      KeptIff(messages, from[starts[h]]);
    }
  }

  lemma EntryBegins(s: seq<HistoryMessage>, r: HistoryMessage, from: nat, to: nat)
    requires StandsFor(r, s, from, to)
    ensures IsEntryOf(r, s[from])
  {
    assert Lines(s, from, to)[0] == s[from].content;
  }
}
