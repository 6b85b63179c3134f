/** Staged recovery from context overflow (`y-context/src/context_manager.rs`). */
module ContextManager {
  import opened Compaction
  import opened Guard
  import opened Numbers
  import opened Pipeline
  import opened Text
  import opened Wrappers

  // ---------------------------------------------------------------------------
  // Items by category
  // ---------------------------------------------------------------------------

  /** `retain`: the items whose category is in `categories`, in order. */
  function Only(items: seq<ContextItem>, categories: set<ContextCategory>): seq<ContextItem> {
    if items == [] then []
    else
      var last := |items| - 1;
      Only(items[..last], categories) + (if items[last].category in categories then [items[last]] else [])
  }

  const ALL: set<ContextCategory> :=
    { SystemPrompt, Bootstrap, Memory, Knowledge, Skills, Tools, History, Status }

  /** The categories that no recovery action touches. */
  const UNTOUCHED: set<ContextCategory> := { SystemPrompt, Memory, Knowledge, Skills, Status }

  function Texts(items: seq<ContextItem>): (r: seq<string>)
    ensures |r| == |items|
  {
    seq(|items|, i requires 0 <= i < |items| => items[i].content)
  }

  function AsHistory(text: string): ContextItem {
    ContextItem(History, text, EstimateTokens(text), 600)
  }

  function HistoryOf(texts: seq<string>): (r: seq<ContextItem>)
    ensures |r| == |texts|
  {
    seq(|texts|, i requires 0 <= i < |texts| => AsHistory(texts[i]))
  }

  lemma {:induction false} OnlyAppend(s: seq<ContextItem>, t: seq<ContextItem>, categories: set<ContextCategory>)
    ensures Only(s + t, categories) == Only(s, categories) + Only(t, categories)
  {
    if t == [] {
      assert s + t == s;
    } else {
      assert (s + t)[..|s + t| - 1] == s + t[..|t| - 1];
      OnlyAppend(s, t[..|t| - 1], categories);
    }
  }

  lemma {:induction false} OnlyOnly(items: seq<ContextItem>, a: set<ContextCategory>, b: set<ContextCategory>)
    ensures Only(Only(items, a), b) == Only(items, a * b)
  {
    if items == [] {
    } else {
      var last := |items| - 1;
      OnlyOnly(items[..last], a, b);
      var front := Only(items[..last], a);
      if items[last].category in a {
        assert (front + [items[last]])[..|front|] == front;
      } else {
        assert front + [] == front;
      }
    }
  }

  lemma {:induction false} OnlyOfOne(items: seq<ContextItem>, c: ContextCategory, categories: set<ContextCategory>)
    requires forall i :: i in items ==> i.category == c
    ensures Only(items, categories) == if c in categories then items else []
  {
    if items == [] {
    } else {
      OnlyOfOne(items[..|items| - 1], c, categories);
      assert items[|items| - 1] in items;
    }
  }

  /** `r` has the items of the categories among `items`, and no others, in their order. */
  ghost predicate PicksOut(places: seq<nat>, r: seq<ContextItem>, items: seq<ContextItem>,
      categories: set<ContextCategory>)
  {
    && |places| == |r|
    && (forall k, l :: 0 <= k < l < |places| ==> places[k] < places[l])
    && (forall k :: 0 <= k < |places| ==> places[k] < |items| && r[k] == items[places[k]])
    && forall i: nat :: i < |items| ==> (i in places <==> items[i].category in categories)
  }

  lemma PicksOutMore(places: seq<nat>, r: seq<ContextItem>, items: seq<ContextItem>, item: ContextItem,
      categories: set<ContextCategory>)
    requires PicksOut(places, r, items, categories)
    ensures item.category in categories ==>
      PicksOut(places + [|items|], r + [item], items + [item], categories)
    ensures item.category !in categories ==> PicksOut(places, r, items + [item], categories)
  {
    var longer := places + [|items|];
    assert forall i :: i in longer <==> i in places || i == |items|;
  }

  lemma {:induction false} OnlyPicksOut(items: seq<ContextItem>, categories: set<ContextCategory>)
      returns (places: seq<nat>)
    ensures PicksOut(places, Only(items, categories), items, categories)
  {
    if items == [] {
      places := [];
    } else {
      var front, item := items[..|items| - 1], items[|items| - 1];
      places := OnlyPicksOut(front, categories);
      PicksOutMore(places, Only(front, categories), front, item, categories);
      assert items == front + [item];
      hide PicksOut;
      if item.category in categories {
        places := places + [|front|];
      }
    }
  }

  // ---------------------------------------------------------------------------
  // The three recovery actions
  // ---------------------------------------------------------------------------

  datatype Settings = Settings(guard: ContextWindowGuard, retainWindow: nat, strategy: Strategy)
  {
    function Verdict(items: seq<ContextItem>): GuardVerdict {
      guard.Evaluate(TotalTokens(items))
    }

    predicate Overflows(items: seq<ContextItem>) {
      Verdict(items).Overflow? || Verdict(items).Critical?
    }

    predicate Compacts(items: seq<ContextItem>) {
      |Only(items, {History})| > retainWindow
    }

    /** What the history becomes: one summary and the texts of the retained window. */
    function ShortHistory(items: seq<ContextItem>): seq<ContextItem>
      requires Compacts(items)
    {
      var texts := Texts(Only(items, {History}));
      var result := CompactWithRetain(texts, retainWindow, strategy);
      [AsHistory(result.summary)] + HistoryOf(texts[|texts| - retainWindow..])
    }

    function AfterCompaction(items: seq<ContextItem>): seq<ContextItem> {
      if Compacts(items) then Only(items, ALL - {History}) + ShortHistory(items) else items
    }

    function AfterTrimming(items: seq<ContextItem>): seq<ContextItem> {
      if Overflows(items) then Only(items, ALL - {Bootstrap}) else items
    }

    function AfterEviction(items: seq<ContextItem>): seq<ContextItem> {
      if Overflows(items) then Only(items, ALL - {Tools}) else items
    }

    /** The items that `prepare_context` ends with. */
    function Prepared(items: seq<ContextItem>): seq<ContextItem> {
      if Overflows(items) then AfterEviction(AfterTrimming(AfterCompaction(items))) else items
    }
  }

  method Retain(items: seq<ContextItem>, categories: set<ContextCategory>) returns (r: seq<ContextItem>)
    ensures r == Only(items, categories)
  {
    r := [];
    for i := 0 to |items|
      invariant r == Only(items[..i], categories)
    {
      assert items[..i + 1][..i] == items[..i];
      if items[i].category in categories {
        r := r + [items[i]];
      }
    }
    assert items[..|items|] == items;
  }

  /** The retained messages, estimated afresh, go to the end of the context. */
  method AddBack(ctx: AssembledContext, messages: seq<string>)
    modifies ctx
    ensures ctx.items == old(ctx.items) + HistoryOf(messages)
  {
    for k := 0 to |messages|
      invariant ctx.items == old(ctx.items) + HistoryOf(messages[..k])
    {
      assert HistoryOf(messages[..k + 1]) == HistoryOf(messages[..k]) + [AsHistory(messages[k])];
      ctx.Add(ContextItem(History, messages[k], EstimateTokens(messages[k]), 600));
    }
    assert messages[..|messages|] == messages;
  }

  method RecoverByCompactingHistory(ctx: AssembledContext, settings: Settings)
      returns (recovery: Option<CompactionResult>)
    modifies ctx
    ensures ctx.items == settings.AfterCompaction(old(ctx.items))
    ensures recovery.Some? <==> settings.Compacts(old(ctx.items))
    ensures recovery.Some? ==>
      recovery.value == CompactWithRetain(Texts(Only(old(ctx.items), {History})), settings.retainWindow,
        settings.strategy)
    ensures var before, after := old(Only(ctx.items, {History})), Only(ctx.items, {History});
      if |before| > settings.retainWindow
      then IsShortened(before, after, settings.retainWindow, settings.strategy)
      else after == before
  {
    hide Only, CompactWithRetain, EstimateTokens, IsShortened;
    HistoryAfterCompaction(settings, ctx.items);
    var history := Retain(ctx.items, {History});
    var messages := Texts(history);
    if messages == [] {
      return None;
    }
    var result := CompactWithRetain(messages, settings.retainWindow, settings.strategy);
    if result.messagesCompacted == 0 {
      return None;
    }
    var others := Retain(ctx.items, ALL - {History});
    ctx.items := others;
    if result.summary != "" {
      ctx.Add(ContextItem(History, result.summary, result.summaryTokens, 600));
    }
    var retainStart := SatSub(|messages|, SatSub(|messages|, result.messagesCompacted));
    AddBack(ctx, messages[retainStart..]);
    assert ctx.items == others + settings.ShortHistory(old(ctx.items));
    recovery := Some(result);
  }

  datatype PreparedContext = PreparedContext(
    tokensUsed: u32, compacted: bool, compactionResult: Option<CompactionResult>, verdict: GuardVerdict)

  /** Only an overflow that is still critical after all three actions is an error. */
  method PrepareContext(assembled: AssembledContext, settings: Settings) returns (r: Result<PreparedContext, nat>)
    modifies assembled
    ensures assembled.items == settings.Prepared(old(assembled.items))
    ensures r.Ok? ==> (
      && r.value.verdict == settings.Verdict(assembled.items)
      && r.value.tokensUsed == TotalTokens(assembled.items)
      && r.value.compacted == r.value.compactionResult.Some?
      && r.value.compacted == (settings.Overflows(old(assembled.items)) && settings.Compacts(old(assembled.items))))
    ensures r.Err? ==> settings.Verdict(assembled.items) == Critical(r.error)
    ensures r.Err? <==> settings.Overflows(old(assembled.items)) && settings.Verdict(assembled.items).Critical?
    ensures var before, after := old(Only(assembled.items, {History})), Only(assembled.items, {History});
      if settings.guard.Evaluate(old(TotalTokens(assembled.items))).Severity() >= 2 && |before| > settings.retainWindow
      then IsShortened(before, after, settings.retainWindow, settings.strategy)
      else after == before
  {
    HistoryIsKeptOrSummarised(settings, assembled.items);
    hide Only, Texts, TotalTokens, CompactWithRetain, EstimateTokens, Settings.ShortHistory, Settings.Compacts;
    hide ContextWindowGuard.Evaluate, IsShortened, GuardVerdict.Severity;
    var verdict := settings.guard.Evaluate(TotalTokens(assembled.items));
    var compacted, compactionResult := false, None;
    if verdict.Overflow? || verdict.Critical? {
      var recovery := RecoverByCompactingHistory(assembled, settings);
      if recovery.Some? {
        compacted, compactionResult := true, recovery;
        verdict := settings.guard.Evaluate(TotalTokens(assembled.items));
      }
      if verdict.Overflow? || verdict.Critical? {
        assembled.items := Retain(assembled.items, ALL - {Bootstrap});
        verdict := settings.guard.Evaluate(TotalTokens(assembled.items));
      }
      if verdict.Overflow? || verdict.Critical? {
        assembled.items := Retain(assembled.items, ALL - {Tools});
        verdict := settings.guard.Evaluate(TotalTokens(assembled.items));
      }
      if verdict.Critical? {
        return Err(verdict.tokensOver);
      }
    }
    r := Ok(PreparedContext(TotalTokens(assembled.items), compacted, compactionResult, verdict));
  }

  // ---------------------------------------------------------------------------
  // What preparation preserves
  // ---------------------------------------------------------------------------

  /** Compaction leaves all but the history in place. */
  lemma CompactionKeepsTheRest(settings: Settings, items: seq<ContextItem>, categories: set<ContextCategory>)
    requires History !in categories
    ensures Only(settings.AfterCompaction(items), categories) == Only(items, categories)
  {
    hide Only, Texts, CompactWithRetain, EstimateTokens, Settings.Compacts;
    if settings.Compacts(items) {
      var history := settings.ShortHistory(items);
      OnlyAppend(Only(items, ALL - {History}), history, categories);
      OnlyOfOne(history, History, categories);
      OnlyOnly(items, ALL - {History}, categories);
      assert (ALL - {History}) * categories == categories by {
        AllCategories(categories);
      }
    }
  }

  lemma AllCategories(categories: set<ContextCategory>)
    ensures categories <= ALL
  {
    forall c | c in categories ensures c in ALL {
      match c
      case SystemPrompt => case Bootstrap => case Memory => case Knowledge =>
      case Skills => case Tools => case History => case Status =>
    }
  }

  /** Dropping one category leaves every selection without it in place. */
  lemma DroppingKeepsTheRest(items: seq<ContextItem>, dropped: ContextCategory, categories: set<ContextCategory>)
    ensures Only(Only(items, ALL - {dropped}), categories) == Only(items, categories - {dropped})
  {
    OnlyOnly(items, ALL - {dropped}, categories);
    AllCategories(categories);
    assert (ALL - {dropped}) * categories == categories - {dropped};
  }

  lemma {:induction false} OnlyEverything(items: seq<ContextItem>)
    ensures Only(items, ALL) == items
  {
    if items == [] {
    } else {
      OnlyEverything(items[..|items| - 1]);
      AllCategories({items[|items| - 1].category});
    }
  }

  /** System, memory, knowledge, skills and status items all survive, in their order. */
  lemma UntouchedItemsSurvive(settings: Settings, items: seq<ContextItem>)
    ensures Only(settings.Prepared(items), UNTOUCHED) == Only(items, UNTOUCHED)
  {
    hide Only;
    var compacted := settings.AfterCompaction(items);
    var trimmed := settings.AfterTrimming(compacted);
    CompactionKeepsTheRest(settings, items, UNTOUCHED);
    DroppingKeepsTheRest(compacted, Bootstrap, UNTOUCHED);
    DroppingKeepsTheRest(trimmed, Tools, UNTOUCHED);
    assert UNTOUCHED - {Bootstrap} == UNTOUCHED && UNTOUCHED - {Tools} == UNTOUCHED;
  }

  /**
   The history is untouched unless an overflow meets more than `retainWindow` messages. Then all of
   them but the last `retainWindow` give way to one item that says how many they were; the last
   ones keep their texts and their order.
   */
  lemma HistoryIsKeptOrSummarised(settings: Settings, items: seq<ContextItem>)
    ensures var before, after := Only(items, {History}), Only(settings.Prepared(items), {History});
      if settings.guard.Evaluate(TotalTokens(items)).Severity() >= 2 && |before| > settings.retainWindow
      then IsShortened(before, after, settings.retainWindow, settings.strategy)
      else after == before
  {
    hide Only, IsShortened, Settings.ShortHistory, ContextWindowGuard.Evaluate, TotalTokens;
    var compacted := settings.AfterCompaction(items);
    var trimmed := settings.AfterTrimming(compacted);
    HistoryAfterCompaction(settings, items);
    DroppingKeepsTheRest(compacted, Bootstrap, {History});
    DroppingKeepsTheRest(trimmed, Tools, {History});
    assert {History} - {Bootstrap} == {History} && {History} - {Tools} == {History};
  }

  /** One line for the messages that are gone, and the last `window` messages with their texts, in order. */
  predicate IsShortened(before: seq<ContextItem>, after: seq<ContextItem>, window: nat, strategy: Strategy)
    requires |before| > window
  {
    && |after| == window + 1
    && IsMessage(after[0], SummaryLine(|before| - window, strategy))
    && forall i, j :: 0 < i < |after| && 0 <= j < |before| && |after| - i == |before| - j ==>
      IsMessage(after[i], before[j].content)
  }

  lemma ShortHistoryIsShortened(settings: Settings, items: seq<ContextItem>)
    requires settings.Compacts(items)
    ensures IsShortened(Only(items, {History}), settings.ShortHistory(items), settings.retainWindow, settings.strategy)
  {
    hide Only, CompactWithRetain, SummaryLine, IsMessage, AsHistory;
    var before, after := Only(items, {History}), settings.ShortHistory(items);
    var texts, window := Texts(before), settings.retainWindow;
    PlaceholderLine(texts, window, settings.strategy);
    HistoryIsMessage(SummaryLine(|before| - window, settings.strategy));
    forall i, j | 0 < i < |after| && 0 <= j < |before| && |after| - i == |before| - j
      ensures IsMessage(after[i], before[j].content)
    {
      assert after[i] == AsHistory(texts[j]);
      HistoryIsMessage(texts[j]);
    }
  }

  lemma HistoryAfterCompaction(settings: Settings, items: seq<ContextItem>)
    ensures var before, after := Only(items, {History}), Only(settings.AfterCompaction(items), {History});
      if |before| > settings.retainWindow
      then IsShortened(before, after, settings.retainWindow, settings.strategy)
      else after == before
  {
    hide Only, IsShortened, Settings.ShortHistory;
    if settings.Compacts(items) {
      CompactionHistory(settings, items);
      ShortHistoryIsShortened(settings, items);
    }
  }

  lemma PlaceholderLine(texts: seq<string>, window: nat, strategy: Strategy)
    requires |texts| > window
    ensures CompactWithRetain(texts, window, strategy).summary == SummaryLine(|texts| - window, strategy)
  {
    hide Decimal;
  }

  lemma HistoryIsMessage(text: string)
    ensures IsMessage(AsHistory(text), text)
  {
  }

  /** A history item for a text, at its own estimate. */
  predicate IsMessage(item: ContextItem, text: string) {
    item == ContextItem(History, text, Min(DivCeil(|text|, 4), U32_MAX), 600)
  }

  function SummaryLine(count: nat, strategy: Strategy): string {
    var name :=
      match strategy
      case Summarize => "Summarize"
      case SegmentedSummarize => "SegmentedSummarize"
      case SelectiveRetain => "SelectiveRetain";
    "[Compacted " + Decimal(count) + " messages using " + name + " strategy]"
  }

  lemma CompactionHistory(settings: Settings, items: seq<ContextItem>)
    requires settings.Compacts(items)
    ensures Only(settings.AfterCompaction(items), {History}) == settings.ShortHistory(items)
  {
    hide Only;
    var short := settings.ShortHistory(items);
    OnlyAppend(Only(items, ALL - {History}), short, {History});
    OnlyOfOne(short, History, {History});
    OnlyOnly(items, ALL - {History}, {History});
    OnlyNothing(items);
    assert (ALL - {History}) * {History} == {};
  }

  lemma {:induction false} OnlyNothing(items: seq<ContextItem>)
    ensures Only(items, {}) == []
  {
    if items == [] {
    } else {
      OnlyNothing(items[..|items| - 1]);
    }
  }

  /**
   Bootstrap items are all dropped when compaction left an overflow and all kept otherwise;
   tool items are dropped exactly when an overflow was left after that too.
   */
  lemma DroppedOnlyInTurn(settings: Settings, items: seq<ContextItem>)
    ensures var compacted := settings.AfterCompaction(items);
      var trims := settings.Overflows(items) && settings.Overflows(compacted);
      var evicts := trims && settings.Overflows(Only(compacted, ALL - {Bootstrap}));
      && Only(settings.Prepared(items), {Bootstrap}) == (if trims then [] else Only(items, {Bootstrap}))
      && Only(settings.Prepared(items), {Tools}) == (if evicts then [] else Only(items, {Tools}))
  {
    var compacted := settings.AfterCompaction(items);
    var trimmed := settings.AfterTrimming(compacted);
    CompactionKeepsTheRest(settings, items, {Bootstrap});
    CompactionKeepsTheRest(settings, items, {Tools});
    DroppingKeepsTheRest(compacted, Bootstrap, {Bootstrap});
    DroppingKeepsTheRest(compacted, Bootstrap, {Tools});
    DroppingKeepsTheRest(trimmed, Tools, {Bootstrap});
    DroppingKeepsTheRest(trimmed, Tools, {Tools});
    assert {Bootstrap} - {Bootstrap} == {} && {Tools} - {Tools} == {};
    assert {Bootstrap} - {Tools} == {Bootstrap} && {Tools} - {Bootstrap} == {Tools};
    OnlyNothing(compacted);
    OnlyNothing(trimmed);
  }

  /** When preparation fails, nothing was left to drop: no bootstrap item and no tool item remains. */
  lemma FailureMeansAllWasTried(settings: Settings, items: seq<ContextItem>)
    requires settings.Overflows(items) && settings.Verdict(settings.Prepared(items)).Critical?
    ensures Only(settings.Prepared(items), {Bootstrap}) == [] && Only(settings.Prepared(items), {Tools}) == []
  {
    var compacted := settings.AfterCompaction(items);
    var trimmed := settings.AfterTrimming(compacted);
    assert settings.Overflows(settings.Prepared(items));
    assert settings.Overflows(trimmed);
    assert settings.Overflows(compacted);
    DroppedOnlyInTurn(settings, items);
  }
}
