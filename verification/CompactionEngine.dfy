/**
 The three compaction strategies behind one call (`compact_async_with_retain_and_previous` in
 `y-context/src/compaction.rs`).
 */
module CompactionEngine {
  import opened Compaction
  import opened Numbers
  import opened SelectiveRetention
  import opened SummaryContents
  import opened Text
  import opened Wrappers

  /** The prompt builders, and the heuristic by which messages are scored and counted. */
  datatype Wording = Wording(
    summarize: seq<string> -> string,
    update: (seq<string>, string) -> string,
    segment: (seq<string>, nat) -> string,
    score: string -> real,
    quota: nat -> nat)

  datatype Config = Config(strategy: Strategy, maxRetries: u32, segmentSize: nat)

  const NO_MODEL := LlmError(Deterministic, "compaction LLM is not configured")

  // ---------------------------------------------------------------------------
  // What a strategy may answer
  // ---------------------------------------------------------------------------

  /** One run of the model: its answers from `from` on, `asked` the prompts it was given. */
  datatype Session = Session(replies: nat -> Reply, from: nat, asked: seq<string>)

  /** One summary for everything, or the fallback. */
  ghost predicate IsWhole(s: Session, maxRetries: nat, messages: seq<string>, prompt: string, summary: string,
      failure: Option<LlmError>) {
    var n := |s.asked|;
    && n > 0 && s.asked == Repeat(prompt, n) && IsRetryRun(s.replies, s.from, maxRetries, n)
    && var outcome := s.replies(s.from + n - 1).Outcome();
       summary == TextOf(outcome, messages) && failure == FailureOf(outcome)
  }

  ghost predicate IsSegmented(s: Session, config: Config, messages: seq<string>, wording: Wording, summary: string,
      failure: Option<LlmError>) {
    exists trace, used ::
      && IsRun(s.replies, config.maxRetries, s.from, Chunks(messages, Max(config.segmentSize, 1)), wording.segment,
        trace, used)
      && SegmentsCameTo(s, trace, summary, failure)
  }

  ghost predicate SegmentsCameTo(s: Session, trace: seq<Progress>, summary: string, failure: Option<LlmError>) {
    trace != [] && var end := trace[|trace| - 1];
      end.calls == s.from + |s.asked| && end.prompts == s.asked && summary == Stitch(end.segments) &&
        failure == end.failure
  }

  ghost predicate IsPartial(s: Session, config: Config, messages: seq<string>, wording: Wording, summary: string,
      failure: Option<LlmError>) {
    var kept := Retained(messages, wording.score, wording.quota(|messages|));
    && s.asked == Repeat(wording.summarize(Rest(messages, kept)), |s.asked|)
    && IsSelective(s.replies, s.from, config.maxRetries, messages, kept, |s.asked|, summary, failure)
  }

  /** The prompt for everything: an update of the previous summary if there is one. */
  function WholePrompt(wording: Wording, messages: seq<string>, previous: Option<string>): string {
    if previous.Some? && previous.value != "" then wording.update(messages, previous.value)
      else wording.summarize(messages)
  }

  /** The session gives the strategy's summary of `messages`. */
  ghost predicate IsSummary(s: Session, config: Config, messages: seq<string>, wording: Wording,
      previous: Option<string>,
                            summary: string, failure: Option<LlmError>) {
    match config.strategy
    case Summarize => IsWhole(s, config.maxRetries, messages, WholePrompt(wording, messages, previous), summary,
      failure)
    case SegmentedSummarize => IsSegmented(s, config, messages, wording, summary, failure)
    case SelectiveRetain => IsPartial(s, config, messages, wording, summary, failure)
  }

  /** How many calls a strategy may make at the most. */
  function CallLimit(config: Config, count: nat): nat {
    var rounds := if config.strategy == SegmentedSummarize then DivCeil(count, Max(config.segmentSize, 1)) else 1;
    rounds * Max(1, config.maxRetries)
  }

  /** Whatever the model answers, the summary of some messages is never the empty text. */
  lemma SummaryIsNeverEmpty(s: Session, config: Config, messages: seq<string>, wording: Wording,
      previous: Option<string>,
                            summary: string, failure: Option<LlmError>)
    requires messages != [] && IsSummary(s, config, messages, wording, previous, summary, failure)
    ensures summary != ""
  {
    hide IsRetryRun;
    match config.strategy
    case Summarize =>
      UsableIsNotEmpty(s.replies(s.from + |s.asked| - 1), messages);
    case SegmentedSummarize =>
      var chunks := Chunks(messages, Max(config.segmentSize, 1));
      var trace, used :| IsRun(s.replies, config.maxRetries, s.from, chunks, wording.segment, trace, used)
        && SegmentsCameTo(s, trace, summary, failure);
      SegmentsAccumulate(s.replies, config.maxRetries, s.from, chunks, wording.segment, trace, used, |chunks|,
        |chunks|);
    case SelectiveRetain =>
      var kept := Retained(messages, wording.score, wording.quota(|messages|));
      SelectiveIsNotEmpty(s.replies, s.from, config.maxRetries, messages, kept, |s.asked|, summary, failure);
  }

  lemma SelectiveIsNotEmpty(replies: nat -> Reply, from: nat, maxRetries: nat, messages: seq<string>, kept: set<nat>,
      n: nat,
                            summary: string, failure: Option<LlmError>)
    requires messages != [] && IsSelective(replies, from, maxRetries, messages, kept, n, summary, failure)
    ensures summary != ""
  {
    hide IsRetryRun, TextOf, FailureOf;
    EveryMessageIsAccountedFor(messages, kept);
    var last := |messages| - 1;
    if Rest(messages, kept) == [] {
      assert last in kept;
      JoinMore(Verbatim(messages[..last], kept), "[Retained] " + messages[last]);
    } else {
      var text := TextOf(replies(from + n - 1).Outcome(), Rest(messages, kept));
      JoinStart("[Summary of less important messages] " + text, Verbatim(messages, kept));
    }
  }

  lemma JoinStart(first: string, rest: seq<string>)
    requires first != ""
    ensures Join([first] + rest, "\n\n") != ""
  {
  }

  /** No strategy asks more often than its limit, however the model behaves. */
  lemma CallsAreBounded(s: Session, config: Config, messages: seq<string>, wording: Wording, previous: Option<string>,
                        summary: string, failure: Option<LlmError>)
    requires messages != [] && IsSummary(s, config, messages, wording, previous, summary, failure)
    ensures |s.asked| <= CallLimit(config, |messages|)
  {
    if config.strategy == SegmentedSummarize {
      hide IsRetryRun;
      var chunks := Chunks(messages, Max(config.segmentSize, 1));
      var trace, used :| IsRun(s.replies, config.maxRetries, s.from, chunks, wording.segment, trace, used)
        && SegmentsCameTo(s, trace, summary, failure);
      ChunksCover(messages, Max(config.segmentSize, 1));
      SegmentCallsAreBounded(s.replies, config.maxRetries, s.from, chunks, wording.segment, trace, used, |chunks|);
    }
  }

  lemma {:induction false} SegmentCallsAreBounded(replies: nat -> Reply, maxRetries: nat, from: nat,
      chunks: seq<seq<string>>,
      promptFor: (seq<string>, nat) -> string, trace: seq<Progress>, used: seq<nat>, k: nat)
    requires IsRun(replies, maxRetries, from, chunks, promptFor, trace, used) && k <= |chunks|
    ensures trace[k].calls <= from + k * Max(1, maxRetries)
  {
    if k == 0 {
    } else {
      SegmentCallsAreBounded(replies, maxRetries, from, chunks, promptFor, trace, used, k - 1);
      var bound := Max(1, maxRetries);
      assert k * bound == (k - 1) * bound + bound;
      assert IsStep(replies, maxRetries, chunks, promptFor, trace, used, k - 1);
    }
  }

  /** Where the summary comes from: the last reply, one for each segment, or the last reply and the kept messages. */
  ghost predicate ShowsReplies(s: Session, config: Config, messages: seq<string>, wording: Wording,
      previous: Option<string>, summary: string, failure: Option<LlmError>)
  {
    var calls := s.from + |s.asked|;
    match config.strategy
    case Summarize =>
      && calls > 0 && Stands(s.replies(calls - 1), |messages|, summary, failure)
      && (previous.Some? && previous.value != "" ==>
        forall p :: p in s.asked ==> p == wording.update(messages, previous.value))
      && (previous == None || previous == Some("") ==> forall p :: p in s.asked ==> p == wording.summarize(messages))
    case SegmentedSummarize =>
      ShowsSegments(s.replies, config.maxRetries, s.from, Chunks(messages, Max(config.segmentSize, 1)),
        wording.segment, summary, failure)
    case SelectiveRetain =>
      var kept := Retained(messages, wording.score, wording.quota(|messages|));
      && ShowsSelection(s.replies, calls, messages, kept, summary, failure)
      && AsksForRest(s.asked, messages, kept, wording.summarize)
  }

  /** The summary of each strategy shows what the model answered. */
  lemma SummaryShowsReplies(s: Session, config: Config, messages: seq<string>, wording: Wording,
      previous: Option<string>, summary: string, failure: Option<LlmError>)
    requires IsSummary(s, config, messages, wording, previous, summary, failure)
    ensures ShowsReplies(s, config, messages, wording, previous, summary, failure)
  {
    hide IsRetryRun, IsRun, Stands, TextOf, FailureOf, IsSelective, ShowsSelection, ShowsSegments, Retained, Stitch;
    match config.strategy
    case Summarize =>
      OutcomeStands(s.replies(s.from + |s.asked| - 1), messages);
    case SegmentedSummarize =>
      var chunks := Chunks(messages, Max(config.segmentSize, 1));
      var trace: seq<Progress>, used: seq<nat> :|
        IsRun(s.replies, config.maxRetries, s.from, chunks, wording.segment, trace, used)
        && SegmentsCameTo(s, trace, summary, failure);
      RunShows(s.replies, config.maxRetries, s.from, chunks, wording.segment, trace, used);
      RunLength(s.replies, config.maxRetries, s.from, chunks, wording.segment, trace, used);
    case SelectiveRetain =>
      var kept := Retained(messages, wording.score, wording.quota(|messages|));
      SelectionShows(s.replies, s.from, config.maxRetries, messages, kept, |s.asked|, summary, failure);
      RestIsAsked(|s.asked|, messages, kept, wording.summarize);
  }

  lemma WholeShowsLast(s: Session, config: Config, messages: seq<string>, wording: Wording,
      previous: Option<string>, summary: string, failure: Option<LlmError>)
    requires config.strategy == Summarize && ShowsReplies(s, config, messages, wording, previous, summary, failure)
    ensures s.from + |s.asked| > 0
    ensures failure == None ==> s.replies(s.from + |s.asked| - 1) == Summary(summary)
    ensures failure.Some? ==> summary == Placeholder(|messages|)
  {
  }

  lemma RunLength(replies: nat -> Reply, maxRetries: nat, from: nat, chunks: seq<seq<string>>,
      promptFor: (seq<string>, nat) -> string, trace: seq<Progress>, used: seq<nat>)
    requires IsRun(replies, maxRetries, from, chunks, promptFor, trace, used)
    ensures |trace| == |chunks| + 1
  {
  }

  // ---------------------------------------------------------------------------
  // The call
  // ---------------------------------------------------------------------------

  /** What the result tells about a compaction of the first `count` messages. */
  predicate Describes(r: CompactionResult, messages: seq<string>, count: nat, failure: Option<LlmError>)
    requires count <= |messages|
  {
    && r.messagesCompacted == count
    && r.summaryTokens == EstimateTokens(r.summary)
    && r.tokensSaved == SatSub(SumEstimates(messages[..count]), r.summaryTokens)
    && r.outcome == if failure == None then Summarized else Fallback(failure)
  }

  class CompactionEngine {
    const config: Config
    const wording: Wording
    const llm: Option<Llm>

    constructor (config: Config, wording: Wording, llm: Option<Llm>)
      ensures this.config == config && this.wording == wording && this.llm == llm
    {
      this.config, this.wording, this.llm := config, wording, llm;
    }

    method SummarizeAll(model: Llm, messages: seq<string>, previous: Option<string>)
        returns (summary: string, failure: Option<LlmError>, ghost asked: seq<string>)
      modifies model
      ensures model.prompts == old(model.prompts) + asked && model.calls == old(model.calls) + |asked|
      ensures IsWhole(Session(model.replies, old(model.calls), asked), config.maxRetries, messages,
        WholePrompt(wording, messages, previous), summary, failure)
    {
      hide IsRetryRun;
      var prompt := if previous.Some? && previous.value != "" then wording.update(messages, previous.value)
                    else wording.summarize(messages);
      ghost var from := model.calls;
      var result := CallWithRetry(model, prompt, config.maxRetries);
      asked := Repeat(prompt, model.calls - from);
      summary, failure := TextOf(result, messages), FailureOf(result);
    }

    /** The configured strategy, applied to the messages before the retained window. */
    method ApplyStrategy(model: Llm, messages: seq<string>, previous: Option<string>)
        returns (summary: string, failure: Option<LlmError>, ghost asked: seq<string>)
      modifies model
      ensures model.prompts == old(model.prompts) + asked && model.calls == old(model.calls) + |asked|
      ensures IsSummary(Session(model.replies, old(model.calls), asked), config, messages, wording, previous, summary,
        failure)
    {
      hide IsWhole, IsSelective, IsRun, Retained;
      ghost var from := model.calls;
      match config.strategy
      case Summarize =>
        summary, failure, asked := SummarizeAll(model, messages, previous);
      case SegmentedSummarize =>
        ghost var trace, used;
        summary, failure, trace, used := SummarizeSegments(model, messages, config.segmentSize, config.maxRetries,
          wording.segment);
        EveryCallAsks(model.replies, config.maxRetries, from, Chunks(messages, Max(config.segmentSize, 1)),
          wording.segment, trace, used);
        asked := trace[|trace| - 1].prompts;
        assert SegmentsCameTo(Session(model.replies, from, asked), trace, summary, failure);
      case SelectiveRetain =>
        summary, failure := SelectiveRetention.SelectiveRetain(
          model, messages, config.maxRetries, wording.score, wording.quota(|messages|), wording.summarize);
        ghost var kept := Retained(messages, wording.score, wording.quota(|messages|));
        asked := Repeat(wording.summarize(Rest(messages, kept)), model.calls - from);
    }

    /**
     Nothing happens within the retain window. Beyond it all older messages are compacted into a
     summary that is never empty, by a bounded number of calls, and the outcome says whether the
     model's answers sufficed. Without a model the placeholder stands in.
     */
    method CompactAsync(messages: seq<string>, retainWindow: nat, previous: Option<string>)
        returns (r: CompactionResult, ghost asked: seq<string>)
      modifies if llm.Some? then {llm.value} else {}
      ensures |messages| <= retainWindow ==>
        r == CompactionResult("", 0, 0, 0, Noop) && (llm.Some? ==> llm.value.prompts == old(llm.value.prompts))
      ensures |messages| > retainWindow ==> r.summary != "" && r.outcome != Noop
      ensures |messages| > retainWindow && llm == None ==>
        r == CompactWithRetain(messages, retainWindow, config.strategy).(outcome :=
          Fallback(Some(LlmError(Deterministic, "compaction LLM is not configured"))))
      ensures |messages| > retainWindow && llm.Some? ==>
        var count, model := |messages| - retainWindow, llm.value;
        && model.prompts == old(model.prompts) + asked && |asked| <= CallLimit(config, count)
        && exists failure :: Describes(r, messages, count, failure)
             && IsSummary(Session(model.replies, old(model.calls), asked), config, messages[..count], wording,
               previous, r.summary, failure)
             && ShowsReplies(Session(model.replies, old(model.calls), asked), config, messages[..count], wording,
               previous, r.summary, failure)
      ensures |messages| > retainWindow && llm.Some? && config.strategy == Summarize ==>
        var count, model := |messages| - retainWindow, llm.value;
        && model.calls > 0
        && (r.outcome == Summarized ==> model.replies(model.calls - 1) == Summary(r.summary))
        && (r.outcome != Summarized ==> r.summary == Placeholder(count))
    {
      hide ShowsReplies, IsSummary, EstimateTokens, SumEstimates;
      asked := [];
      if |messages| <= retainWindow {
        r := CompactionResult("", 0, 0, 0, Noop);
        return;
      }
      var toCompact := |messages| - retainWindow;
      var compacted := messages[..toCompact];
      var originalTokens := SumEstimates(compacted);
      if llm == None {
        r := CompactWithRetain(messages, retainWindow, config.strategy);
        r := r.(outcome := Fallback(Some(NO_MODEL)));
        return;
      }
      var model := llm.value;
      ghost var from := model.calls;
      var summary, failure;
      summary, failure, asked := ApplyStrategy(model, compacted, previous);
      ghost var session := Session(model.replies, from, asked);
      SummaryIsNeverEmpty(session, config, compacted, wording, previous, summary, failure);
      CallsAreBounded(session, config, compacted, wording, previous, summary, failure);
      var summaryTokens := EstimateTokens(summary);
      r := CompactionResult(summary, toCompact, SatSub(originalTokens, summaryTokens), summaryTokens,
        if failure == None then Summarized else Fallback(failure));
      assert Describes(r, messages, toCompact, failure);
      SummaryShowsReplies(session, config, compacted, wording, previous, summary, failure);
      if config.strategy == Summarize {
        WholeShowsLast(session, config, compacted, wording, previous, summary, failure);
      }
    }
  }

  /** A segmented run uses one answer for each prompt it asked. */
  lemma EveryCallAsks(replies: nat -> Reply, maxRetries: nat, from: nat, chunks: seq<seq<string>>,
      promptFor: (seq<string>, nat) -> string, trace: seq<Progress>, used: seq<nat>)
    requires IsRun(replies, maxRetries, from, chunks, promptFor, trace, used)
    ensures |trace| > 0 && trace[|trace| - 1].calls == from + |trace[|trace| - 1].prompts|
  {
    CallsMatchPrompts(replies, maxRetries, from, chunks, promptFor, trace, used, |chunks|);
  }

  lemma {:induction false} CallsMatchPrompts(replies: nat -> Reply, maxRetries: nat, from: nat,
      chunks: seq<seq<string>>,
      promptFor: (seq<string>, nat) -> string, trace: seq<Progress>, used: seq<nat>, k: nat)
    requires IsRun(replies, maxRetries, from, chunks, promptFor, trace, used) && k <= |chunks|
    ensures trace[k].calls == from + |trace[k].prompts|
  {
    if k == 0 {
    } else {
      hide IsRetryRun;
      CallsMatchPrompts(replies, maxRetries, from, chunks, promptFor, trace, used, k - 1);
      assert IsStep(replies, maxRetries, chunks, promptFor, trace, used, k - 1);
    }
  }
}
