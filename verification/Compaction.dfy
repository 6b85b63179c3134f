/** Summarising old messages through an unreliable model (`y-context/src/compaction.rs`). */
module Compaction {
  import opened Numbers
  import opened Text
  import opened Wrappers

  datatype FailureClass = Deterministic | Transient

  datatype LlmError = LlmError(failureClass: FailureClass, message: string)

  /** One answer of the model. */
  datatype Reply = Summary(text: string) | Failed(error: LlmError)
  {
    predicate IsUsable() {
      Summary? && !IsBlank(text)
    }

    predicate IsDeterministicFailure() {
      Failed? && error.failureClass == Deterministic
    }

    /** What a retry loop makes of this reply if it is the last one it sees. */
    function Outcome(): Result<string, LlmError> {
      match this
      case Summary(text) =>
        if IsBlank(text) then Err(LlmError(Transient, "compaction LLM returned an empty summary")) else Ok(text)
      case Failed(error) => Err(error)
    }

    predicate Stops() {
      IsUsable() || IsDeterministicFailure()
    }
  }

  /** The model: whatever it is asked, its `n`th answer is `replies(n)`. */
  class Llm {
    const replies: nat -> Reply
    var calls: nat
    ghost var prompts: seq<string>

    constructor (replies: nat -> Reply)
      ensures this.replies == replies && calls == 0 && prompts == []
    {
      this.replies := replies;
      calls := 0;
      prompts := [];
    }

    method Summarize(prompt: string) returns (r: Reply)
      modifies this
      ensures r == replies(old(calls)) && calls == old(calls) + 1 && prompts == old(prompts) + [prompt]
    {
      r := replies(calls);
      calls := calls + 1;
      prompts := prompts + [prompt];
    }
  }

  // ---------------------------------------------------------------------------
  // Retry
  // ---------------------------------------------------------------------------

  /** A retry loop that starts at answer `from` uses exactly `n` answers. */
  ghost predicate IsRetryRun(replies: nat -> Reply, from: nat, maxRetries: nat, n: nat) {
    && 1 <= n <= Max(1, maxRetries)
    && (forall k :: from <= k < from + n - 1 ==> !replies(k).Stops())
    && (n < Max(1, maxRetries) ==> replies(from + n - 1).Stops())
  }

  function Repeat(s: string, n: nat): seq<string> {
    seq(n, _ => s)
  }

  lemma RetryRunIsUnique(replies: nat -> Reply, from: nat, maxRetries: nat, m: nat, n: nat)
    requires IsRetryRun(replies, from, maxRetries, m) && IsRetryRun(replies, from, maxRetries, n)
    ensures m == n
  {
  }

  /** At most `max(1, maxRetries)` calls, stopping at the first usable reply or deterministic error. */
  method CallWithRetry(llm: Llm, prompt: string, maxRetries: u32) returns (r: Result<string, LlmError>)
    modifies llm
    ensures llm.calls > old(llm.calls)
    ensures IsRetryRun(llm.replies, old(llm.calls), maxRetries, llm.calls - old(llm.calls))
    ensures r == llm.replies(llm.calls - 1).Outcome()
    ensures llm.prompts == old(llm.prompts) + Repeat(prompt, llm.calls - old(llm.calls))
  {
    var attempts := Max(maxRetries, 1);
    var lastError := LlmError(Transient, "compaction LLM returned no result");
    ghost var from := llm.calls;
    for attempt := 0 to attempts
      invariant llm.calls == from + attempt
      invariant forall k :: from <= k < from + attempt ==> !llm.replies(k).Stops()
      invariant attempt > 0 ==> llm.replies(from + attempt - 1).Outcome() == Err(lastError)
      invariant llm.prompts == old(llm.prompts) + Repeat(prompt, attempt)
    {
      var reply := llm.Summarize(prompt);
      assert Repeat(prompt, attempt + 1) == Repeat(prompt, attempt) + [prompt];
      match reply
      case Summary(text) =>
        if !IsBlank(text) {
          return Ok(text);
        }
        lastError := LlmError(Transient, "compaction LLM returned an empty summary");
      case Failed(error) =>
        if error.failureClass == Deterministic {
          return Err(error);
        }
        lastError := error;
    }
    r := Err(lastError);
  }

  /**
   The retry loop succeeds exactly when some answer it may ask for is usable and none before it is a
   deterministic error.
   */
  lemma RetrySucceedsIff(replies: nat -> Reply, from: nat, maxRetries: nat, n: nat)
    requires IsRetryRun(replies, from, maxRetries, n)
    ensures replies(from + n - 1).Outcome().Ok? <==>
      exists k :: from <= k < from + Max(1, maxRetries) && replies(k).IsUsable()
        && forall j :: from <= j < k ==> !replies(j).IsDeterministicFailure()
  {
    var last := from + n - 1;
    if replies(last).Outcome().Ok? {
      assert replies(last).IsUsable() && from <= last < from + Max(1, maxRetries);
    }
    assert forall k :: from <= k < last ==> !replies(k).Stops();
  }

  // ---------------------------------------------------------------------------
  // Segments
  // ---------------------------------------------------------------------------

  /** `messages.chunks(size)` */
  function Chunks(messages: seq<string>, size: nat): seq<seq<string>>
    requires size > 0
  {
    if |messages| == 0 then []
    else if |messages| <= size then [messages]
    else [messages[..size]] + Chunks(messages[size..], size)
  }

  function Concat(chunks: seq<seq<string>>): seq<string> {
    if chunks == [] then [] else chunks[0] + Concat(chunks[1..])
  }

  /** The chunks cover all messages in order, ceil(n / size) of them, all full but the last. */
  lemma {:induction false} ChunksCover(messages: seq<string>, size: nat)
    requires size > 0
    ensures var chunks := Chunks(messages, size);
      && Concat(chunks) == messages
      && |chunks| == DivCeil(|messages|, size)
      && forall k :: 0 <= k < |chunks| ==> 0 < |chunks[k]| <= size && (k < |chunks| - 1 ==> |chunks[k]| == size)
  {
    if 0 < |messages| <= size {
      assert Concat([messages]) == messages + Concat([]);
      assert messages + [] == messages;
      CeilOfOne(|messages|, size);
    } else if |messages| > size {
      var rest := messages[size..];
      ChunksCover(rest, size);
      assert Chunks(messages, size)[1..] == Chunks(rest, size);
      CeilStep(|messages|, size);
    } else {
      assert (size - 1) / size == 0;
    }
  }

  lemma CeilOfOne(n: nat, d: nat)
    requires 0 < n <= d
    ensures DivCeil(n, d) == 1
  {
    var m := n + d - 1;
    assert m == d + (n - 1);
    DivUnique(m, d, 1, n - 1);
  }

  lemma CeilStep(n: nat, d: nat)
    requires n > d > 0
    ensures DivCeil(n, d) == 1 + DivCeil(n - d, d)
  {
    var m := n - d + d - 1;
    assert (m / d + 1) * d == (m / d) * d + d;
    DivUnique(n + d - 1, d, m / d + 1, m % d);
  }

  /** The three bytes of an em dash. */
  const EM_DASH := "\U{E2}\U{80}\U{94}"

  function TruncateFallback(messages: seq<string>): string {
    "[Compacted " + Decimal(|messages|) + " messages " + EM_DASH + " LLM unavailable]"
  }

  /** The segment loop after some chunks: the answers used, the segments so far, and its two flags. */
  datatype Progress = Progress(calls: nat, prompts: seq<string>, segments: seq<string>, failure: Option<LlmError>,
      stopped: bool)

  const START := Progress(0, [], [], None, false)

  /** How one chunk moves the loop on, if its retry run takes `n` answers. */
  function Advance(replies: nat -> Reply, p: Progress, chunk: seq<string>, prompt: string, n: nat): Progress
    requires n > 0
  {
    if p.stopped then p.(segments := p.segments + [TruncateFallback(chunk)])
    else
      var last := replies(p.calls + n - 1);
      var next := p.(calls := p.calls + n, prompts := p.prompts + Repeat(prompt, n));
      match last.Outcome()
      case Ok(text) => next.(segments := p.segments + [text])
      case Err(error) => next.(
        segments := p.segments + [TruncateFallback(chunk)],
        failure := if p.failure == None then Some(error) else p.failure,
        stopped := error.failureClass == Deterministic)
  }

  /** A whole run of the loop: `trace[k]` is its progress before chunk `k`, `used[k]` the answers chunk `k` took. */
  ghost predicate IsRun(replies: nat -> Reply, maxRetries: nat, from: nat, chunks: seq<seq<string>>,
                        promptFor: (seq<string>, nat) -> string, trace: seq<Progress>, used: seq<nat>) {
    && |trace| == |chunks| + 1 && |used| == |chunks|
    && trace[0] == START.(calls := from)
    && forall k :: 0 <= k < |chunks| ==> IsStep(replies, maxRetries, chunks, promptFor, trace, used, k)
  }

  ghost predicate IsStep(replies: nat -> Reply, maxRetries: nat, chunks: seq<seq<string>>,
                         promptFor: (seq<string>, nat) -> string, trace: seq<Progress>, used: seq<nat>, k: nat)
    requires |trace| == |chunks| + 1 && |used| == |chunks| && k < |chunks|
  {
    && used[k] > 0
    && (!trace[k].stopped ==> IsRetryRun(replies, trace[k].calls, maxRetries, used[k]))
    && trace[k + 1] == Advance(replies, trace[k], chunks[k], promptFor(chunks[k], k + 1), used[k])
  }

  /** "[Segment i] text", separated by blank lines. */
  function Stitch(segments: seq<string>): string {
    if segments == [] then ""
    else
      var n := |segments|;
      (if n > 1 then Stitch(segments[..n - 1]) + "\n\n" else "") + ("[Segment " + Decimal(n) + "] " + segments[n - 1])
  }

  method SummarizeSegments(llm: Llm, messages: seq<string>, segmentSize: nat, maxRetries: u32,
      promptFor: (seq<string>, nat) -> string)
      returns (summary: string, failure: Option<LlmError>, ghost trace: seq<Progress>, ghost used: seq<nat>)
    modifies llm
    ensures IsRun(llm.replies, maxRetries, old(llm.calls), Chunks(messages, Max(segmentSize, 1)), promptFor, trace,
      used)
    ensures var end := trace[|trace| - 1];
      && summary == Stitch(end.segments) && failure == end.failure
      && llm.calls == end.calls && llm.prompts == old(llm.prompts) + end.prompts
  {
    hide Stitch, Chunks, IsRetryRun, Repeat, TruncateFallback;
    var chunks := Chunks(messages, Max(segmentSize, 1));
    var segments := [];
    failure := None;
    var deterministicFailure := false;
    trace, used := [START.(calls := llm.calls)], [];
    for k := 0 to |chunks|
      invariant |trace| == k + 1 && |used| == k
      invariant trace[0] == START.(calls := old(llm.calls))
      invariant IsRun(llm.replies, maxRetries, old(llm.calls), chunks[..k], promptFor, trace, used)
      invariant |segments| == k
      invariant trace[k] == Progress(llm.calls, trace[k].prompts, segments, failure, deterministicFailure)
      invariant llm.prompts == old(llm.prompts) + trace[k].prompts
    {
      var segment;
      ghost var n := 1;
      ghost var before := trace[k];
      if deterministicFailure {
        segment := TruncateFallback(chunks[k]);
      } else {
        ghost var from := llm.calls;
        var result := CallWithRetry(llm, promptFor(chunks[k], |segments| + 1), maxRetries);
        n := llm.calls - from;
        match result
        case Ok(text) => segment := text;
        case Err(error) =>
          deterministicFailure := error.failureClass == Deterministic;
          if failure == None {
            failure := Some(error);
          }
          segment := TruncateFallback(chunks[k]);
      }
      segments := segments + [segment];
      ExtendRun(llm.replies, maxRetries, old(llm.calls), chunks, k, promptFor, trace, used, n);
      trace := trace + [Advance(llm.replies, before, chunks[k], promptFor(chunks[k], k + 1), n)];
      used := used + [n];
    }
    assert chunks[..|chunks|] == chunks;
    summary := StitchSegments(segments);
  }

  method StitchSegments(segments: seq<string>) returns (summary: string)
    ensures summary == Stitch(segments)
  {
    summary := "";
    for i := 0 to |segments|
      invariant summary == Stitch(segments[..i])
    {
      assert segments[..i + 1][..i] == segments[..i];
      if i > 0 {
        summary := summary + "\n\n";
      }
      summary := summary + ("[Segment " + Decimal(i + 1) + "] " + segments[i]);
    }
    assert segments[..|segments|] == segments;
  }

  lemma ExtendRun(replies: nat -> Reply, maxRetries: nat, from: nat, chunks: seq<seq<string>>, k: nat,
                  promptFor: (seq<string>, nat) -> string, trace: seq<Progress>, used: seq<nat>, n: nat)
    requires k < |chunks| && n > 0
    requires IsRun(replies, maxRetries, from, chunks[..k], promptFor, trace, used)
    requires !trace[k].stopped ==> IsRetryRun(replies, trace[k].calls, maxRetries, n)
    ensures IsRun(replies, maxRetries, from, chunks[..k + 1], promptFor,
      trace + [Advance(replies, trace[k], chunks[k], promptFor(chunks[k], k + 1), n)], used + [n])
  {
    hide Advance, IsRetryRun;
    var t := trace + [Advance(replies, trace[k], chunks[k], promptFor(chunks[k], k + 1), n)];
    var u, front := used + [n], chunks[..k + 1];
    forall j | 0 <= j <= k ensures IsStep(replies, maxRetries, front, promptFor, t, u, j) {
      assert front[j] == chunks[j];
      if j < k {
        assert IsStep(replies, maxRetries, chunks[..k], promptFor, trace, used, j);
        assert chunks[..k][j] == chunks[j];
      }
    }
  }

  // ---------------------------------------------------------------------------
  // What a run guarantees
  // ---------------------------------------------------------------------------

  /** Segment `k` is the text of a usable reply that its own retry run received. */
  ghost predicate SegmentIsReply(replies: nat -> Reply, trace: seq<Progress>, used: seq<nat>, k: nat)
    requires k < |used| && |trace| == |used| + 1 && used[k] > 0 && |trace[|used|].segments| == |used|
  {
    var last := replies(trace[k].calls + used[k] - 1);
    !trace[k].stopped && last.IsUsable() && trace[|used|].segments[k] == last.text
  }

  /** Segments are added one per chunk and never change afterwards; a failure, once noted, stays. */
  lemma {:induction false} SegmentsAccumulate(replies: nat -> Reply, maxRetries: nat, from: nat,
      chunks: seq<seq<string>>,
      promptFor: (seq<string>, nat) -> string, trace: seq<Progress>, used: seq<nat>, k: nat, n: nat)
    requires IsRun(replies, maxRetries, from, chunks, promptFor, trace, used) && k <= n <= |chunks|
    ensures |trace[k].segments| == k && |trace[n].segments| == n && trace[k].segments == trace[n].segments[..k]
    ensures trace[k].failure.Some? ==> trace[n].failure == trace[k].failure
    ensures trace[k].stopped ==> trace[n].stopped && trace[n].calls == trace[k].calls
    decreases n
  {
    if n == 0 {
    } else {
      assert IsStep(replies, maxRetries, chunks, promptFor, trace, used, n - 1);
      SegmentsAccumulate(replies, maxRetries, from, chunks, promptFor, trace, used, Min(k, n - 1), n - 1);
    }
  }

  /** Replies, chunks and prompts determine the run: how many answers each chunk took, and all that comes of them. */
  lemma {:induction false} RunIsDetermined(replies: nat -> Reply, maxRetries: nat, from: nat, chunks: seq<seq<string>>,
      promptFor: (seq<string>, nat) -> string, trace: seq<Progress>, used: seq<nat>, other: seq<Progress>,
        spent: seq<nat>, k: nat)
    requires IsRun(replies, maxRetries, from, chunks, promptFor, trace, used)
    requires IsRun(replies, maxRetries, from, chunks, promptFor, other, spent) && k <= |chunks|
    ensures trace[k] == other[k]
    ensures k < |chunks| && !trace[k].stopped ==> used[k] == spent[k]
  {
    hide IsRetryRun;
    if k == 0 {
    } else {
      RunIsDetermined(replies, maxRetries, from, chunks, promptFor, trace, used, other, spent, k - 1);
      assert IsStep(replies, maxRetries, chunks, promptFor, trace, used, k - 1);
      assert IsStep(replies, maxRetries, chunks, promptFor, other, spent, k - 1);
    }
    if k < |chunks| && !trace[k].stopped {
      assert IsStep(replies, maxRetries, chunks, promptFor, trace, used, k);
      assert IsStep(replies, maxRetries, chunks, promptFor, other, spent, k);
      RetryRunIsUnique(replies, trace[k].calls, maxRetries, used[k], spent[k]);
    }
  }

  /** No call is made after a deterministic error: every later segment is its chunk's fallback. */
  lemma NothingIsAskedAfterDeterministicError(replies: nat -> Reply, maxRetries: nat, from: nat,
      chunks: seq<seq<string>>,
      promptFor: (seq<string>, nat) -> string, trace: seq<Progress>, used: seq<nat>, k: nat, j: nat)
    requires IsRun(replies, maxRetries, from, chunks, promptFor, trace, used)
    requires k < j < |chunks| && !trace[k].stopped && used[k] > 0 &&
      replies(trace[k].calls + used[k] - 1).IsDeterministicFailure()
    ensures trace[|chunks|].calls == trace[k].calls + used[k]
    ensures |trace[|chunks|].segments| == |chunks| && trace[|chunks|].segments[j] == TruncateFallback(chunks[j])
  {
    assert IsStep(replies, maxRetries, chunks, promptFor, trace, used, k);
    assert IsStep(replies, maxRetries, chunks, promptFor, trace, used, j);
    assert trace[k + 1].stopped;
    SegmentsAccumulate(replies, maxRetries, from, chunks, promptFor, trace, used, k + 1, j);
    SegmentsAccumulate(replies, maxRetries, from, chunks, promptFor, trace, used, k + 1, |chunks|);
    SegmentsAccumulate(replies, maxRetries, from, chunks, promptFor, trace, used, j + 1, |chunks|);
    assert trace[j + 1].segments[j] == TruncateFallback(chunks[j]);
  }

  /** A run reports no failure exactly when every segment is a usable reply of the model. */
  lemma {:induction false} NoFailureIffAllSegmentsAreReplies(replies: nat -> Reply, maxRetries: nat, from: nat,
      chunks: seq<seq<string>>,
      promptFor: (seq<string>, nat) -> string, trace: seq<Progress>, used: seq<nat>)
    requires IsRun(replies, maxRetries, from, chunks, promptFor, trace, used)
    ensures |trace[|chunks|].segments| == |chunks|
    ensures forall k :: 0 <= k < |chunks| ==> used[k] > 0
    ensures trace[|chunks|].failure == None <==>
      forall k :: 0 <= k < |chunks| ==> SegmentIsReply(replies, trace, used, k)
  {
    var n := |chunks|;
    SegmentsAccumulate(replies, maxRetries, from, chunks, promptFor, trace, used, n, n);
    forall k | 0 <= k < n ensures used[k] > 0 {
      assert IsStep(replies, maxRetries, chunks, promptFor, trace, used, k);
    }
    if trace[n].failure == None {
      forall k | 0 <= k < n ensures SegmentIsReply(replies, trace, used, k) {
        assert IsStep(replies, maxRetries, chunks, promptFor, trace, used, k);
        SegmentsAccumulate(replies, maxRetries, from, chunks, promptFor, trace, used, k, n);
        SegmentsAccumulate(replies, maxRetries, from, chunks, promptFor, trace, used, k + 1, n);
        StoppedHasFailed(replies, maxRetries, from, chunks, promptFor, trace, used, k);
        assert trace[k + 1].segments[k] == trace[n].segments[k];
      }
    } else {
      var k := FirstFailure(replies, maxRetries, from, chunks, promptFor, trace, used, n);
      assert IsStep(replies, maxRetries, chunks, promptFor, trace, used, k);
      assert !SegmentIsReply(replies, trace, used, k);
    }
  }

  lemma {:induction false} StoppedHasFailed(replies: nat -> Reply, maxRetries: nat, from: nat, chunks: seq<seq<string>>,
      promptFor: (seq<string>, nat) -> string, trace: seq<Progress>, used: seq<nat>, k: nat)
    requires IsRun(replies, maxRetries, from, chunks, promptFor, trace, used) && k <= |chunks|
    ensures trace[k].stopped ==> trace[k].failure.Some?
  {
    if k == 0 {
    } else {
      assert IsStep(replies, maxRetries, chunks, promptFor, trace, used, k - 1);
      StoppedHasFailed(replies, maxRetries, from, chunks, promptFor, trace, used, k - 1);
    }
  }

  lemma {:induction false} FirstFailure(replies: nat -> Reply, maxRetries: nat, from: nat, chunks: seq<seq<string>>,
      promptFor: (seq<string>, nat) -> string, trace: seq<Progress>, used: seq<nat>, n: nat) returns (k: nat)
    requires IsRun(replies, maxRetries, from, chunks, promptFor, trace, used)
    requires n <= |chunks| && trace[n].failure.Some?
    ensures k < n && trace[k].failure == None && trace[k + 1].failure.Some?
  {
    assert n > 0;
    if trace[n - 1].failure == None {
      k := n - 1;
    } else {
      k := FirstFailure(replies, maxRetries, from, chunks, promptFor, trace, used, n - 1);
    }
  }

  // ---------------------------------------------------------------------------
  // Synchronous compaction
  // ---------------------------------------------------------------------------

  datatype Strategy = Summarize | SegmentedSummarize | SelectiveRetain
  {
    function Name(): string {
      match this
      case Summarize => "Summarize"
      case SegmentedSummarize => "SegmentedSummarize"
      case SelectiveRetain => "SelectiveRetain"
    }
  }

  datatype CompactionOutcome = Noop | Summarized | Fallback(failure: Option<LlmError>)

  datatype CompactionResult = CompactionResult(
    summary: string, messagesCompacted: nat, tokensSaved: u32, summaryTokens: u32, outcome: CompactionOutcome)

  /** A `u32` sum of estimates, which wraps when it leaves the type. */
  function SumEstimates(messages: seq<string>): u32 {
    if messages == [] then 0
    else Wrap32(SumEstimates(messages[..|messages| - 1]) + EstimateTokens(messages[|messages| - 1]))
  }

  /** The sum of the estimates, as far as it fits 32 bits. */
  lemma {:induction false} EstimatesAddUp(a: seq<string>, b: seq<string>)
    ensures SumEstimates(a + b) == Wrap32(SumEstimates(a) + SumEstimates(b))
    ensures |b| == 1 ==> SumEstimates(b) == EstimateTokens(b[0])
  {
    hide *;
    if b == [] {
      assert a + b == a;
      NothingToSum(a);
    } else {
      var front, last := b[..|b| - 1], b[|b| - 1];
      EstimatesAddUp(a, front);
      EstimatesAddUpMore(a, front, last);
      assert b == front + [last];
      if |b| == 1 {
        SumUnfolds(front, last);
        assert b == [last];
      }
    }
  }

  lemma EstimatesAddUpMore(a: seq<string>, b: seq<string>, last: string)
    requires SumEstimates(a + b) == Wrap32(SumEstimates(a) + SumEstimates(b))
    ensures SumEstimates(a + (b + [last])) == Wrap32(SumEstimates(a) + SumEstimates(b + [last]))
  {
    hide *;
    assert a + (b + [last]) == a + b + [last];
    SumUnfolds(a + b, last);
    SumUnfolds(b, last);
    WrapThree(SumEstimates(a), SumEstimates(b), EstimateTokens(last));
  }

  lemma NothingToSum(a: seq<string>)
    ensures Wrap32(SumEstimates(a) + SumEstimates([])) == SumEstimates(a)
  {
  }

  lemma WrapThree(a: nat, b: nat, c: nat)
    ensures Wrap32(Wrap32(a + b) + c) == Wrap32(a + Wrap32(b + c))
  {
    WrapOnce(a + b, c);
    WrapOnce(b + c, a);
    assert Wrap32(b + c) + a == a + Wrap32(b + c);
  }

  lemma SumUnfolds(a: seq<string>, last: string)
    ensures SumEstimates(a + [last]) == Wrap32(SumEstimates(a) + EstimateTokens(last))
    ensures SumEstimates([last]) == EstimateTokens(last)
  {
    hide EstimateTokens;
    assert (a + [last])[..|a|] == a;
    var none: seq<string> := [];
    assert [last][..0] == none && SumEstimates(none) == 0;
  }

  /** Wrapping a summand makes no difference to the wrapped sum. */
  lemma WrapOnce(a: nat, b: nat)
    ensures Wrap32(Wrap32(a) + b) == Wrap32(a + b)
  {
  }

  /** The placeholder compaction used when no model is at hand: all but the last `retainWindow` messages. */
  function CompactWithRetain(messages: seq<string>, retainWindow: nat, strategy: Strategy): (r: CompactionResult)
    ensures r.messagesCompacted == SatSub(|messages|, retainWindow)
    ensures r.messagesCompacted > 0 <==> r.summary != ""
    ensures r.summaryTokens == EstimateTokens(r.summary)
    ensures r.tokensSaved == SatSub(SumEstimates(messages[..r.messagesCompacted]), r.summaryTokens)
    ensures r.outcome == if r.messagesCompacted > 0 then Fallback(None) else Noop
  {
    if |messages| <= retainWindow then CompactionResult("", 0, 0, 0, Noop)
    else
      var toCompact := |messages| - retainWindow;
      var summary := "[Compacted " + Decimal(toCompact) + " messages using " + strategy.Name() + " strategy]";
      var tokens := EstimateTokens(summary);
      CompactionResult(summary, toCompact, SatSub(SumEstimates(messages[..toCompact]), tokens), tokens, Fallback(None))
  }
}
