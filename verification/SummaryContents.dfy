/** Where the text of a summary comes from, said of the model's replies and of the messages. */
module SummaryContents {
  import opened Compaction
  import opened Numbers
  import opened SelectiveRetention
  import opened Text
  import opened Wrappers

  // ---------------------------------------------------------------------------
  // One answer
  // ---------------------------------------------------------------------------

  /** What stands in for `count` messages that could not be summarised. */
  function Placeholder(count: nat): string {
    "[Compacted " + Decimal(count) + " messages \U{E2}\U{80}\U{94} LLM unavailable]"
  }

  /** What the last reply makes of `count` messages: its text, unless it is an error or all white space. */
  predicate Stands(reply: Reply, count: nat, text: string, failure: Option<LlmError>) {
    match reply
    case Failed(error) => text == Placeholder(count) && failure == Some(error)
    case Summary(answer) =>
      if exists c :: c in answer && !IsWhitespace(c) then text == answer && failure == None
      else
        text == Placeholder(count) &&
        failure == Some(LlmError(Transient, "compaction LLM returned an empty summary"))
  }

  lemma FallbackIsPlaceholder(messages: seq<string>)
    ensures TruncateFallback(messages) == Placeholder(|messages|)
  {
  }

  lemma BlankIff(answer: string)
    ensures IsBlank(answer) <==> !exists c :: c in answer && !IsWhitespace(c)
  {
  }

  lemma OutcomeStands(reply: Reply, messages: seq<string>)
    ensures Stands(reply, |messages|, TextOf(reply.Outcome(), messages), FailureOf(reply.Outcome()))
  {
    FallbackIsPlaceholder(messages);
    hide TruncateFallback, Placeholder, IsBlank, IsWhitespace;
    if reply.Summary? {
      BlankIff(reply.text);
    }
  }

  // ---------------------------------------------------------------------------
  // Selective retention
  // ---------------------------------------------------------------------------

  /** The numbers below `n` that are in `chosen`, in order. */
  ghost predicate ListsIn(places: seq<nat>, n: nat, chosen: set<nat>) {
    && (forall k, l :: 0 <= k < l < |places| ==> places[k] < places[l])
    && (forall k :: 0 <= k < |places| ==> places[k] < n)
    && forall i: nat :: i < n ==> (i in places <==> i in chosen)
  }

  /** Those that are not. */
  ghost predicate ListsOut(places: seq<nat>, n: nat, chosen: set<nat>) {
    && (forall k, l :: 0 <= k < l < |places| ==> places[k] < places[l])
    && (forall k :: 0 <= k < |places| ==> places[k] < n)
    && forall i: nat :: i < n ==> (i in places <==> i !in chosen)
  }

  lemma OneMorePlace(places: seq<nat>, n: nat)
    ensures forall i: nat :: i in places + [n] <==> i in places || i == n
  {
  }

  predicate AreAt(texts: seq<string>, messages: seq<string>, places: seq<nat>, tag: string) {
    && |texts| == |places|
    && forall k :: 0 <= k < |places| ==> places[k] < |messages| && texts[k] == tag + messages[places[k]]
  }

  lemma {:induction false} VerbatimAt(messages: seq<string>, kept: set<nat>) returns (places: seq<nat>)
    ensures ListsIn(places, |messages|, kept) && AreAt(Verbatim(messages, kept), messages, places, "[Retained] ")
  {
    places := [];
    if messages == [] {
    } else {
      var last := |messages| - 1;
      places := VerbatimAt(messages[..last], kept);
      OneMorePlace(places, last);
      if last in kept {
        places := places + [last];
      }
    }
  }

  lemma {:induction false} RestAt(messages: seq<string>, kept: set<nat>) returns (places: seq<nat>)
    ensures ListsOut(places, |messages|, kept) && AreAt(Rest(messages, kept), messages, places, "")
  {
    places := [];
    if messages == [] {
    } else {
      var last := |messages| - 1;
      places := RestAt(messages[..last], kept);
      OneMorePlace(places, last);
      assert "" + messages[last] == messages[last];
      if last !in kept {
        places := places + [last];
      }
    }
  }

  /**
   A paragraph from the last reply for the messages that are not kept, if any, and one for each
   message that is, in order.
   */
  ghost predicate ShowsSelection(replies: nat -> Reply, calls: nat, messages: seq<string>, kept: set<nat>,
      summary: string, failure: Option<LlmError>)
  {
    exists places, retained ::
      && ListsIn(places, |messages|, kept)
      && AreAt(retained, messages, places, "[Retained] ")
      && if |places| >= |messages| then summary == Join(retained, "\n\n") && failure == None
         else calls > 0 && OpensWith(replies(calls - 1), |messages| - |places|, retained, summary, failure)
  }

  /** The summary opens with the paragraph for `count` messages, which the reply is for. */
  ghost predicate OpensWith(reply: Reply, count: nat, retained: seq<string>, summary: string,
      failure: Option<LlmError>)
  {
    exists text ::
      && Stands(reply, count, text, failure)
      && summary == Join(["[Summary of less important messages] " + text] + retained, "\n\n")
  }

  lemma SelectionShows(replies: nat -> Reply, from: nat, maxRetries: nat, messages: seq<string>, kept: set<nat>,
      n: nat, summary: string, failure: Option<LlmError>)
    requires IsSelective(replies, from, maxRetries, messages, kept, n, summary, failure)
    ensures ShowsSelection(replies, from + n, messages, kept, summary, failure)
  {
    hide IsRetryRun, Stands, TextOf, FailureOf, Rest, Verbatim, AreAt, ListsIn;
    var places := VerbatimAt(messages, kept);
    var rest, retained := Rest(messages, kept), Verbatim(messages, kept);
    EveryMessageIsAccountedFor(messages, kept);
    AtHasLength(retained, messages, places, "[Retained] ");
    if rest != [] {
      var outcome := replies(from + n - 1).Outcome();
      OutcomeStands(replies(from + n - 1), rest);
      var text := TextOf(outcome, rest);
      assert Paragraphs(messages, kept, text) == ["[Summary of less important messages] " + text] + retained;
    }
  }

  lemma AtHasLength(texts: seq<string>, messages: seq<string>, places: seq<nat>, tag: string)
    requires AreAt(texts, messages, places, tag)
    ensures |texts| == |places|
  {
  }

  /** Every prompt asks for the messages that are not kept, in order. */
  ghost predicate AsksForRest(asked: seq<string>, messages: seq<string>, kept: set<nat>,
      promptFor: seq<string> -> string)
  {
    exists places, rest ::
      && ListsOut(places, |messages|, kept) && AreAt(rest, messages, places, "")
      && forall p :: p in asked ==> p == promptFor(rest)
  }

  lemma RestIsAsked(n: nat, messages: seq<string>, kept: set<nat>, promptFor: seq<string> -> string)
    ensures AsksForRest(Repeat(promptFor(Rest(messages, kept)), n), messages, kept, promptFor)
  {
    var places := RestAt(messages, kept);
  }

  // ---------------------------------------------------------------------------
  // Segments
  // ---------------------------------------------------------------------------

  function Labelled(segments: seq<string>): (r: seq<string>)
    ensures |r| == |segments|
  {
    seq(|segments|, k requires 0 <= k < |segments| => "[Segment " + Decimal(k + 1) + "] " + segments[k])
  }

  lemma StitchUnfolds(front: seq<string>, segment: string)
    ensures var line := "[Segment " + Decimal(|front| + 1) + "] " + segment;
      Stitch(front + [segment]) == if front == [] then line else Stitch(front) + "\n\n" + line
  {
    var line := "[Segment " + Decimal(|front| + 1) + "] " + segment;
    hide Decimal;
    assert (front + [segment])[..|front|] == front;
    assert "" + line == line;
  }

  /** The segments under their numbers, with blank lines between them. */
  lemma {:induction false} SegmentsAreJoined(segments: seq<string>)
    ensures Stitch(segments) == Join(Labelled(segments), "\n\n")
  {
    if segments == [] {
    } else {
      var n := |segments|;
      var front := segments[..n - 1];
      assert segments == front + [segments[n - 1]];
      SegmentsAreJoined(front);
      StitchUnfolds(front, segments[n - 1]);
      var line := "[Segment " + Decimal(n) + "] " + segments[n - 1];
      hide Stitch, Decimal;
      assert Labelled(segments) == Labelled(front) + [line];
      if front != [] {
        JoinAppend(Labelled(front), line, "\n\n");
      } else {
        assert Labelled(segments) == [line];
      }
    }
  }

  /** Before chunk `k` some chunk ended with a deterministic error. */
  ghost predicate HasGivenUp(replies: nat -> Reply, trace: seq<Progress>, used: seq<nat>, k: nat)
    requires k <= |used| && |trace| == |used| + 1
  {
    exists j :: 0 <= j < k && used[j] > 0 && !trace[j].stopped
      && replies(trace[j].calls + used[j] - 1).IsDeterministicFailure()
  }

  /**
   Segment `k`: what the last reply to its own prompts made of its chunk, or, once the loop has given
   up, its placeholder, for which nothing was asked.
   */
  ghost predicate SegmentStands(replies: nat -> Reply, chunks: seq<seq<string>>,
      promptFor: (seq<string>, nat) -> string, trace: seq<Progress>, used: seq<nat>, k: nat)
    requires k < |chunks| == |used| && |trace| == |used| + 1 && used[k] > 0 && |trace[|used|].segments| == |used|
  {
    var segment, reply := trace[|used|].segments[k], replies(trace[k].calls + used[k] - 1);
    var asked := seq(used[k], _ => promptFor(chunks[k], k + 1));
    if HasGivenUp(replies, trace, used, k) then
      && segment == Placeholder(|chunks[k]|) && trace[k + 1].failure == trace[k].failure
      && trace[k + 1].prompts == trace[k].prompts
    else
      && trace[k + 1].prompts == trace[k].prompts + asked
      && exists failure ::
        && Stands(reply, |chunks[k]|, segment, failure)
        && trace[k + 1].failure == if trace[k].failure == None then failure else trace[k].failure
  }

  lemma AdvanceStands(replies: nat -> Reply, p: Progress, chunk: seq<string>, prompt: string, n: nat)
    requires n > 0
    ensures var next := Advance(replies, p, chunk, prompt, n);
      && |next.segments| == |p.segments| + 1
      && (p.stopped ==>
        next.segments[|p.segments|] == Placeholder(|chunk|) && next.failure == p.failure && next.prompts == p.prompts)
      && (!p.stopped ==>
        var failure := FailureOf(replies(p.calls + n - 1).Outcome());
        && Stands(replies(p.calls + n - 1), |chunk|, next.segments[|p.segments|], failure)
        && next.failure == (if p.failure == None then failure else p.failure)
        && next.prompts == p.prompts + seq(n, _ => prompt))
      && (next.stopped <==> p.stopped || replies(p.calls + n - 1).IsDeterministicFailure())
  {
    hide Stands, Placeholder, TruncateFallback;
    FallbackIsPlaceholder(chunk);
    OutcomeStands(replies(p.calls + n - 1), chunk);
    assert Repeat(prompt, n) == seq(n, _ => prompt);
  }

  lemma {:induction false} StoppedIff(replies: nat -> Reply, maxRetries: nat, from: nat, chunks: seq<seq<string>>,
      promptFor: (seq<string>, nat) -> string, trace: seq<Progress>, used: seq<nat>, k: nat)
    requires IsRun(replies, maxRetries, from, chunks, promptFor, trace, used) && k <= |chunks|
    ensures trace[k].stopped <==> HasGivenUp(replies, trace, used, k)
  {
    if k == 0 {
    } else {
      hide Advance, IsRetryRun, Stands, Reply.IsDeterministicFailure;
      StoppedIff(replies, maxRetries, from, chunks, promptFor, trace, used, k - 1);
      assert IsStep(replies, maxRetries, chunks, promptFor, trace, used, k - 1);
      AdvanceStands(replies, trace[k - 1], chunks[k - 1], promptFor(chunks[k - 1], k), used[k - 1]);
    }
  }

  lemma SegmentsStand(replies: nat -> Reply, maxRetries: nat, from: nat, chunks: seq<seq<string>>,
      promptFor: (seq<string>, nat) -> string, trace: seq<Progress>, used: seq<nat>, k: nat)
    requires IsRun(replies, maxRetries, from, chunks, promptFor, trace, used) && k < |chunks|
    ensures |trace[|chunks|].segments| == |chunks| && used[k] > 0 &&
      SegmentStands(replies, chunks, promptFor, trace, used, k)
  {
    hide Advance, IsRetryRun, Stands, HasGivenUp;
    SegmentsAccumulate(replies, maxRetries, from, chunks, promptFor, trace, used, k, |chunks|);
    SegmentsAccumulate(replies, maxRetries, from, chunks, promptFor, trace, used, k + 1, |chunks|);
    StoppedIff(replies, maxRetries, from, chunks, promptFor, trace, used, k);
    assert IsStep(replies, maxRetries, chunks, promptFor, trace, used, k);
    AdvanceStands(replies, trace[k], chunks[k], promptFor(chunks[k], k + 1), used[k]);
    assert trace[k + 1].segments[k] == trace[|chunks|].segments[k];
  }

  /** The labelled segments of a run, each of which stands for its chunk. */
  ghost predicate ShowsSegments(replies: nat -> Reply, maxRetries: nat, from: nat, chunks: seq<seq<string>>,
      promptFor: (seq<string>, nat) -> string, summary: string, failure: Option<LlmError>)
  {
    exists trace: seq<Progress>, used: seq<nat> ::
      && IsRun(replies, maxRetries, from, chunks, promptFor, trace, used)
      && |trace[|chunks|].segments| == |chunks|
      && (forall k :: 0 <= k < |chunks| ==> used[k] > 0 && SegmentStands(replies, chunks, promptFor, trace, used, k))
      && summary == Join(Labelled(trace[|chunks|].segments), "\n\n") && failure == trace[|chunks|].failure
  }

  lemma RunShows(replies: nat -> Reply, maxRetries: nat, from: nat, chunks: seq<seq<string>>,
      promptFor: (seq<string>, nat) -> string, trace: seq<Progress>, used: seq<nat>)
    requires IsRun(replies, maxRetries, from, chunks, promptFor, trace, used)
    ensures var end := trace[|chunks|];
      ShowsSegments(replies, maxRetries, from, chunks, promptFor, Stitch(end.segments), end.failure)
  {
    hide IsStep, SegmentStands;
    SegmentsAreJoined(trace[|chunks|].segments);
    SegmentsAccumulate(replies, maxRetries, from, chunks, promptFor, trace, used, |chunks|, |chunks|);
    forall k | 0 <= k < |chunks| ensures used[k] > 0 && SegmentStands(replies, chunks, promptFor, trace, used, k) {
      SegmentsStand(replies, maxRetries, from, chunks, promptFor, trace, used, k);
    }
  }
}
