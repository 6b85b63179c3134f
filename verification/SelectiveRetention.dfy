/** Keeping the best messages and summarising the rest (`selective_retain` in `y-context/src/compaction.rs`). */
module SelectiveRetention {
  import opened Compaction
  import opened Numbers
  import opened Scoring
  import opened Sorting
  import opened Text
  import opened Wrappers

  // ---------------------------------------------------------------------------
  // Which messages are retained
  // ---------------------------------------------------------------------------

  function Scores(messages: seq<string>, score: string -> real): (r: seq<Candidate>)
    ensures |r| == |messages|
  {
    seq(|messages|, i requires 0 <= i < |messages| => Candidate(i, score(messages[i])))
  }

  function Ranking(messages: seq<string>, score: string -> real): (r: seq<Candidate>)
    ensures |r| == |messages|
  {
    SortBy(Scores(messages, score), Descending())
  }

  function Retained(messages: seq<string>, score: string -> real, quota: nat): set<nat> {
    var ranking := Ranking(messages, score);
    set p: nat | p < |ranking| && p < quota :: ranking[p].index
  }

  /** Message `i` goes before message `j`: a higher score, or the same one and an earlier place. */
  predicate Outranks(messages: seq<string>, score: string -> real, i: nat, j: nat)
    requires i < |messages| && j < |messages|
  {
    score(messages[i]) > score(messages[j]) || (score(messages[i]) == score(messages[j]) && i < j)
  }

  lemma RankingIsStrict(messages: seq<string>, score: string -> real)
    ensures var r := Ranking(messages, score);
      && (forall p :: 0 <= p < |r| ==> r[p].index < |messages| && r[p].score == score(messages[r[p].index]))
      && (forall p, q :: 0 <= p < q < |r| ==> Outranks(messages, score, r[p].index, r[q].index))
  {
    hide SortBy, Scores;
    var r := Ranking(messages, score);
    ScoresAreRanked(messages, score);
    forall p | 0 <= p < |r| ensures r[p].index < |messages| && r[p].score == score(messages[r[p].index]) {
      assert r[p] in r;
    }
    forall p, q | 0 <= p < q < |r| ensures Outranks(messages, score, r[p].index, r[q].index) {
      assert Descending()(r[p], r[q]);
      assert Descending()(r[q], r[p]) ==> Position()(r[p]) < Position()(r[q]);
    }
  }

  lemma ScoresAreRanked(messages: seq<string>, score: string -> real)
    ensures var scores, r := Scores(messages, score), Ranking(messages, score);
      && SortedBy(r, Descending())
      && BreaksTies(r, Position(), Descending())
      && multiset(r) == multiset(scores)
      && forall c :: c in r ==> c.index < |messages| && c.score == score(messages[c.index])
  {
    hide SortBy, SortedBy, BreaksTies;
    var scores, r := Scores(messages, score), Ranking(messages, score);
    SortIsStable(scores, Candidate(0, 0.0), Descending());
    SortBreaksTiesByRank(scores, Position(), Descending());
    forall c | c in r ensures c.index < |messages| && c.score == score(messages[c.index]) {
      assert c in multiset(r) && c in scores;
    }
  }

  /** Where message `i` is ranked. */
  lemma PlaceOf(messages: seq<string>, score: string -> real, i: nat) returns (p: nat)
    requires i < |messages|
    ensures p < |Ranking(messages, score)| && Ranking(messages, score)[p].index == i
  {
    hide Ranking;
    ScoresAreRanked(messages, score);
    var scores, r := Scores(messages, score), Ranking(messages, score);
    assert scores[i] in multiset(scores) && scores[i] in multiset(r) && scores[i] in r;
    p :| 0 <= p < |r| && r[p] == scores[i];
  }

  /** The retained messages are `quota` in number, if there are so many, and outrank all the others. */
  lemma RetainedAreTheBest(messages: seq<string>, score: string -> real, quota: nat)
    ensures var kept := Retained(messages, score, quota);
      && |kept| == Min(quota, |messages|)
      && (forall i :: i in kept ==> i < |messages|)
      && forall i, j :: i in kept && 0 <= j < |messages| && j !in kept ==> Outranks(messages, score, i, j)
  {
    hide Ranking;
    var r, kept := Ranking(messages, score), Retained(messages, score, quota);
    RankingIsStrict(messages, score);
    forall i, j | i in kept && 0 <= j < |messages| && j !in kept ensures Outranks(messages, score, i, j) {
      var p :| 0 <= p < |r| && p < quota && r[p].index == i;
      var q := PlaceOf(messages, score, j);
      assert q >= quota;
    }
    hide Outranks;
    var n := Min(quota, |messages|);
    IndicesCount(messages, score, n);
    assert kept == set p: nat | p < n :: r[p].index;
  }

  lemma {:induction false} IndicesCount(messages: seq<string>, score: string -> real, n: nat)
    requires n <= |messages|
    ensures var r := Ranking(messages, score); |set p: nat | p < n :: r[p].index| == n
  {
    hide Ranking;
    var r := Ranking(messages, score);
    if n == 0 {
    } else {
      IndicesCount(messages, score, n - 1);
      RankingIsStrict(messages, score);
      var fewer := set p: nat | p < n - 1 :: r[p].index;
      assert forall p: nat :: p < n - 1 ==> Outranks(messages, score, r[p].index, r[n - 1].index);
      assert r[n - 1].index !in fewer;
      assert (set p: nat | p < n :: r[p].index) == fewer + {r[n - 1].index};
    }
  }

  /** Being retained is settled by the quota alone: fewer than `quota` messages outrank it. */
  lemma RetainedIff(messages: seq<string>, score: string -> real, quota: nat, i: nat)
    requires i < |messages|
    ensures i in Retained(messages, score, quota) <==>
      |set j: nat | j < |messages| && Outranks(messages, score, j, i)| < quota
  {
    hide Ranking;
    var r := Ranking(messages, score);
    RankingIsStrict(messages, score);
    var p := PlaceOf(messages, score, i);
    var better := set j: nat | j < |messages| && Outranks(messages, score, j, i);
    var before := set q: nat | q < p :: r[q].index;
    forall j: nat | j in better ensures j in before {
      var q := PlaceOf(messages, score, j);
      assert q < p;
    }
    assert better == before;
    IndicesCount(messages, score, p);
    if i in Retained(messages, score, quota) {
      var q :| 0 <= q < |r| && q < quota && r[q].index == i;
      assert q == p;
    }
  }

  // ---------------------------------------------------------------------------
  // Summary of the rest, then the retained messages
  // ---------------------------------------------------------------------------

  function Rest(messages: seq<string>, kept: set<nat>): seq<string> {
    if messages == [] then []
    else
      var last := |messages| - 1;
      Rest(messages[..last], kept) + (if last in kept then [] else [messages[last]])
  }

  function Verbatim(messages: seq<string>, kept: set<nat>): seq<string> {
    if messages == [] then []
    else
      var last := |messages| - 1;
      Verbatim(messages[..last], kept) + (if last in kept then ["[Retained] " + messages[last]] else [])
  }

  function Opening(rest: seq<string>, text: string): seq<string> {
    if rest == [] then [] else ["[Summary of less important messages] " + text]
  }

  /** One paragraph for the summarised messages, if any, and one for each retained message. */
  function Paragraphs(messages: seq<string>, kept: set<nat>, text: string): seq<string> {
    Opening(Rest(messages, kept), text) + Verbatim(messages, kept)
  }

  /** What a summary call came to: its text, or the fallback and the error. */
  function TextOf(outcome: Result<string, LlmError>, messages: seq<string>): string {
    if outcome.Ok? then outcome.value else TruncateFallback(messages)
  }

  function FailureOf(outcome: Result<string, LlmError>): Option<LlmError> {
    if outcome.Ok? then None else Some(outcome.error)
  }

  /**
   What the model's answers make of selective retention; `n` answers are used, none if nothing is left
   to summarise.
   */
  ghost predicate IsSelective(replies: nat -> Reply, from: nat, maxRetries: nat, messages: seq<string>, kept: set<nat>,
      n: nat,
                              summary: string, failure: Option<LlmError>) {
    var rest := Rest(messages, kept);
    if rest == [] then n == 0 && failure == None && summary == Join(Verbatim(messages, kept), "\n\n")
    else
      && IsRetryRun(replies, from, maxRetries, n)
      && n > 0
      && var outcome := replies(from + n - 1).Outcome();
         failure == FailureOf(outcome) && summary == Join(Paragraphs(messages, kept, TextOf(outcome, rest)), "\n\n")
  }

  method Retain(messages: seq<string>, score: string -> real, quota: nat) returns (kept: set<nat>)
    ensures kept == Retained(messages, score, quota)
  {
    var ranking := SortBy(Scores(messages, score), Descending());
    kept := set p: nat | p < |ranking| && p < quota :: ranking[p].index;
  }

  method SelectiveRetain(llm: Llm, messages: seq<string>, maxRetries: u32, score: string -> real, quota: nat,
      promptFor: seq<string> -> string)
      returns (summary: string, failure: Option<LlmError>)
    modifies llm
    ensures llm.calls >= old(llm.calls)
    ensures IsSelective(llm.replies, old(llm.calls), maxRetries, messages, Retained(messages, score, quota),
      llm.calls - old(llm.calls), summary, failure)
    ensures llm.prompts == old(llm.prompts)
      + Repeat(promptFor(Rest(messages, Retained(messages, score, quota))), llm.calls - old(llm.calls))
  {
    hide *;
    var kept := Retain(messages, score, quota);
    var toSummarize := FilterRest(messages, kept);
    ghost var from := llm.calls;
    var summaryOfRest;
    if toSummarize == [] {
      summaryOfRest, failure := "", None;
      summary := Compose(messages, kept, summaryOfRest);
      NothingToSummarise(llm.replies, from, maxRetries, messages, kept, promptFor(toSummarize));
    } else {
      var result := CallWithRetry(llm, promptFor(toSummarize), maxRetries);
      summaryOfRest, failure := TextOf(result, toSummarize), FailureOf(result);
      UsableIsNotEmpty(llm.replies(llm.calls - 1), toSummarize);
      summary := Compose(messages, kept, summaryOfRest);
      RestIsSummarised(llm.replies, from, maxRetries, messages, kept, llm.calls - from);
    }
  }

  lemma NothingToSummarise(replies: nat -> Reply, from: nat, maxRetries: nat, messages: seq<string>, kept: set<nat>,
      prompt: string)
    requires Rest(messages, kept) == []
    ensures IsSelective(replies, from, maxRetries, messages, kept, 0, Join(Paragraphs(messages, kept, ""), "\n\n"),
      None)
    ensures Repeat(prompt, 0) == []
  {
    assert [] + Verbatim(messages, kept) == Verbatim(messages, kept);
  }

  lemma RestIsSummarised(replies: nat -> Reply, from: nat, maxRetries: nat, messages: seq<string>, kept: set<nat>,
      n: nat)
    requires Rest(messages, kept) != [] && n > 0 && IsRetryRun(replies, from, maxRetries, n)
    ensures var outcome := replies(from + n - 1).Outcome();
      IsSelective(replies, from, maxRetries, messages, kept, n,
        Join(Paragraphs(messages, kept, TextOf(outcome, Rest(messages, kept))), "\n\n"), FailureOf(outcome))
  {
  }

  /** What a retry loop settles for is never the empty text. */
  lemma UsableIsNotEmpty(reply: Reply, messages: seq<string>)
    ensures TextOf(reply.Outcome(), messages) != ""
  {
  }

  method FilterRest(messages: seq<string>, kept: set<nat>) returns (rest: seq<string>)
    ensures rest == Rest(messages, kept)
  {
    rest := [];
    for i := 0 to |messages|
      invariant rest == Rest(messages[..i], kept)
    {
      assert messages[..i + 1][..i] == messages[..i];
      if i !in kept {
        rest := rest + [messages[i]];
      }
    }
    assert messages[..|messages|] == messages;
  }

  /** The text buffer: the summary first unless it is empty, and a blank line before each further paragraph. */
  method Compose(messages: seq<string>, kept: set<nat>, summaryOfRest: string) returns (result: string)
    requires summaryOfRest == "" <==> Rest(messages, kept) == []
    ensures result == Join(Paragraphs(messages, kept, summaryOfRest), "\n\n")
  {
    hide Join, Rest;
    ghost var opening := Opening(Rest(messages, kept), summaryOfRest);
    ghost var parts := opening;
    JoinOfFew("[Summary of less important messages] " + summaryOfRest);
    result := "";
    if summaryOfRest != "" {
      result := "[Summary of less important messages] " + summaryOfRest;
    }
    for i := 0 to |messages|
      invariant parts == opening + Verbatim(messages[..i], kept)
      invariant result == Join(parts, "\n\n")
      invariant result == "" <==> parts == []
    {
      assert messages[..i + 1][..i] == messages[..i];
      if i in kept {
        JoinMore(parts, "[Retained] " + messages[i]);
        parts := parts + ["[Retained] " + messages[i]];
        if result != "" {
          result := result + "\n\n";
        }
        result := result + ("[Retained] " + messages[i]);
      }
    }
    assert messages[..|messages|] == messages;
  }

  lemma JoinOfFew(part: string)
    ensures Join([], "\n\n") == "" && Join([part], "\n\n") == part
  {
  }

  lemma JoinMore(parts: seq<string>, part: string)
    requires part != ""
    ensures Join(parts + [part], "\n\n") == (if parts == [] then part else Join(parts, "\n\n") + "\n\n" + part)
    ensures Join(parts + [part], "\n\n") != ""
  {
    if parts == [] {
      JoinOfFew(part);
      assert parts + [part] == [part];
    } else {
      JoinAppend(parts, part, "\n\n");
    }
  }

  /** Every message goes to exactly one of the two lists, each of which keeps the order of the history. */
  lemma {:induction false} EveryMessageIsAccountedFor(messages: seq<string>, kept: set<nat>)
    ensures |Rest(messages, kept)| + |Verbatim(messages, kept)| == |messages|
    ensures (forall i :: 0 <= i < |messages| ==>
      if i in kept then "[Retained] " + messages[i] in Verbatim(messages, kept)
        else messages[i] in Rest(messages, kept))
  {
    if messages == [] {
    } else {
      var last := |messages| - 1;
      var front := messages[..last];
      EveryMessageIsAccountedFor(front, kept);
      forall i | 0 <= i < |messages|
        ensures if i in kept then "[Retained] " + messages[i] in Verbatim(messages, kept)
          else messages[i] in Rest(messages, kept)
      {
        assert i < last ==> front[i] == messages[i];
      }
    }
  }
}
