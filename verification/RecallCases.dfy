/** What scores, similarities and choices of memories come to, case by case. */
module RecallCases {
  import opened Recall
  import opened Scoring
  import opened Sets
  import opened Sorting
  import opened Text
  import opened Vectors
  import opened Wrappers

  // ---------------------------------------------------------------------------
  // Novelty
  // ---------------------------------------------------------------------------

  /** How alike two memories are: their cosine, or zero if either has no embedding. */
  predicate IsLikeness(x: real, a: StoredMemory, b: StoredMemory, norm: Vector -> real) {
    if a.embedding == None || b.embedding == None then x == 0.0
    else x == CosineSimilarity(a.embedding.value, b.embedding.value, norm)
  }

  /** `x` is the greatest of zero and the likenesses of memory `i` to the selected ones. */
  ghost predicate IsGreatestLikeness(x: real, memories: seq<StoredMemory>, selected: seq<nat>, i: nat,
      norm: Vector -> real)
    requires i < |memories| && Below(selected, |memories|)
  {
    && x >= 0.0
    && (forall k, y :: 0 <= k < |selected| && IsLikeness(y, memories[selected[k]], memories[i], norm) ==> y <= x)
    && (x == 0.0 || exists k :: 0 <= k < |selected| && IsLikeness(x, memories[selected[k]], memories[i], norm))
  }

  lemma SimilarityIsLikeness(memories: seq<StoredMemory>, i: nat, j: nat, norm: Vector -> real, x: real)
    requires i < |memories| && j < |memories|
    ensures IsLikeness(x, memories[i], memories[j], norm) <==> x == Similarity(memories, i, j, norm)
  {
    hide CosineSimilarity;
  }

  lemma {:induction false} MaxSimilarityIsGreatest(memories: seq<StoredMemory>, selected: seq<nat>, i: nat,
      norm: Vector -> real)
    requires i < |memories| && Below(selected, |memories|)
    ensures IsGreatestLikeness(MaxSimilarity(memories, selected, i, norm), memories, selected, i, norm)
  {
    hide IsLikeness, Similarity;
    if selected == [] {
    } else {
      var last := |selected| - 1;
      var front := selected[..last];
      MaxSimilarityIsGreatest(memories, front, i, norm);
      var before, x := MaxSimilarity(memories, front, i, norm), MaxSimilarity(memories, selected, i, norm);
      SimilarityIsLikeness(memories, selected[last], i, norm, x);
      forall k, y | 0 <= k < |selected| && IsLikeness(y, memories[selected[k]], memories[i], norm) ensures y <= x {
        if k < last {
          assert front[k] == selected[k];
        } else {
          SimilarityIsLikeness(memories, selected[last], i, norm, y);
        }
      }
      if x != 0.0 && x == before {
        var k :| 0 <= k < |front| && IsLikeness(x, memories[front[k]], memories[i], norm);
        assert selected[k] == front[k];
      }
    }
  }

  lemma GreatestIsUnique(memories: seq<StoredMemory>, selected: seq<nat>, i: nat, norm: Vector -> real, x: real,
      y: real)
    requires i < |memories| && Below(selected, |memories|)
    requires IsGreatestLikeness(x, memories, selected, i, norm) && IsGreatestLikeness(y, memories, selected, i, norm)
    ensures x == y
  {
    hide IsLikeness;
  }

  /**
   A choice weighs relevance against likeness to what was taken before: no free candidate has more of
   `lambda` times its score less `1 - lambda` times its greatest likeness.
   */
  lemma ChoiceWeighsNovelty(store: Store, candidates: seq<Candidate>, taken: seq<nat>, p: nat, q: nat, x: real,
      y: real)
    requires store.Indexes(candidates) && InRange(candidates, taken) && IsChoice(store, candidates, taken, p)
    requires q < |candidates| && q !in taken
    requires var selected := IndexesOf(candidates, taken);
      && IsGreatestLikeness(x, store.memories, selected, candidates[p].index, store.norm)
      && IsGreatestLikeness(y, store.memories, selected, candidates[q].index, store.norm)
    ensures store.lambda * candidates[q].score - (1.0 - store.lambda) * y
      <= store.lambda * candidates[p].score - (1.0 - store.lambda) * x
  {
    hide MaxSimilarity, IsGreatestLikeness;
    var selected := IndexesOf(candidates, taken);
    MaxSimilarityIsGreatest(store.memories, selected, candidates[p].index, store.norm);
    MaxSimilarityIsGreatest(store.memories, selected, candidates[q].index, store.norm);
    GreatestIsUnique(store.memories, selected, candidates[p].index, store.norm, x,
      MaxSimilarity(store.memories, selected, candidates[p].index, store.norm));
    GreatestIsUnique(store.memories, selected, candidates[q].index, store.norm, y,
      MaxSimilarity(store.memories, selected, candidates[q].index, store.norm));
  }

  /** Of equally relevant candidates one that is least like the memories taken before is chosen. */
  lemma ChoiceFavoursNovelty(store: Store, candidates: seq<Candidate>, taken: seq<nat>, p: nat, q: nat, x: real,
      y: real)
    requires store.Indexes(candidates) && InRange(candidates, taken) && IsChoice(store, candidates, taken, p)
    requires q < |candidates| && q !in taken && candidates[q].score == candidates[p].score && store.lambda < 1.0
    requires var selected := IndexesOf(candidates, taken);
      && IsGreatestLikeness(x, store.memories, selected, candidates[p].index, store.norm)
      && IsGreatestLikeness(y, store.memories, selected, candidates[q].index, store.norm)
    ensures x <= y
  {
    hide IsGreatestLikeness, Store.MmrScore;
    ChoiceWeighsNovelty(store, candidates, taken, p, q, x, y);
    Cancel(store.lambda * candidates[p].score, 1.0 - store.lambda, x, y);
  }

  lemma Cancel(z: real, w: real, x: real, y: real)
    requires w > 0.0 && z - w * y <= z - w * x
    ensures x <= y
  {
    assert w * (y - x) >= 0.0;
  }

  // ---------------------------------------------------------------------------
  // Scores
  // ---------------------------------------------------------------------------

  /** The cosine is the quotient of dot product and norms; a vector is like itself. */
  lemma CosineIsQuotient(a: Vector, b: Vector, norm: Vector -> real)
    requires |a| == |b| && a != []
    ensures norm(a) != 0.0 && norm(b) != 0.0 ==>
      CosineSimilarity(a, b, norm) * (norm(a) * norm(b)) == Dot(a, b)
    ensures IsNorm(norm) && norm(a) != 0.0 ==> CosineSimilarity(a, a, norm) == 1.0
  {
    hide Dot;
    if norm(a) != 0.0 && norm(b) != 0.0 {
      QuotientTimes(Dot(a, b), norm(a), norm(b));
    }
    if IsNorm(norm) && norm(a) != 0.0 {
      QuotientOfSquare(Dot(a, a), norm(a));
    }
  }

  lemma QuotientOfSquare(d: real, x: real)
    requires x > 0.0 && Times(x, x) == d
    ensures d != 0.0 && d / d == 1.0
  {
    hide Times;
    TimesIsPositive(x, x);
    QuotientOfItself(d);
  }

  lemma TimesIsPositive(x: real, y: real)
    requires x > 0.0 && y > 0.0
    ensures Times(x, y) > 0.0
  {
  }

  lemma QuotientOfItself(d: real)
    requires d != 0.0
    ensures d / d == 1.0
  {
  }

  lemma QuotientTimes(d: real, x: real, y: real)
    requires x != 0.0 && y != 0.0
    ensures x * y != 0.0 && d / (x * y) * (x * y) == d
  {
  }

  /** The score by another method. */
  function By(recallMethod: RecallMethod, config: RecallConfig, query: string, embedding: Option<Vector>,
      memory: StoredMemory, norm: Vector -> real): real {
    Score(config.(recallMethod := recallMethod), query, embedding, memory, norm)
  }

  /**
   How the methods relate: by vector it is the cosine, weighted by importance, where there are
   embeddings, and by text elsewhere; the hybrid is the weighted sum of the two; the others go by text.
   */
  lemma MethodsAgree(config: RecallConfig, query: string, embedding: Option<Vector>, memory: StoredMemory,
      norm: Vector -> real)
    ensures var text := By(TextMatch, config, query, embedding, memory, norm);
      var vector := By(VectorMatch, config, query, embedding, memory, norm);
      && By(TimeWeighted, config, query, embedding, memory, norm) == text
      && By(ImportanceBased, config, query, embedding, memory, norm) == text
      && By(Hybrid, config, query, embedding, memory, norm) == config.textWeight * text + config.vectorWeight * vector
      && (embedding.Some? && memory.embedding.Some? ==>
        vector == CosineSimilarity(embedding.value, memory.embedding.value, norm) * memory.importance)
      && (embedding == None || memory.embedding == None ==> vector == text)
  {
    hide TextScore, CosineSimilarity;
  }

  ghost predicate Occurs(part: string, text: string) {
    exists before, after :: text == before + part + after
  }

  lemma {:induction false} ContainedOccurs(text: string, part: string) returns (before: string, after: string)
    requires Contains(text, part)
    ensures text == before + part + after
  {
    if part <= text {
      before, after := "", text[|part|..];
    } else {
      before, after := ContainedOccurs(text[1..], part);
      before := [text[0]] + before;
    }
  }

  lemma {:induction false} OccurringIsContained(before: string, part: string, after: string)
    ensures Contains(before + part + after, part)
  {
    var text := before + part + after;
    if before == "" {
      assert text == part + after;
    } else {
      assert text[1..] == before[1..] + part + after;
      OccurringIsContained(before[1..], part, after);
    }
  }

  lemma ContainsIff(text: string, part: string)
    ensures Contains(text, part) <==> Occurs(part, text)
  {
    hide Contains;
    if Contains(text, part) {
      var before, after := ContainedOccurs(text, part);
    }
    if before, after :| text == before + part + after {
      OccurringIsContained(before, part, after);
    }
  }

  /**
   By text, query and content of which one holds the other score eight tenths of the importance; else
   it is the share of the query's words that the content has too. Letter case makes no difference.
   */
  lemma TextScoreIs(config: RecallConfig, query: string, embedding: Option<Vector>, memory: StoredMemory,
      norm: Vector -> real)
    ensures var score := By(TextMatch, config, query, embedding, memory, norm);
      var q, c := ToLower(query), ToLower(memory.content);
      var wanted, held := Words(q, ""), Words(c, "");
      && (Occurs(q, c) || Occurs(c, q) ==> score == 0.8 * memory.importance)
      && (!Occurs(q, c) && !Occurs(c, q) && wanted * held == {} ==> score == 0.0)
      && (!Occurs(q, c) && !Occurs(c, q) && wanted * held != {} ==>
        score == |wanted * held| as real / |wanted| as real * memory.importance)
  {
    var q, c := ToLower(query), ToLower(memory.content);
    ContainsIff(c, q);
    ContainsIff(q, c);
    hide Contains, Words, ToLower;
    SharedWords(Words(q, ""), Words(c, ""));
  }

  lemma SharedWords(a: set<string>, b: set<string>)
    ensures |a * b| > 0 <==> a * b != {}
    ensures a * b != {} ==> |a| > 0
  {
    if w :| w in a * b {
      assert w in a;
    }
  }

  lemma {:induction false} WordsBefore(a: string, word: string, c: char, b: string)
    requires IsWhitespace(c)
    ensures Words(a + [c] + b, word) == Words(a, word) + Words(b, "")
    decreases |a|
  {
    var text := a + [c] + b;
    if a == "" {
      assert text[1..] == b;
    } else {
      assert text[1..] == a[1..] + [c] + b;
      WordsBefore(a[1..], if IsWhitespace(a[0]) then "" else word + [a[0]], c, b);
    }
  }

  lemma {:induction false} WordsOfWord(text: string, word: string)
    requires forall c :: c in text ==> !IsWhitespace(c)
    ensures Words(text, word) == if word + text == "" then {} else {word + text}
  {
    if text == "" {
      assert word + text == word;
    } else {
      assert text[0] in text && word + text == word + [text[0]] + text[1..];
      WordsOfWord(text[1..], word + [text[0]]);
    }
  }

  /** The words of a text are the pieces between white space, except for empty ones. */
  lemma WordsAreSplitByBlanks(a: string, c: char, b: string)
    requires IsWhitespace(c)
    ensures Words(a + [c] + b, "") == Words(a, "") + Words(b, "")
    ensures (forall d :: d in a ==> !IsWhitespace(d)) ==> Words(a, "") == if a == "" then {} else {a}
  {
    WordsBefore(a, "", c, b);
    if forall d :: d in a ==> !IsWhitespace(d) {
      WordsOfWord(a, "");
      assert "" + a == a;
    }
  }

  // ---------------------------------------------------------------------------
  // Results
  // ---------------------------------------------------------------------------

  /** A result is a memory's content and session with its own score, which reaches the threshold. */
  predicate ShowsMemory(result: RecalledMemory, memory: StoredMemory, r: Request) {
    && result.content == memory.content && result.sourceSession == memory.sourceSession
    && result.recallMethod == r.config.recallMethod
    && result.relevance == Score(r.config, r.query, r.embedding, memory, r.norm)
    && result.relevance >= r.config.relevanceThreshold
  }

  /** Memory `m` has the score for a result. */
  predicate Reaches(r: Request, m: nat) {
    m < |r.memories| && Score(r.config, r.query, r.embedding, r.memories[m], r.norm) >= r.config.relevanceThreshold
  }

  /** Results are of different memories, and are all there are if they are fewer than asked for. */
  lemma ResultsShowMemories(r: Request, positions: seq<nat>, results: seq<RecalledMemory>)
      returns (indexes: seq<nat>)
    requires r.Chooser().Indexes(r.Ranked())
    requires IsSelection(r, positions) && AreResults(r, positions, results)
    ensures |indexes| == |results| <= r.config.maxResults && Distinct(indexes)
    ensures forall i :: 0 <= i < |results| ==>
      indexes[i] < |r.memories| && ShowsMemory(results[i], r.memories[indexes[i]], r)
    ensures |results| < r.config.maxResults ==> forall m :: Reaches(r, m) ==> m in indexes
  {
    hide *;
    RankedIsSortedAndComplete(r);
    SelectionIsDistinct(r, positions);
    ResultsAreAt(r, positions, results);
    var ranked := r.Ranked();
    indexes := IndexesOf(ranked, positions);
    IndexesDiffer(ranked, positions);
    forall i | 0 <= i < |results|
      ensures indexes[i] < |r.memories| && ShowsMemory(results[i], r.memories[indexes[i]], r)
    {
      IndexAt(ranked, positions, i);
      assert ranked[positions[i]] in ranked;
      AdmittedShows(r, ranked[positions[i]]);
    }
    if |results| < r.config.maxResults {
      forall m | Reaches(r, m) ensures m in indexes {
        var c := ReachingIsAdmitted(r, m);
        var p :| 0 <= p < |ranked| && ranked[p] == c;
        var i := AllAreTaken(positions, |ranked|, p);
        IndexAt(ranked, positions, i);
      }
    }
  }

  lemma SelectionIsDistinct(r: Request, positions: seq<nat>)
    requires r.Chooser().Indexes(r.Ranked()) && IsSelection(r, positions)
    ensures Distinct(positions) && InRange(r.Ranked(), positions)
    ensures |positions| == if r.config.maxResults < |r.Ranked()| then r.config.maxResults else |r.Ranked()|
  {
    hide Request.Ranked;
    if r.config.useMmr && r.embedding.Some? {
      GreedyIsDistinct(r.Chooser(), r.Ranked(), positions);
    }
  }

  lemma ResultsAreAt(r: Request, positions: seq<nat>, results: seq<RecalledMemory>)
    requires r.Chooser().Indexes(r.Ranked()) && AreResults(r, positions, results)
    ensures InRange(r.Ranked(), positions) && |results| == |positions|
    ensures forall i :: 0 <= i < |results| ==>
      positions[i] < |r.Ranked()| && r.Ranked()[positions[i]].index < |r.memories|
      && results[i] == r.Recalled(r.Ranked()[positions[i]])
  {
    hide Request.Ranked;
  }

  lemma IndexAt(candidates: seq<Candidate>, positions: seq<nat>, i: nat)
    requires InRange(candidates, positions) && i < |positions|
    ensures positions[i] < |candidates| && IndexesOf(candidates, positions)[i] == candidates[positions[i]].index
  {
  }

  lemma IndexesDiffer(candidates: seq<Candidate>, positions: seq<nat>)
    requires InRange(candidates, positions) && Distinct(positions)
    requires forall i, j :: 0 <= i < j < |candidates| ==> candidates[i].index != candidates[j].index
    ensures Distinct(IndexesOf(candidates, positions))
  {
    forall i, j | 0 <= i < j < |positions|
      ensures IndexesOf(candidates, positions)[i] != IndexesOf(candidates, positions)[j]
    {
      assert positions[i] < positions[j] || positions[j] < positions[i];
    }
  }

  lemma AdmittedShows(r: Request, c: Candidate)
    requires r.Admits(c)
    ensures c.index < |r.memories| && ShowsMemory(r.Recalled(c), r.memories[c.index], r)
    ensures r.Recalled(c).relevance == c.score
  {
    hide Score;
  }

  lemma ReachingIsAdmitted(r: Request, m: nat) returns (c: Candidate)
    requires Reaches(r, m)
    ensures m < |r.memories| && c == Candidate(m, r.ScoreOf(m)) && r.Admits(c)
  {
    hide Score;
    c := Candidate(m, r.ScoreOf(m));
  }

  /** As many different positions as there are leave none out. */
  lemma AllAreTaken(positions: seq<nat>, n: nat, p: nat) returns (i: nat)
    requires Distinct(positions) && |positions| == n && p < n && forall k :: 0 <= k < n ==> positions[k] < n
    ensures i < |positions| && positions[i] == p
  {
    if p !in positions {
      DistinctFits(positions, UpTo(n) - {p});
    }
    i :| 0 <= i < |positions| && positions[i] == p;
  }

  /** By maximal marginal relevance where that is asked for and the query has an embedding. */
  lemma MmrResultsAreGreedy(r: Request, positions: seq<nat>)
    requires r.Chooser().Indexes(r.Ranked()) && IsSelection(r, positions)
    requires r.config.useMmr && r.embedding.Some?
    ensures IsGreedy(Store(r.memories, r.config.mmrLambda, r.norm), r.Ranked(), positions)
  {
    hide Request.Ranked;
  }

  /** Elsewhere the results are the best, best first, and equally good ones in the order of the store. */
  lemma OtherResultsAreTheBest(r: Request, positions: seq<nat>, results: seq<RecalledMemory>)
      returns (indexes: seq<nat>)
    requires r.Chooser().Indexes(r.Ranked())
    requires IsSelection(r, positions) && AreResults(r, positions, results)
    requires !r.config.useMmr || r.embedding == None
    ensures |indexes| == |results|
    ensures forall i :: 0 <= i < |results| ==>
      indexes[i] < |r.memories| && ShowsMemory(results[i], r.memories[indexes[i]], r)
    ensures forall i, j :: 0 <= i < j < |results| ==> IsBefore(indexes[i], results[i].relevance, indexes[j],
      results[j].relevance)
    ensures forall i, m: nat :: 0 <= i < |results| && Reaches(r, m) && m !in indexes ==>
      IsBefore(indexes[i], results[i].relevance, m, r.ScoreOf(m))
  {
    hide *;
    RankedIsSortedAndComplete(r);
    ResultsAreAt(r, positions, results);
    PlainPositions(r, positions);
    var ranked := r.Ranked();
    indexes := IndexesOf(ranked, positions);
    forall i | 0 <= i < |results|
      ensures indexes[i] == ranked[i].index && results[i].relevance == ranked[i].score
      ensures indexes[i] < |r.memories| && ShowsMemory(results[i], r.memories[indexes[i]], r)
    {
      IndexAt(ranked, positions, i);
      assert ranked[i] in ranked;
      AdmittedShows(r, ranked[i]);
    }
    forall i, j | 0 <= i < j < |results|
      ensures IsBefore(indexes[i], results[i].relevance, indexes[j], results[j].relevance)
    {
      RankedBefore(ranked, i, j);
    }
    forall i, m: nat | 0 <= i < |results| && Reaches(r, m) && m !in indexes
      ensures m < |r.memories| && IsBefore(indexes[i], results[i].relevance, m, r.ScoreOf(m))
    {
      var c := ReachingIsAdmitted(r, m);
      assert forall q :: 0 <= q < |results| ==> indexes[q] in indexes;
      var p :| 0 <= p < |ranked| && ranked[p] == c;
      RankedBefore(ranked, i, p);
    }
  }

  lemma PlainPositions(r: Request, positions: seq<nat>)
    requires r.Chooser().Indexes(r.Ranked()) && IsSelection(r, positions)
    requires !r.config.useMmr || r.embedding == None
    ensures |positions| <= |r.Ranked()| && forall i :: 0 <= i < |positions| ==> positions[i] == i
  {
  }

  lemma RankedBefore(ranked: seq<Candidate>, i: nat, j: nat)
    requires SortedBy(ranked, Descending()) && BreaksTies(ranked, Position(), Descending()) && i < j < |ranked|
    ensures IsBefore(ranked[i].index, ranked[i].score, ranked[j].index, ranked[j].score)
  {
    assert Descending()(ranked[i], ranked[j]);
    assert Descending()(ranked[j], ranked[i]) ==> Position()(ranked[i]) < Position()(ranked[j]);
  }

  /** A better score goes before, and of equal ones the earlier memory. */
  predicate IsBefore(i: nat, x: real, j: nat, y: real) {
    x > y || (x == y && i < j)
  }
}
