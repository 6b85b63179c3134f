/** Scoring and choosing memories (`y-context/src/recall.rs`), over exact reals. */
module Recall {
  import opened Scoring
  import opened Sets
  import opened Sorting
  import opened Text
  import opened Vectors
  import opened Wrappers

  datatype RecallMethod = TextMatch | VectorMatch | Hybrid | TimeWeighted | ImportanceBased

  datatype StoredMemory = StoredMemory(
    content: string, sourceSession: Option<string>, importance: real, embedding: Option<Vector>)

  datatype RecallConfig = RecallConfig(
    recallMethod: RecallMethod, relevanceThreshold: real, maxResults: nat,
    textWeight: real, vectorWeight: real, mmrLambda: real, useMmr: bool)

  datatype RecalledMemory = RecalledMemory(
    content: string, relevance: real, sourceSession: Option<string>, recallMethod: RecallMethod)

  // ---------------------------------------------------------------------------
  // Scores
  // ---------------------------------------------------------------------------

  predicate Contains(text: string, part: string) {
    part <= text || (text != "" && Contains(text[1..], part))
  }

  /** `split_whitespace`, as a set: `word` is the word read so far. */
  function Words(text: string, word: string): set<string> {
    var done := if word == "" then {} else {word};
    if text == "" then done
    else if IsWhitespace(text[0]) then done + Words(text[1..], "")
    else Words(text[1..], word + [text[0]])
  }

  function TextScore(query: string, memory: StoredMemory): real {
    var q, c := ToLower(query), ToLower(memory.content);
    if Contains(c, q) || Contains(q, c) then Times(0.8, memory.importance)
    else
      var wanted, found := Words(q, ""), Words(q, "") * Words(c, "");
      if |found| > 0 then
        Times(|found| as real / (if |wanted| > 1 then |wanted| else 1) as real, memory.importance)
      else 0.0
  }

  function Times(x: real, y: real): real {
    x * y
  }

  function VectorScore(query: Option<Vector>, memory: StoredMemory, norm: Vector -> real): Option<real> {
    if query.Some? && memory.embedding.Some?
    then Some(Times(CosineSimilarity(query.value, memory.embedding.value, norm), memory.importance))
    else None
  }

  function Score(config: RecallConfig, query: string, embedding: Option<Vector>, memory: StoredMemory,
      norm: Vector -> real): real {
    var text := TextScore(query, memory);
    var vector := VectorScore(embedding, memory, norm);
    match config.recallMethod
    case TextMatch | TimeWeighted | ImportanceBased => text
    case VectorMatch => if vector.Some? then vector.value else text
    case Hybrid => config.textWeight * text + config.vectorWeight * (if vector.Some? then vector.value else text)
  }

  lemma Scaled(factor: real, importance: real)
    requires importance >= 0.0 && -1.0 <= factor <= 1.0
    ensures -importance <= Times(factor, importance) <= importance
    ensures factor >= 0.0 ==> Times(factor, importance) >= 0.0
  {
    NonNegativeProduct(1.0 - factor, importance);
    NonNegativeProduct(1.0 + factor, importance);
    if factor >= 0.0 {
      NonNegativeProduct(factor, importance);
    }
  }

  lemma Fraction(n: nat, d: nat)
    requires n <= d && d > 0
    ensures 0.0 <= n as real / d as real <= 1.0
  {
    QuotientBound(n as real, d as real);
  }

  lemma TextScoreIsBounded(query: string, memory: StoredMemory)
    requires memory.importance >= 0.0
    ensures 0.0 <= TextScore(query, memory) <= memory.importance
  {
    hide Contains, Words, ToLower, Times;
    Scaled(0.8, memory.importance);
    var wanted := Words(ToLower(query), "");
    var found := wanted * Words(ToLower(memory.content), "");
    SubsetIsNotLarger(found, wanted);
    if |found| > 0 {
      Fraction(|found|, |wanted|);
      Scaled(|found| as real / |wanted| as real, memory.importance);
    }
  }

  lemma VectorScoreIsBounded(query: Option<Vector>, memory: StoredMemory, norm: Vector -> real)
    requires IsNorm(norm) && memory.importance >= 0.0
    ensures var v := VectorScore(query, memory, norm);
      v.Some? ==> -memory.importance <= v.value <= memory.importance
  {
    hide Times, CosineSimilarity, IsNorm;
    if query.Some? && memory.embedding.Some? {
      CosineIsBounded(query.value, memory.embedding.value, norm);
      Scaled(CosineSimilarity(query.value, memory.embedding.value, norm), memory.importance);
    }
  }

  /** With non-negative weights that sum to one, every method's score is bounded by the memory's importance. */
  lemma ScoreIsBoundedByImportance(config: RecallConfig, query: string, embedding: Option<Vector>,
      memory: StoredMemory, norm: Vector -> real)
    requires IsNorm(norm) && memory.importance >= 0.0
    requires config.textWeight >= 0.0 && config.vectorWeight >= 0.0 && config.textWeight + config.vectorWeight == 1.0
    ensures -memory.importance <= Score(config, query, embedding, memory, norm) <= memory.importance
  {
    hide TextScore, VectorScore, IsNorm;
    TextScoreIsBounded(query, memory);
    VectorScoreIsBounded(embedding, memory, norm);
    var text, vector := TextScore(query, memory), VectorScore(embedding, memory, norm);
    WeightedMean(config.textWeight, config.vectorWeight, text, if vector.Some? then vector.value
      else text, memory.importance);
  }

  lemma WeightedMean(u: real, v: real, x: real, y: real, bound: real)
    requires u >= 0.0 && v >= 0.0 && u + v == 1.0
    requires -bound <= x <= bound && -bound <= y <= bound
    ensures -bound <= u * x + v * y <= bound
  {
    TimesMean(u, v, x, y, bound);
    assert Times(u, x) == u * x && Times(v, y) == v * y;
  }

  lemma TimesMean(u: real, v: real, x: real, y: real, bound: real)
    requires u >= 0.0 && v >= 0.0 && u + v == 1.0
    requires -bound <= x <= bound && -bound <= y <= bound
    ensures -bound <= Times(u, x) + Times(v, y) <= bound
  {
    hide Times;
    WeightedBound(u, x, bound);
    WeightedBound(v, y, bound);
    SharesOfBound(u, v, bound);
  }

  lemma SharesOfBound(u: real, v: real, bound: real)
    requires u + v == 1.0
    ensures Times(u, bound) + Times(v, bound) == bound
  {
    assert Times(u, bound) + Times(v, bound) == (u + v) * bound;
  }

  lemma WeightedBound(u: real, x: real, bound: real)
    requires u >= 0.0 && -bound <= x <= bound
    ensures -Times(u, bound) <= Times(u, x) <= Times(u, bound)
  {
    NonNegativeProduct(u, bound - x);
    NonNegativeProduct(u, bound + x);
    assert u * (bound - x) == Times(u, bound) - Times(u, x) && u * (bound + x) == Times(u, bound) + Times(u, x);
  }

  lemma NonNegativeProduct(x: real, y: real)
    requires x >= 0.0 && y >= 0.0
    ensures x * y >= 0.0
  {
  }

  // ---------------------------------------------------------------------------
  // Candidates
  // ---------------------------------------------------------------------------

  predicate Below(s: seq<nat>, n: nat) {
    forall i :: 0 <= i < |s| ==> s[i] < n
  }

  function MaxReal(a: real, b: real): real {
    if a < b then b else a
  }

  function Similarity(memories: seq<StoredMemory>, i: nat, j: nat, norm: Vector -> real): real
    requires i < |memories| && j < |memories|
  {
    if memories[i].embedding.Some? && memories[j].embedding.Some?
    then CosineSimilarity(memories[i].embedding.value, memories[j].embedding.value, norm)
    else 0.0
  }

  /** The greatest similarity of memory `i` to a selected one; zero if none is positive. */
  function MaxSimilarity(memories: seq<StoredMemory>, selected: seq<nat>, i: nat, norm: Vector -> real): real
    requires i < |memories| && Below(selected, |memories|)
  {
    if selected == [] then 0.0
    else
      var last := |selected| - 1;
      MaxReal(MaxSimilarity(memories, selected[..last], i, norm), Similarity(memories, selected[last], i, norm))
  }

  datatype Store = Store(memories: seq<StoredMemory>, lambda: real, norm: Vector -> real)
  {
    predicate Indexes(candidates: seq<Candidate>) {
      forall i :: 0 <= i < |candidates| ==> candidates[i].index < |memories|
    }

    function MmrScore(c: Candidate, selected: seq<nat>): real
      requires c.index < |memories| && Below(selected, |memories|)
    {
      lambda * c.score - (1.0 - lambda) * MaxSimilarity(memories, selected, c.index, norm)
    }
  }

  // ---------------------------------------------------------------------------
  // Maximal marginal relevance
  // ---------------------------------------------------------------------------

  predicate InRange(candidates: seq<Candidate>, positions: seq<nat>) {
    Below(positions, |candidates|)
  }

  function IndexesOf(candidates: seq<Candidate>, positions: seq<nat>): (r: seq<nat>)
    requires InRange(candidates, positions)
    ensures |r| == |positions|
  {
    seq(|positions|, i requires 0 <= i < |positions| => candidates[positions[i]].index)
  }

  /** Position `p` is the last of the best candidates that are not among `taken`. */
  ghost predicate IsChoice(store: Store, candidates: seq<Candidate>, taken: seq<nat>, p: nat)
    requires store.Indexes(candidates) && InRange(candidates, taken)
  {
    && p < |candidates| && p !in taken
    && forall q :: 0 <= q < |candidates| && q !in taken && q != p ==>
         var best := store.MmrScore(candidates[p], IndexesOf(candidates, taken));
         var other := store.MmrScore(candidates[q], IndexesOf(candidates, taken));
         other <= best && (q > p ==> other < best)
  }

  /** Every position was the choice when it was chosen. */
  ghost predicate IsGreedy(store: Store, candidates: seq<Candidate>, positions: seq<nat>)
    requires store.Indexes(candidates)
  {
    && InRange(candidates, positions)
    && forall t :: 0 <= t < |positions| ==> IsChoice(store, candidates, positions[..t], positions[t])
  }

  ghost predicate IsMmrSelection(store: Store, candidates: seq<Candidate>, k: nat, selected: seq<nat>)
    requires store.Indexes(candidates)
  {
    exists positions :: IsGreedy(store, candidates, positions)
      && |positions| == (if k < |candidates| then k else |candidates|)
      && selected == IndexesOf(candidates, positions)
  }

  /** What is left in `remaining`: the candidates at `left`, in order, all those not taken. */
  ghost predicate IsRest(candidates: seq<Candidate>, taken: seq<nat>, remaining: seq<Candidate>, left: seq<nat>) {
    && |remaining| == |left|
    && (forall i :: 0 <= i < |left| ==>
      left[i] < |candidates| && remaining[i] == candidates[left[i]] && left[i] !in taken)
    && (forall i, j :: 0 <= i < j < |left| ==> left[i] < left[j])
    && forall p :: 0 <= p < |candidates| && p !in taken ==> p in left
  }

  /** `max_by`: the last of the greatest elements. */
  method BestRemaining(store: Store, remaining: seq<Candidate>, selected: seq<nat>) returns (best: nat)
    requires remaining != [] && store.Indexes(remaining)
    requires Below(selected, |store.memories|)
    ensures best < |remaining|
    ensures forall i :: 0 <= i < |remaining| ==>
      store.MmrScore(remaining[i], selected) <= store.MmrScore(remaining[best], selected)
    ensures forall i :: best < i < |remaining| ==>
      store.MmrScore(remaining[i], selected) < store.MmrScore(remaining[best], selected)
  {
    hide MaxSimilarity;
    best := 0;
    var bestScore := store.MmrScore(remaining[0], selected);
    for i := 1 to |remaining|
      invariant best < i && bestScore == store.MmrScore(remaining[best], selected)
      invariant forall j :: 0 <= j < i ==> store.MmrScore(remaining[j], selected) <= bestScore
      invariant forall j :: best < j < i ==> store.MmrScore(remaining[j], selected) < bestScore
    {
      var score := store.MmrScore(remaining[i], selected);
      if score >= bestScore {
        best, bestScore := i, score;
      }
    }
  }

  method MmrSelect(store: Store, candidates: seq<Candidate>, k: nat) returns (selected: seq<nat>)
    requires store.Indexes(candidates)
    ensures IsMmrSelection(store, candidates, k, selected)
  {
    hide MaxSimilarity;
    selected := [];
    var remaining := candidates;
    ghost var positions: seq<nat> := [];
    ghost var left: seq<nat> := seq(|candidates|, (i: nat) => i);
    assert IsRest(candidates, positions, remaining, left) by {
      forall p | 0 <= p < |candidates| ensures p in left {
        assert left[p] == p;
      }
    }
    var round := 0;
    while round < k && remaining != []
      invariant round <= k && |positions| == round && |remaining| == |candidates| - round
      invariant IsGreedy(store, candidates, positions)
      invariant selected == IndexesOf(candidates, positions)
      invariant IsRest(candidates, positions, remaining, left)
      invariant store.Indexes(remaining)
    {
      var best := BestRemaining(store, remaining, selected);
      ghost var p := left[best];
      ChoiceFromRest(store, candidates, positions, remaining, left, best);
      ExtendGreedy(store, candidates, positions, p);
      RemoveFromRest(candidates, positions, remaining, left, best);
      selected := selected + [remaining[best].index];
      remaining := Without(remaining, best);
      left := Without(left, best);
      positions := positions + [p];
      round := round + 1;
    }
  }

  lemma ChoiceFromRest(store: Store, candidates: seq<Candidate>, taken: seq<nat>, remaining: seq<Candidate>,
      left: seq<nat>, best: nat)
    requires store.Indexes(candidates) && InRange(candidates, taken)
    requires IsRest(candidates, taken, remaining, left) && best < |remaining|
    requires store.Indexes(remaining)
    requires var selected := IndexesOf(candidates, taken);
      && (forall i :: 0 <= i < |remaining| ==>
           store.MmrScore(remaining[i], selected) <= store.MmrScore(remaining[best], selected))
      && (forall i :: best < i < |remaining| ==>
           store.MmrScore(remaining[i], selected) < store.MmrScore(remaining[best], selected))
    ensures IsChoice(store, candidates, taken, left[best])
  {
    hide MaxSimilarity;
    var selected := IndexesOf(candidates, taken);
    forall q | 0 <= q < |candidates| && q !in taken && q != left[best]
      ensures store.MmrScore(candidates[q], selected) <= store.MmrScore(candidates[left[best]], selected)
      ensures q > left[best] ==> store.MmrScore(candidates[q], selected) < store.MmrScore(candidates[left[best]],
        selected)
    {
      var i :| 0 <= i < |left| && left[i] == q;
      assert remaining[i] == candidates[q];
      assert i < best ==> left[i] < left[best];
    }
  }

  lemma ChoiceIsInRange(store: Store, candidates: seq<Candidate>, taken: seq<nat>, p: nat)
    requires store.Indexes(candidates) && InRange(candidates, taken) && IsChoice(store, candidates, taken, p)
    ensures p < |candidates| && InRange(candidates, taken + [p])
  {
    hide Store.MmrScore;
  }

  lemma ExtendGreedy(store: Store, candidates: seq<Candidate>, positions: seq<nat>, p: nat)
    requires store.Indexes(candidates) && IsGreedy(store, candidates, positions)
    requires IsChoice(store, candidates, positions, p)
    ensures IsGreedy(store, candidates, positions + [p])
    ensures IndexesOf(candidates, positions + [p]) == IndexesOf(candidates, positions) + [candidates[p].index]
  {
    hide Store.MmrScore, IsChoice;
    var longer := positions + [p];
    assert InRange(candidates, longer) by {
      ChoiceIsInRange(store, candidates, positions, p);
    }
    forall t | 0 <= t < |longer| ensures IsChoice(store, candidates, longer[..t], longer[t]) {
      if t < |positions| {
        assert longer[..t] == positions[..t];
      } else {
        assert longer[..t] == positions;
      }
    }
  }

  /** `Vec::remove`: what is left of `s` without the element at `k`. */
  function Without<T>(s: seq<T>, k: nat): (r: seq<T>)
    requires k < |s|
    ensures |r| == |s| - 1
    ensures forall i :: 0 <= i < k ==> r[i] == s[i]
    ensures forall i :: k < i < |s| ==> r[i - 1] == s[i]
    ensures forall i :: k <= i < |r| ==> r[i] == s[i + 1]
  {
    s[..k] + s[k + 1..]
  }

  lemma RemoveFromRest(candidates: seq<Candidate>, taken: seq<nat>, remaining: seq<Candidate>, left: seq<nat>,
      best: nat)
    requires IsRest(candidates, taken, remaining, left) && best < |left|
    ensures IsRest(candidates, taken + [left[best]], Without(remaining, best), Without(left, best))
  {
    var p, rest, shorter := left[best], Without(left, best), Without(remaining, best);
    forall i | 0 <= i < |rest|
      ensures rest[i] < |candidates| && shorter[i] == candidates[rest[i]] && rest[i] !in taken + [p]
    {
      var j := if i < best then i else i + 1;
      assert rest[i] == left[j] && shorter[i] == remaining[j];
      assert j < best ==> left[j] < left[best];
      assert best < j ==> left[best] < left[j];
    }
    RestCovers(candidates, taken, remaining, left, best);
  }

  lemma RestCovers(candidates: seq<Candidate>, taken: seq<nat>, remaining: seq<Candidate>, left: seq<nat>, best: nat)
    requires IsRest(candidates, taken, remaining, left) && best < |left|
    ensures forall q :: 0 <= q < |candidates| && q !in taken + [left[best]] ==> q in Without(left, best)
  {
    var p, rest, gone := left[best], Without(left, best), taken + [left[best]];
    assert gone[|taken|] == p && forall t :: t in taken ==> t in gone;
    forall q | 0 <= q < |candidates| && q !in gone ensures q in rest {
      var j :| 0 <= j < |left| && left[j] == q;
      assert j != best;
      assert rest[if j < best then j else j - 1] == q;
    }
  }

  /** Greedy selections are determined: the tie rule leaves no choice. */
  lemma {:induction false} GreedyIsUnique(store: Store, candidates: seq<Candidate>, a: seq<nat>, b: seq<nat>)
    requires store.Indexes(candidates) && |a| == |b|
    requires IsGreedy(store, candidates, a) && IsGreedy(store, candidates, b)
    ensures a == b
  {
    hide *;
    if a == [] {
    } else {
      var last := |a| - 1;
      GreedyLast(store, candidates, a);
      GreedyLast(store, candidates, b);
      GreedyIsUnique(store, candidates, a[..last], b[..last]);
      ChoiceIsUnique(store, candidates, a[..last], a[last], b[last]);
      assert a == a[..last] + [a[last]] && b == b[..last] + [b[last]];
    }
  }

  lemma GreedyLast(store: Store, candidates: seq<Candidate>, positions: seq<nat>)
    requires store.Indexes(candidates) && IsGreedy(store, candidates, positions) && positions != []
    ensures var last := |positions| - 1;
      && IsGreedy(store, candidates, positions[..last])
      && InRange(candidates, positions[..last])
      && IsChoice(store, candidates, positions[..last], positions[last])
  {
    GreedyPrefix(store, candidates, positions, |positions| - 1);
  }

  lemma ChoiceIsUnique(store: Store, candidates: seq<Candidate>, taken: seq<nat>, p: nat, q: nat)
    requires store.Indexes(candidates) && InRange(candidates, taken)
    requires IsChoice(store, candidates, taken, p) && IsChoice(store, candidates, taken, q)
    ensures p == q
  {
  }

  lemma GreedyPrefix(store: Store, candidates: seq<Candidate>, positions: seq<nat>, n: nat)
    requires store.Indexes(candidates) && IsGreedy(store, candidates, positions) && n <= |positions|
    ensures IsGreedy(store, candidates, positions[..n])
  {
    forall t | 0 <= t < n ensures IsChoice(store, candidates, positions[..n][..t], positions[..n][t]) {
      assert positions[..n][..t] == positions[..t];
    }
  }

  lemma GreedyIsDistinct(store: Store, candidates: seq<Candidate>, positions: seq<nat>)
    requires store.Indexes(candidates) && IsGreedy(store, candidates, positions)
    ensures Distinct(positions)
  {
    forall i, j | 0 <= i < j < |positions| ensures positions[i] != positions[j] {
      assert IsChoice(store, candidates, positions[..j], positions[j]);
      assert positions[..j][i] == positions[i];
    }
  }

  // ---------------------------------------------------------------------------
  // Pure relevance
  // ---------------------------------------------------------------------------

  /** With lambda = 1 the choice is by relevance alone. */
  lemma RelevanceChoice(store: Store, candidates: seq<Candidate>, taken: seq<nat>, p: nat, q: nat)
    requires store.Indexes(candidates) && InRange(candidates, taken) && store.lambda == 1.0
    requires IsChoice(store, candidates, taken, p) && q < |candidates| && q !in taken
    ensures candidates[q].score <= candidates[p].score
  {
    if q != p {
      var s := IndexesOf(candidates, taken);
      assert store.MmrScore(candidates[q], s) <= store.MmrScore(candidates[p], s);
      assert store.MmrScore(candidates[q], s) == candidates[q].score;
      assert store.MmrScore(candidates[p], s) == candidates[p].score;
    }
  }

  /** With lambda = 1 each round takes a candidate of the score that plain top-k takes in that place. */
  lemma PureRelevanceIsTopK(store: Store, candidates: seq<Candidate>, positions: seq<nat>, t: nat)
    requires store.Indexes(candidates) && store.lambda == 1.0 && SortedBy(candidates, Descending())
    requires IsGreedy(store, candidates, positions) && t < |positions|
    ensures t < |candidates| && candidates[positions[t]].score == candidates[t].score
  {
    hide Store.MmrScore;
    GreedyIsDistinct(store, candidates, positions);
    var taken, p := positions[..t], positions[t];
    var front := UpTo(t);
    assert IsChoice(store, candidates, taken, p);
    // Among the first t + 1 candidates one is still free, so the choice is no worse than candidate t.
    if forall i :: 0 <= i <= t ==> i in taken {
      var all := seq(t + 1, (i: nat) => i);
      DistinctFits(all, Elements(taken));
    }
    var free :| 0 <= free <= t && free !in taken;
    DistinctBelow(positions, |candidates|);
    RelevanceChoice(store, candidates, taken, p, free);
    forall x, y | 0 <= x <= y < |candidates| ensures candidates[x].score >= candidates[y].score {
      assert x < y ==> Descending()(candidates[x], candidates[y]);
    }
    // If it were better, so were all earlier choices: t + 1 distinct positions before t.
    if candidates[p].score > candidates[t].score {
      var early := positions[..t + 1];
      forall x | x in early ensures x in front {
        var j :| 0 <= j <= t && early[j] == x;
        EarlierIsBetter(store, candidates, positions, j, t);
        assert candidates[x].score > candidates[t].score;
      }
      DistinctFits(early, front);
    }
  }

  lemma EarlierIsBetter(store: Store, candidates: seq<Candidate>, positions: seq<nat>, j: nat, t: nat)
    requires store.Indexes(candidates) && store.lambda == 1.0
    requires IsGreedy(store, candidates, positions) && j <= t < |positions|
    ensures candidates[positions[t]].score <= candidates[positions[j]].score
  {
    GreedyIsDistinct(store, candidates, positions);
    assert IsChoice(store, candidates, positions[..j], positions[j]);
    assert IsChoice(store, candidates, positions[..t], positions[t]);
    if j < t {
      RelevanceChoice(store, candidates, positions[..j], positions[j], positions[t]);
    }
  }

  // ---------------------------------------------------------------------------
  // The whole recall
  // ---------------------------------------------------------------------------

  /** A query against a store. */
  datatype Request = Request(
    config: RecallConfig, query: string, embedding: Option<Vector>, memories: seq<StoredMemory>, norm: Vector -> real)
  {
    function ScoreOf(i: nat): real
      requires i < |memories|
    {
      Score(config, query, embedding, memories[i], norm)
    }

    /** `c` stands for a memory whose score reaches the threshold. */
    predicate Admits(c: Candidate) {
      c.index < |memories| && c.score == ScoreOf(c.index) && c.score >= config.relevanceThreshold
    }

    /** The candidates among the first `n` memories, in store order. */
    function Scored(n: nat): (r: seq<Candidate>)
      requires n <= |memories|
      ensures forall c :: c in r <==> Admits(c) && c.index < n
      ensures forall i, j :: 0 <= i < j < |r| ==> r[i].index < r[j].index
    {
      if n == 0 then []
      else
        var score := ScoreOf(n - 1);
        Scored(n - 1) + (if score >= config.relevanceThreshold then [Candidate(n - 1, score)] else [])
    }

    function Ranked(): seq<Candidate> {
      SortBy(Scored(|memories|), Descending())
    }

    function Chooser(): Store {
      Store(memories, config.mmrLambda, norm)
    }

    function Recalled(c: Candidate): RecalledMemory
      requires c.index < |memories|
    {
      RecalledMemory(memories[c.index].content, c.score, memories[c.index].sourceSession, config.recallMethod)
    }
  }

  /**
   The ranking is sorted, memories of equal score in store order, and holds exactly those that reach the
   threshold, each once.
   */
  lemma RankedIsSortedAndComplete(r: Request)
    ensures SortedBy(r.Ranked(), Descending())
    ensures forall c :: c in r.Ranked() <==> r.Admits(c)
    ensures forall i, j :: 0 <= i < j < |r.Ranked()| ==> r.Ranked()[i].index != r.Ranked()[j].index
    ensures BreaksTies(r.Ranked(), Position(), Descending())
    ensures r.Chooser().Indexes(r.Ranked())
  {
    hide Request.Admits, SortBy, SortedBy, BreaksTies;
    var scored, ranked := r.Scored(|r.memories|), r.Ranked();
    SortBreaksTiesByRank(scored, Position(), Descending());
    SortIsStable(scored, Candidate(0, 0.0), Descending());
    SameElements(scored, ranked);
    hide Request.Scored;
    forall c ensures c in ranked <==> r.Admits(c) {
      AdmittedIsInRange(r, c);
    }
    forall i, j | 0 <= i < j < |ranked| ensures ranked[i].index != ranked[j].index {
      OnceOnly(scored, ranked, i, j);
    }
    forall i | 0 <= i < |ranked| ensures ranked[i].index < |r.memories| {
      assert ranked[i] in ranked;
    }
  }

  lemma AdmittedIsInRange(r: Request, c: Candidate)
    ensures r.Admits(c) ==> c.index < |r.memories|
  {
  }

  lemma SameElements<T>(s: seq<T>, t: seq<T>)
    requires multiset(s) == multiset(t)
    ensures forall x :: x in s <==> x in t
  {
    assert forall x :: x in s <==> x in multiset(s);
    assert forall x :: x in t <==> x in multiset(t);
  }

  lemma OnceOnly(s: seq<Candidate>, t: seq<Candidate>, i: nat, j: nat)
    requires multiset(s) == multiset(t) && i < j < |t|
    requires forall a, b :: 0 <= a < b < |s| ==> s[a].index < s[b].index
    ensures t[i].index != t[j].index
  {
    if t[i].index == t[j].index {
      SameElements(s, t);
      assert t[i] in t && t[j] in t && t[i] in s && t[j] in s;
      var a :| 0 <= a < |s| && s[a] == t[i];
      var b :| 0 <= b < |s| && s[b] == t[j];
      assert a == b;
      TwiceInMultiset(t, i, j);
      OnceInMultiset(s, a);
    }
  }

  lemma TwiceInMultiset<T>(t: seq<T>, i: nat, j: nat)
    requires i < j < |t| && t[i] == t[j]
    ensures multiset(t)[t[i]] >= 2
  {
    assert t == t[..i] + [t[i]] + t[i + 1..j] + [t[j]] + t[j + 1..];
  }

  lemma OnceInMultiset(s: seq<Candidate>, a: nat)
    requires a < |s|
    requires forall x, y :: 0 <= x < y < |s| ==> s[x].index < s[y].index
    ensures multiset(s)[s[a]] == 1
  {
    assert s == s[..a] + [s[a]] + s[a + 1..];
    assert s[a] !in s[..a] && s[a] !in s[a + 1..];
  }

  /** The positions in the ranking that a recall returns, in the order it returns them. */
  ghost predicate IsSelection(r: Request, positions: seq<nat>)
    requires r.Chooser().Indexes(r.Ranked())
  {
    var ranked, k := r.Ranked(), r.config.maxResults;
    if r.config.useMmr && r.embedding.Some? then
      IsGreedy(r.Chooser(), ranked, positions) && |positions| == (if k < |ranked| then k else |ranked|)
    else positions == Firsts(k, |ranked|)
  }

  ghost predicate AreResults(r: Request, positions: seq<nat>, results: seq<RecalledMemory>)
    requires r.Chooser().Indexes(r.Ranked())
  {
    && InRange(r.Ranked(), positions)
    && |results| == |positions|
    && forall i :: 0 <= i < |results| ==> results[i] == r.Recalled(r.Ranked()[positions[i]])
  }

  /** Every result is a ranked memory with its own score, chosen by MMR or by rank. */
  method RecallWithEmbedding(r: Request) returns (results: seq<RecalledMemory>)
    ensures r.Chooser().Indexes(r.Ranked())
    ensures exists positions :: IsSelection(r, positions) && AreResults(r, positions, results)
  {
    RankedIsSortedAndComplete(r);
    var scored := SortBy(r.Scored(|r.memories|), Descending());
    assert scored == r.Ranked();
    hide *;
    var chosen: seq<nat>;
    ghost var positions: seq<nat>;
    if r.config.useMmr && r.embedding.Some? {
      chosen := MmrSelect(r.Chooser(), scored, r.config.maxResults);
      positions := SelectedPositions(r, chosen);
    } else {
      chosen := IndexesOf(scored, Firsts(r.config.maxResults, |scored|));
      positions := Firsts(r.config.maxResults, |scored|);
      FirstsAreSelected(r);
    }
    results := Recollect(r, scored, chosen, positions);
  }

  lemma SelectedPositions(r: Request, chosen: seq<nat>) returns (positions: seq<nat>)
    requires r.Chooser().Indexes(r.Ranked()) && r.config.useMmr && r.embedding.Some?
    requires IsMmrSelection(r.Chooser(), r.Ranked(), r.config.maxResults, chosen)
    ensures IsSelection(r, positions) && InRange(r.Ranked(), positions) && chosen == IndexesOf(r.Ranked(), positions)
  {
    hide Request.Ranked;
    var ranked := r.Ranked();
    positions :| IsGreedy(r.Chooser(), ranked, positions)
      && |positions| == (if r.config.maxResults < |ranked| then r.config.maxResults else |ranked|)
      && chosen == IndexesOf(ranked, positions);
  }

  lemma FirstsAreSelected(r: Request)
    requires r.Chooser().Indexes(r.Ranked()) && !(r.config.useMmr && r.embedding.Some?)
    ensures var positions := Firsts(r.config.maxResults, |r.Ranked()|);
      IsSelection(r, positions) && InRange(r.Ranked(), positions)
  {
  }

  /** Looks each chosen memory up again in the ranking, for its score. */
  method Recollect(r: Request, scored: seq<Candidate>, chosen: seq<nat>, ghost positions: seq<nat>)
      returns (results: seq<RecalledMemory>)
    requires scored == r.Ranked() && r.Chooser().Indexes(scored)
    requires forall i, j :: 0 <= i < j < |scored| ==> scored[i].index != scored[j].index
    requires InRange(scored, positions) && chosen == IndexesOf(scored, positions)
    ensures AreResults(r, positions, results)
  {
    hide Request.Ranked;
    results := [];
    for i := 0 to |chosen|
      invariant |results| == i
      invariant forall j :: 0 <= j < i ==> results[j] == r.Recalled(scored[positions[j]])
    {
      assert scored[positions[i]].index == chosen[i];
      var p := FindIndex(scored, chosen[i], positions[i]);
      results := results + [r.Recalled(scored[p])];
    }
  }

  /** `find`: the first candidate with the given memory index. */
  method FindIndex(candidates: seq<Candidate>, index: nat, ghost holder: nat) returns (p: nat)
    requires holder < |candidates| && candidates[holder].index == index
    requires forall i, j :: 0 <= i < j < |candidates| ==> candidates[i].index != candidates[j].index
    ensures p == holder
  {
    p := 0;
    while candidates[p].index != index
      invariant p <= holder
      decreases holder - p
    {
      p := p + 1;
    }
  }

  /** The first `k` of `n` positions. */
  function Firsts(k: nat, n: nat): (r: seq<nat>)
    ensures |r| == if k < n then k else n
    ensures forall i :: 0 <= i < |r| ==> r[i] == i
  {
    seq(if k < n then k else n, (i: nat) => i)
  }
}
