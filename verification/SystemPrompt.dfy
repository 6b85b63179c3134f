/** The cached system prompt (`y-context/src/system_prompt.rs`). */
module SystemPrompt {
  import opened CacheKey
  import opened Conditions
  import opened Numbers
  import Pipeline
  import opened PromptSections
  import opened Sorting
  import opened Text
  import opened Wrappers

  /** Live inputs of one call: the clock, and the environment text for a workspace path. */
  datatype Env = Env(datetime: string, environment: Option<string> -> string)

  predicate IsVolatile(id: string) {
    id == "core.datetime" || id == "core.environment" || id == "core.mcp_hint"
  }

  predicate IsCustomPromptReplaced(id: string) {
    id == "core.identity" || id == "core.guidelines" || id == "core.security" || id == "core.persona"
  }

  const AGENTS_MARK := "{{CALLABLE_AGENTS}}"

  function ReplaceAll(s: string, mark: string, replacement: string): string
    requires mark != ""
    decreases |s|
  {
    if s == "" then ""
    else if mark <= s then replacement + ReplaceAll(s[|mark|..], mark, replacement)
    else [s[0]] + ReplaceAll(s[1..], mark, replacement)
  }

  // ---------------------------------------------------------------------------
  // Assembling from scratch
  // ---------------------------------------------------------------------------

  function StablePiece(e: Entry, ctx: PromptContext, agents: string): Option<Piece> {
    if IsVolatile(e.id) then None
    else if ctx.customSystemPrompt.Some? && IsCustomPromptReplaced(e.id) then None
    else if !e.Applies(ctx) || e.content == None then None
    else Some(Piece(
      if e.id == "core.orchestration" then ReplaceAll(e.content.value, AGENTS_MARK, agents) else e.content.value,
      e.tokenBudget))
  }

  function VolatilePiece(e: Entry, ctx: PromptContext, env: Env): Option<Piece> {
    if !IsVolatile(e.id) || !e.Applies(ctx) || e.content == None then None
    else Some(Piece(
      if e.id == "core.datetime" then env.datetime
      else if e.id == "core.environment" then env.environment(ctx.workingDirectory)
      else if ctx.mcpInstructions.Some? then e.content.value + "\n\n" + ctx.mcpInstructions.value
      else e.content.value,
      e.tokenBudget))
  }

  function StablePieces(entries: seq<Entry>, ctx: PromptContext, agents: string): (r: seq<Option<Piece>>)
    ensures |r| == |entries|
  {
    seq(|entries|, i requires 0 <= i < |entries| => StablePiece(entries[i], ctx, agents))
  }

  function VolatilePieces(entries: seq<Entry>, ctx: PromptContext, env: Env): (r: seq<Option<Piece>>)
    ensures |r| == |entries|
  {
    seq(|entries|, i requires 0 <= i < |entries| => VolatilePiece(entries[i], ctx, env))
  }

  /** The custom prompt, cut to the whole budget, comes first. */
  function StableStart(ctx: PromptContext, total: u32): Draft {
    if ctx.customSystemPrompt.Some? then
      var custom := Truncate(ctx.customSystemPrompt.value, total);
      Draft(custom, EstimateTokens(custom), false)
    else Draft("", 0, false)
  }

  function StableOf(entries: seq<Entry>, ctx: PromptContext, agents: string, total: u32): Draft {
    AddAll(StableStart(ctx, total), StablePieces(entries, ctx, agents), total)
  }

  /** The volatile sections after a stable prefix, and the fallback if nothing came of it. */
  function Finished(text: string, tokens: u32, entries: seq<Entry>, ctx: PromptContext, env: Env, total: u32,
      fallback: string): Draft {
    var d := AddAll(Draft(text, tokens, false), VolatilePieces(entries, ctx, env), total);
    if d.text == "" then Draft(fallback, EstimateTokens(fallback), d.full) else d
  }

  datatype Cache = Cache(key: string, text: string, tokens: u32)

  datatype State = State(store: SectionStore, ctx: PromptContext, agents: string, cache: Option<Cache>)

  /** What never changes: the template and the fallback prompt. */
  datatype Stage = Stage(template: Template, fallback: string)
  {
    function Total(ctx: PromptContext): u32 {
      template.effectiveBudget(ctx.agentMode)
    }

    function Stable(store: SectionStore, ctx: PromptContext, agents: string): Draft {
      StableOf(Entries(template, store, ctx), ctx, agents, Total(ctx))
    }

    function Complete(s: State, text: string, tokens: u32, env: Env): Draft {
      Finished(text, tokens, Entries(template, s.store, s.ctx), s.ctx, env, Total(s.ctx), fallback)
    }

    /** The prompt assembled from nothing but the current inputs. */
    function FromScratch(s: State, env: Env): Draft {
      var stable := Stable(s.store, s.ctx, s.agents);
      Complete(s, stable.text, stable.tokens, env)
    }

    predicate Hits(s: State, order: seq<string>)
      requires forall name :: name in order ==> name in s.ctx.configFlags
    {
      s.cache.Some? && s.cache.value.key == Key(s.ctx, s.agents, order)
    }

    /**
     The cache after a call: the one that hit, or a new one. The callable agents are read twice, for
     the key and for the text; by the second time another task may have set them to `later`.
     */
    function CacheAmid(s: State, order: seq<string>, later: string): Cache
      requires forall name :: name in order ==> name in s.ctx.configFlags
    {
      if Hits(s, order) then s.cache.value
      else
        var stable := Stable(s.store, s.ctx, later);
        Cache(Key(s.ctx, s.agents, order), stable.text, stable.tokens)
    }

    /** What such a call gives: the cached or rebuilt stable prefix, completed. */
    function ProvidedAmid(s: State, order: seq<string>, later: string, env: Env): Draft
      requires forall name :: name in order ==> name in s.ctx.configFlags
    {
      var cache := CacheAmid(s, order, later);
      Complete(s, cache.text, cache.tokens, env)
    }

    /** A call that nothing comes between. */
    function CacheAfter(s: State, order: seq<string>): Cache
      requires forall name :: name in order ==> name in s.ctx.configFlags
    {
      CacheAmid(s, order, s.agents)
    }

    function Provided(s: State, order: seq<string>, env: Env): Draft
      requires forall name :: name in order ==> name in s.ctx.configFlags
    {
      ProvidedAmid(s, order, s.agents, env)
    }
  }

  // ---------------------------------------------------------------------------
  // What the stable prefix depends on
  // ---------------------------------------------------------------------------

  /** The condition of a stable section holds in both contexts or in neither. */
  predicate EntryAgrees(e: Entry, a: PromptContext, b: PromptContext) {
    !IsVolatile(e.id) ==> e.Applies(a) == e.Applies(b)
  }

  function ConditionOf(eff: EffectiveSection, store: SectionStore): Option<Condition> {
    if eff.sectionId !in store || IsVolatile(eff.sectionId) then None
    else if eff.conditionOverride.Some? then eff.conditionOverride
    else store[eff.sectionId].condition
  }

  /** The key settles the condition of a section, or the contexts agree on what it reads besides. */
  ghost predicate SectionAgrees(eff: EffectiveSection, store: SectionStore, a: PromptContext, b: PromptContext) {
    ConditionOf(eff, store).Some? ==>
      IsDetermined(ConditionOf(eff, store).value) || AgreeBesidesKey(ConditionOf(eff, store).value, a, b)
  }

  /** The same for every stable section that the template can yield, in any mode. */
  ghost predicate SameReads(template: Template, store: SectionStore, a: PromptContext, b: PromptContext) {
    forall mode: string, i: nat :: i < |template.effectiveSections(mode)| ==>
      SectionAgrees(template.effectiveSections(mode)[i], store, a, b)
  }

  lemma SameReadsIsReflexive(template: Template, store: SectionStore, a: PromptContext)
    ensures SameReads(template, store, a, a)
  {
    forall mode: string, i: nat | i < |template.effectiveSections(mode)|
      ensures SectionAgrees(template.effectiveSections(mode)[i], store, a, a)
    {
      var condition := ConditionOf(template.effectiveSections(mode)[i], store);
      if condition.Some? {
        AgreementIsReflexive(condition.value, a);
      }
    }
  }

  lemma SameReadsIsTransitive(template: Template, store: SectionStore, a: PromptContext, b: PromptContext,
      c: PromptContext)
    requires SameReads(template, store, a, b) && SameReads(template, store, b, c)
    ensures SameReads(template, store, a, c)
  {
    forall mode: string, i: nat | i < |template.effectiveSections(mode)|
      ensures SectionAgrees(template.effectiveSections(mode)[i], store, a, c)
    {
      var eff := template.effectiveSections(mode)[i];
      assert SectionAgrees(eff, store, a, b) && SectionAgrees(eff, store, b, c);
      if ConditionOf(eff, store).Some? && !IsDetermined(ConditionOf(eff, store).value) {
        AgreementIsTransitive(ConditionOf(eff, store).value, a, b, c);
      }
    }
  }

  lemma SelectionAgrees(id: string, a: PromptContext, b: PromptContext)
    requires SameKeyedInputs(a, b)
    ensures IsSelected(id, a) == IsSelected(id, b)
  {
    assert "plan_mode." <= "plan_mode.active" && "loop_mode." <= "loop_mode.active";
    assert "mcp." <= "mcp.enabled" && "orchestration." <= "orchestration.enabled";
    assert RequiredFlag(id).Some? ==> IsKeyedFlag(RequiredFlag(id).value);
  }

  lemma {:induction false} ResolvedAgrees(sections: seq<EffectiveSection>, store: SectionStore, a: PromptContext,
      b: PromptContext)
    requires SameKeyedInputs(a, b) && IsPlain(a)
    requires forall i :: 0 <= i < |sections| ==> SectionAgrees(sections[i], store, a, b)
    ensures Resolved(sections, store, a) == Resolved(sections, store, b)
    ensures forall e :: e in Resolved(sections, store, a) ==> EntryAgrees(e, a, b)
  {
    if sections == [] {
    } else {
      var last := |sections| - 1;
      ResolvedAgrees(sections[..last], store, a, b);
      SelectionAgrees(sections[last].sectionId, a, b);
      assert SectionAgrees(sections[last], store, a, b);
      if ConditionOf(sections[last], store).Some? {
        AgreedCondition(ConditionOf(sections[last], store).value, a, b);
      }
    }
  }

  /** Equal keyed inputs select, order and condition the same sections. */
  lemma EntriesAgree(template: Template, store: SectionStore, a: PromptContext, b: PromptContext)
    requires SameKeyedInputs(a, b) && IsPlain(a) && SameReads(template, store, a, b)
    ensures Entries(template, store, a) == Entries(template, store, b)
    ensures forall e :: e in Entries(template, store, a) ==> EntryAgrees(e, a, b)
  {
    var sections := template.effectiveSections(a.agentMode);
    ResolvedAgrees(sections, store, a, b);
    var resolved, entries := Resolved(sections, store, a), Entries(template, store, a);
    SortIsStable(resolved, Entry("", 0, None, None, 0), ByPriority());
    forall e | e in entries ensures EntryAgrees(e, a, b) {
      assert e in multiset(entries);
    }
  }

  lemma PiecesAgree(entries: seq<Entry>, a: PromptContext, b: PromptContext, agents: string)
    requires SameKeyedInputs(a, b) && forall e :: e in entries ==> EntryAgrees(e, a, b)
    ensures StablePieces(entries, a, agents) == StablePieces(entries, b, agents)
  {
    forall i | 0 <= i < |entries| ensures StablePiece(entries[i], a, agents) == StablePiece(entries[i], b, agents) {
      assert EntryAgrees(entries[i], a, b);
    }
  }

  /**
   Of two contexts that agree on the keyed inputs, the cached prefix of one serves the other, for
   every choice of sections whose conditions they decide alike, exactly if their custom prompts agree
   once cut to the budget. The key records only whether there is a custom prompt.
   */
  lemma PrefixIsSharedIff(a: PromptContext, b: PromptContext, agents: string, total: u32)
    requires SameKeyedInputs(a, b)
    ensures (forall entries :: (forall e :: e in entries ==> EntryAgrees(e, a, b)) ==>
        StableOf(entries, a, agents, total) == StableOf(entries, b, agents, total))
      <==> StableStart(a, total) == StableStart(b, total)
  {
    assert StableOf([], a, agents, total) == StableStart(a, total);
    assert StableOf([], b, agents, total) == StableStart(b, total);
    if StableStart(a, total) == StableStart(b, total) {
      forall entries | forall e :: e in entries ==> EntryAgrees(e, a, b)
        ensures StableOf(entries, a, agents, total) == StableOf(entries, b, agents, total)
      {
        PiecesAgree(entries, a, b, agents);
      }
    }
  }

  lemma StableAgrees(stage: Stage, store: SectionStore, a: PromptContext, b: PromptContext, agents: string)
    requires SameKeyedInputs(a, b) && IsPlain(a) && SameReads(stage.template, store, a, b)
    requires a.customSystemPrompt == b.customSystemPrompt
    ensures stage.Stable(store, a, agents) == stage.Stable(store, b, agents)
  {
    EntriesAgree(stage.template, store, a, b);
    PiecesAgree(Entries(stage.template, store, a), a, b, agents);
  }

  // ---------------------------------------------------------------------------
  // Runs
  // ---------------------------------------------------------------------------

  predicate Mentions(s: string, mark: string) {
    mark <= s || (s != "" && Mentions(s[1..], mark))
  }

  lemma {:induction false} NothingToReplace(s: string, mark: string, replacement: string)
    requires mark != "" && !Mentions(s, mark)
    ensures ReplaceAll(s, mark, replacement) == s
  {
    if s == "" {
    } else {
      NothingToReplace(s[1..], mark, replacement);
    }
  }

  /** The entry does not show the callable agents. */
  predicate EntryIgnoresAgents(e: Entry, ctx: PromptContext) {
    e.id == "core.orchestration" && e.Applies(ctx) && e.content.Some? ==> !Mentions(e.content.value, AGENTS_MARK)
  }

  /** No section that applies shows them. */
  predicate IgnoresAgents(stage: Stage, store: SectionStore, ctx: PromptContext) {
    forall e :: e in Entries(stage.template, store, ctx) ==> EntryIgnoresAgents(e, ctx)
  }

  lemma IgnoredAgentsDoNotShow(stage: Stage, store: SectionStore, ctx: PromptContext, a: string, b: string)
    requires IgnoresAgents(stage, store, ctx)
    ensures stage.Stable(store, ctx, a) == stage.Stable(store, ctx, b)
  {
    hide Entries, Condition.Evaluate, Mentions, ReplaceAll;
    var entries := Entries(stage.template, store, ctx);
    forall i | 0 <= i < |entries| ensures StablePiece(entries[i], ctx, a) == StablePiece(entries[i], ctx, b) {
      var e := entries[i];
      assert EntryIgnoresAgents(e, ctx);
      if e.content.Some? && !Mentions(e.content.value, AGENTS_MARK) {
        NothingToReplace(e.content.value, AGENTS_MARK, a);
        NothingToReplace(e.content.value, AGENTS_MARK, b);
      }
    }
    assert StablePieces(entries, ctx, a) == StablePieces(entries, ctx, b);
  }

  /** `SetContextAndInvalidate` is a context change followed by an invalidation before the next call. */
  datatype Op =
    | Provide(order: seq<string>, env: Env)
    | ProvideAmid(order: seq<string>, later: string, env: Env)
    | Invalidate
    | Reload(store: SectionStore)
    | SetContext(ctx: PromptContext)
    | SetContextAndInvalidate(ctx: PromptContext)
    | SetAgents(agents: string)

  /**
   A change of the custom prompt, or of a skill, tool or flag that is not in the key but in the
   condition of a stable section, has to come with an invalidation. A change of the callable agents
   must not fall between the two reads of a call that rebuilds a text in which they appear.
   */
  ghost predicate Enabled(stage: Stage, s: State, op: Op) {
    match op
    case Provide(order, _) => Enumerates(order, s.ctx.configFlags)
    case ProvideAmid(order, later, _) =>
      && Enumerates(order, s.ctx.configFlags)
      && (later == s.agents || stage.Hits(s, order) || IgnoresAgents(stage, s.store, s.ctx))
    case SetContext(ctx) =>
      && IsPlain(ctx)
      && ctx.customSystemPrompt == s.ctx.customSystemPrompt
      && SameReads(stage.template, s.store, s.ctx, ctx)
    case SetContextAndInvalidate(ctx) => IsPlain(ctx)
    case _ => true
  }

  function Apply(stage: Stage, s: State, op: Op): State
    requires op.Provide? || op.ProvideAmid? ==> forall name :: name in op.order ==> name in s.ctx.configFlags
  {
    match op
    case Provide(order, _) => s.(cache := Some(stage.CacheAfter(s, order)))
    case ProvideAmid(order, later, _) => s.(agents := later, cache := Some(stage.CacheAmid(s, order, later)))
    case Invalidate => s.(cache := None)
    case Reload(store) => s.(store := store, cache := None)
    case SetContext(ctx) => s.(ctx := ctx)
    case SetContextAndInvalidate(ctx) => s.(ctx := ctx, cache := None)
    case SetAgents(agents) => s.(agents := agents)
  }

  /**
   The cache holds the stable prefix of some earlier inputs, under their key, that agree with today's
   besides the key.
   */
  ghost predicate CachedFor(stage: Stage, s: State, ctx: PromptContext, agents: string, order: seq<string>)
    requires s.cache.Some?
  {
    && IsPlain(ctx) && Enumerates(order, ctx.configFlags)
    && ctx.customSystemPrompt == s.ctx.customSystemPrompt
    && SameReads(stage.template, s.store, ctx, s.ctx)
    && s.cache.value.key == Key(ctx, agents, order)
    && s.cache.value.text == stage.Stable(s.store, ctx, agents).text
    && s.cache.value.tokens == stage.Stable(s.store, ctx, agents).tokens
  }

  ghost predicate Good(stage: Stage, s: State) {
    && IsPlain(s.ctx)
    && (s.cache.Some? ==> exists ctx, agents, order :: CachedFor(stage, s, ctx, agents, order))
  }

  lemma OrderIsStored(order: seq<string>, flags: map<string, bool>)
    requires Enumerates(order, flags)
    ensures forall name :: name in order ==> name in flags
  {
  }

  lemma GoodStep(stage: Stage, s: State, op: Op)
    requires Good(stage, s) && Enabled(stage, s, op)
    ensures Good(stage, Apply(stage, s, op))
  {
    if op.Provide? || op.ProvideAmid? {
      OrderIsStored(op.order, s.ctx.configFlags);
    }
    hide Key, Stage.Stable, IsPlain, Enumerates, SameReads, IgnoresAgents;
    var t := Apply(stage, s, op);
    match op
    case Provide(order, _) =>
      if stage.Hits(s, order) {
        assert t == s;
      } else {
        SameReadsIsReflexive(stage.template, s.store, s.ctx);
        assert CachedFor(stage, t, s.ctx, s.agents, order);
      }
    case ProvideAmid(order, later, _) =>
      if stage.Hits(s, order) {
        var c, x, o :| CachedFor(stage, s, c, x, o);
        assert CachedFor(stage, t, c, x, o);
      } else {
        SameReadsIsReflexive(stage.template, s.store, s.ctx);
        if later != s.agents {
          IgnoredAgentsDoNotShow(stage, s.store, s.ctx, s.agents, later);
        }
        assert CachedFor(stage, t, s.ctx, s.agents, order);
      }
    case SetContext(ctx) =>
      if s.cache.Some? {
        var c, x, o :| CachedFor(stage, s, c, x, o);
        SameReadsIsTransitive(stage.template, s.store, c, s.ctx, ctx);
        assert CachedFor(stage, t, c, x, o);
      }
    case SetAgents(_) =>
      if s.cache.Some? {
        var c, x, o :| CachedFor(stage, s, c, x, o);
        assert CachedFor(stage, t, c, x, o);
      }
    case _ =>
  }

  ghost predicate IsRun(stage: Stage, start: State, ops: seq<Op>)
    decreases |ops|, 0
  {
    ops == [] || (
      var front, op := ops[..|ops| - 1], ops[|ops| - 1];
      IsRun(stage, start, front) && Enabled(stage, After(stage, start, front), op))
  }

  ghost function After(stage: Stage, start: State, ops: seq<Op>): State
    requires IsRun(stage, start, ops)
    decreases |ops|, 1
  {
    if ops == [] then start else Apply(stage, After(stage, start, ops[..|ops| - 1]), ops[|ops| - 1])
  }

  lemma {:induction false} RunsStayGood(stage: Stage, start: State, ops: seq<Op>)
    requires Good(stage, start) && IsRun(stage, start, ops)
    ensures Good(stage, After(stage, start, ops))
  {
    if ops == [] {
    } else {
      RunsStayGood(stage, start, ops[..|ops| - 1]);
      GoodStep(stage, After(stage, start, ops[..|ops| - 1]), ops[|ops| - 1]);
    }
  }

  /** In a good state a call gives exactly what assembling from scratch would. */
  lemma CacheIsTransparent(stage: Stage, s: State, order: seq<string>, env: Env)
    requires Good(stage, s) && Enumerates(order, s.ctx.configFlags)
    ensures stage.Provided(s, order, env) == stage.FromScratch(s, env)
  {
    if stage.Hits(s, order) {
      var c, x, o :| CachedFor(stage, s, c, x, o);
      EqualKeysHaveEqualInputs(c, x, o, s.ctx, s.agents, order);
      StableAgrees(stage, s.store, c, s.ctx, x);
    }
  }

  /**
   A call between whose reads the agents change gives what assembling from scratch gives under the old
   or the new ones.
   */
  lemma AmidIsOldOrNew(stage: Stage, s: State, order: seq<string>, later: string, env: Env)
    requires Good(stage, s) && Enumerates(order, s.ctx.configFlags)
    ensures stage.ProvidedAmid(s, order, later, env)
      == stage.FromScratch(if stage.Hits(s, order) then s else s.(agents := later), env)
  {
    hide Key, Stage.Stable, IsPlain, Finished, Good;
    if stage.Hits(s, order) {
      CacheIsTransparent(stage, s, order, env);
    }
  }

  /**
   Over every run that starts without a cache, with plain inputs, in which a change of the custom
   prompt or of an input that a stable condition reads besides the key comes with an invalidation,
   each call gives what assembling from scratch gives. This puts no condition on the template.
   */
  lemma CacheIsTransparentInRuns(stage: Stage, start: State, ops: seq<Op>, order: seq<string>, env: Env)
    requires start.cache == None && IsPlain(start.ctx)
    requires IsRun(stage, start, ops) && Enumerates(order, After(stage, start, ops).ctx.configFlags)
    ensures var s := After(stage, start, ops); stage.Provided(s, order, env) == stage.FromScratch(s, env)
  {
    RunsStayGood(stage, start, ops);
    CacheIsTransparent(stage, After(stage, start, ops), order, env);
  }

  /** Whatever the cache held, a call after an invalidation or a reload gives what assembling from scratch gives. */
  lemma InvalidationIsEnough(stage: Stage, s: State, store: SectionStore, order: seq<string>, env: Env)
    requires forall name :: name in order ==> name in s.ctx.configFlags
    ensures var t := Apply(stage, s, Invalidate); stage.Provided(t, order, env) == stage.FromScratch(s, env)
    ensures var t := Apply(stage, s, Reload(store));
      stage.Provided(t, order, env) == stage.FromScratch(s.(store := store), env)
  {
    hide Key, Stage.Stable, Finished;
  }

  /** The estimate stays within the template's budget unless the fallback prompt is used. */
  lemma PromptStaysWithinBudget(stage: Stage, s: State, env: Env)
    ensures var d := stage.FromScratch(s, env);
      d.tokens <= stage.Total(s.ctx) || d.text == stage.fallback
  {
    var total := stage.Total(s.ctx);
    var entries := Entries(stage.template, s.store, s.ctx);
    AddAllStaysWithinBudget(StableStart(s.ctx, total), StablePieces(entries, s.ctx, s.agents), total);
    var stable := stage.Stable(s.store, s.ctx, s.agents);
    AddAllStaysWithinBudget(Draft(stable.text, stable.tokens, false), VolatilePieces(entries, s.ctx, env), total);
  }

  ghost predicate HasSmallBudgets(stage: Stage, s: State) {
    var total := stage.Total(s.ctx);
    total < U32_MAX && forall e :: e in Entries(stage.template, s.store, s.ctx) ==> total + e.tokenBudget < U32_MAX
  }

  /** Of a section's two roles it plays at most one. */
  lemma {:induction false} OnePieceEach(entries: seq<Entry>, ctx: PromptContext, agents: string, env: Env)
    ensures Given(StablePieces(entries, ctx, agents)) + Given(VolatilePieces(entries, ctx, env)) <= |entries|
  {
    if entries == [] {
    } else {
      var front := entries[..|entries| - 1];
      OnePieceEach(front, ctx, agents, env);
      assert StablePieces(entries, ctx, agents)[..|front|] == StablePieces(front, ctx, agents);
      assert VolatilePieces(entries, ctx, env)[..|front|] == VolatilePieces(front, ctx, env);
    }
  }

  lemma PiecesDoNotWrap(stage: Stage, s: State, env: Env)
    requires HasSmallBudgets(stage, s)
    ensures var entries, total := Entries(stage.template, s.store, s.ctx), stage.Total(s.ctx);
      NoWrap(StablePieces(entries, s.ctx, s.agents), total) && NoWrap(VolatilePieces(entries, s.ctx, env), total)
  {
    hide Entries;
    var entries, total := Entries(stage.template, s.store, s.ctx), stage.Total(s.ctx);
    forall p | p in StablePieces(entries, s.ctx, s.agents) && p.Some? ensures total + p.value.tokenBudget < U32_MAX {
      var i :| 0 <= i < |entries| && p == StablePiece(entries[i], s.ctx, s.agents);
      assert entries[i] in entries;
    }
    forall p | p in VolatilePieces(entries, s.ctx, env) && p.Some? ensures total + p.value.tokenBudget < U32_MAX {
      var i :| 0 <= i < |entries| && p == VolatilePiece(entries[i], s.ctx, env);
      assert entries[i] in entries;
    }
  }

  /** The newlines and the slack of a whole prompt, custom prompt, stable and volatile sections together. */
  function PromptNewlines(stage: Stage, s: State, env: Env): nat {
    var entries, total := Entries(stage.template, s.store, s.ctx), stage.Total(s.ctx);
    var stable := stage.Stable(s.store, s.ctx, s.agents);
    Newlines(StableStart(s.ctx, total), StablePieces(entries, s.ctx, s.agents), total)
      + Newlines(Draft(stable.text, stable.tokens, false), VolatilePieces(entries, s.ctx, env), total)
  }

  function PromptSlack(stage: Stage, s: State, env: Env): int {
    var entries, total := Entries(stage.template, s.store, s.ctx), stage.Total(s.ctx);
    var start, stable := StableStart(s.ctx, total), stage.Stable(s.store, s.ctx, s.agents);
    SlackOf(start.text)
      + Slack(start, StablePieces(entries, s.ctx, s.agents), total)
      + Slack(Draft(stable.text, stable.tokens, false), VolatilePieces(entries, s.ctx, env), total)
  }

  lemma PromptLength(stage: Stage, s: State, env: Env) returns (whole: Draft)
    requires HasSmallBudgets(stage, s)
    ensures |whole.text| == 4 * whole.tokens + PromptNewlines(stage, s, env) - PromptSlack(stage, s, env)
    ensures whole.tokens <= stage.Total(s.ctx) < U32_MAX && PromptSlack(stage, s, env) >= 0
    ensures var d := stage.FromScratch(s, env);
      if whole.text == "" then d.text == stage.fallback && d.tokens == EstimateTokens(stage.fallback)
      else d.text == whole.text && d.tokens == whole.tokens
    ensures whole.text == "" ==> PromptNewlines(stage, s, env) == 0
    ensures var parts := |Entries(stage.template, s.store, s.ctx)| + if s.ctx.customSystemPrompt.Some? then 1 else 0;
      PromptNewlines(stage, s, env) <= SatSub(parts, 1)
  {
    hide Entries, AddAll, Truncate, EstimateTokens, StablePieces;
    hide VolatilePieces, HasSmallBudgets, Newlines, Slack, NoWrap, Given;
    var entries, total := Entries(stage.template, s.store, s.ctx), stage.Total(s.ctx);
    var first, later := StablePieces(entries, s.ctx, s.agents), VolatilePieces(entries, s.ctx, env);
    PiecesDoNotWrap(stage, s, env);
    SmallTotal(first, total);
    OnePieceEach(entries, s.ctx, s.agents, env);
    EmptyIsFree();
    var start := StableStart(s.ctx, total);
    SlackIsSmall(start.text);
    AddAllStaysWithinBudget(start, first, total);
    TextLength(start, first, total);
    NewlinesComeBetween(start, first, total);
    var stable := stage.Stable(s.store, s.ctx, s.agents);
    var next := Draft(stable.text, stable.tokens, false);
    AddAllStaysWithinBudget(next, later, total);
    TextLength(next, later, total);
    NewlinesComeBetween(next, later, total);
    whole := AddAll(next, later, total);
    TextOnlyGrows(start, first, total);
    TextOnlyGrows(next, later, total);
  }

  lemma SmallTotal(pieces: seq<Option<Piece>>, total: u32)
    requires NoWrap(pieces, total)
    ensures total < U32_MAX
  {
  }

  lemma EmptyIsFree()
    ensures EstimateTokens("") == 0
  {
  }

  lemma {:induction false} TextOnlyGrows(start: Draft, pieces: seq<Option<Piece>>, total: u32)
    ensures |start.text| <= |AddAll(start, pieces, total).text|
  {
    hide Truncate, EstimateTokens;
    if pieces == [] {
    } else {
      TextOnlyGrows(start, pieces[..|pieces| - 1], total);
    }
  }

  /** The finished text is estimated above the tokens it is booked at exactly if its newlines outnumber its slack. */
  lemma EstimateFallsShortIff(stage: Stage, s: State, env: Env)
    requires HasSmallBudgets(stage, s)
    ensures var d := stage.FromScratch(s, env);
      EstimateTokens(d.text) > d.tokens <==> PromptNewlines(stage, s, env) > PromptSlack(stage, s, env)
  {
    hide PromptNewlines, PromptSlack, Stage.FromScratch, EstimateTokens;
    var whole := PromptLength(stage, s, env);
    if whole.text != "" {
      EstimateExceedsIff(whole.text, whole.tokens);
    }
  }

  /**
   It is estimated above the whole budget exactly if its newlines outnumber its slack and the four
   bytes for each token of the budget that was not booked.
   */
  lemma PromptIsOverBudgetIff(stage: Stage, s: State, env: Env)
    requires HasSmallBudgets(stage, s)
    ensures var d, total := stage.FromScratch(s, env), stage.Total(s.ctx);
      d.text == stage.fallback ||
      (EstimateTokens(d.text) > total <==>
        PromptNewlines(stage, s, env) > PromptSlack(stage, s, env) + 4 * (total - d.tokens))
  {
    hide PromptNewlines, PromptSlack, Stage.FromScratch, EstimateTokens;
    var whole := PromptLength(stage, s, env);
    EstimateExceedsIff(whole.text, stage.Total(s.ctx));
  }

  /** It exceeds the budget at most by its newlines, which are fewer than its parts. */
  lemma PromptTextStaysNearBudget(stage: Stage, s: State, env: Env)
    requires HasSmallBudgets(stage, s)
    ensures var d := stage.FromScratch(s, env);
      var parts := |Entries(stage.template, s.store, s.ctx)| + if s.ctx.customSystemPrompt.Some? then 1 else 0;
      d.text == stage.fallback || |d.text| <= 4 * stage.Total(s.ctx) + SatSub(parts, 1)
  {
    hide PromptNewlines, PromptSlack, Stage.FromScratch, EstimateTokens, Entries;
    var whole := PromptLength(stage, s, env);
  }

  // ---------------------------------------------------------------------------
  // The provider
  // ---------------------------------------------------------------------------

  function Item(d: Draft): Pipeline.ContextItem {
    Pipeline.ContextItem(Pipeline.SystemPrompt, d.text, d.tokens, 100)
  }

  class BuildSystemPromptProvider {
    const stage: Stage
    const templatesEnabled: bool
    var store: SectionStore
    var promptContext: PromptContext
    var callableAgents: string
    var stableCache: Option<Cache>

    ghost function View(): State
      reads this
    {
      State(store, promptContext, callableAgents, stableCache)
    }

    constructor (stage: Stage, templatesEnabled: bool, store: SectionStore, promptContext: PromptContext)
      ensures this.stage == stage && this.templatesEnabled == templatesEnabled
      ensures View() == State(store, promptContext, "", None)
    {
      this.stage, this.templatesEnabled := stage, templatesEnabled;
      this.store, this.promptContext := store, promptContext;
      callableAgents, stableCache := "", None;
    }

    method InvalidateStableCache()
      modifies this
      ensures View() == Apply(stage, old(View()), Invalidate) && stableCache == None
    {
      if stableCache.Some? {
        stableCache := None;
      }
    }

    method ReloadStore(newStore: SectionStore)
      modifies this
      ensures View() == Apply(stage, old(View()), Reload(newStore)) && stableCache == None && store == newStore
    {
      store := newStore;
      InvalidateStableCache();
    }

    /** The non-volatile sections, after the custom prompt; the result replaces the cache. */
    method RebuildStableCache(entries: seq<Entry>, total: u32, key: string) returns (text: string, tokens: u32)
      requires total == stage.Total(promptContext) && entries == Entries(stage.template, store, promptContext)
      modifies this`stableCache
      ensures var stable := stage.Stable(store, promptContext, callableAgents);
        text == stable.text && tokens == stable.tokens && stableCache == Some(Cache(key, text, tokens))
    {
      hide Truncate, EstimateTokens;
      ghost var pieces := StablePieces(entries, promptContext, callableAgents);
      text, tokens := "", 0;
      if promptContext.customSystemPrompt.Some? {
        var custom := Truncate(promptContext.customSystemPrompt.value, total);
        text := text + custom;
        tokens := EstimateTokens(custom);
      }
      assert "" + Truncate("", total) == Truncate("", total);
      var draft := Draft(text, tokens, false);
      assert draft == StableStart(promptContext, total);
      draft := AppendSections(draft, pieces, entries, total, true, Env("", _ => ""));
      text, tokens := draft.text, draft.tokens;
      stableCache := Some(Cache(key, text, tokens));
    }

    /** The loop both passes share: skip, load, cut, and stop at the first section that does not fit. */
    method AppendSections(start: Draft, ghost pieces: seq<Option<Piece>>, entries: seq<Entry>, total: u32,
        stablePass: bool, env: Env)
        returns (draft: Draft)
      requires !start.full
      requires pieces == if stablePass then StablePieces(entries, promptContext, callableAgents)
                         else VolatilePieces(entries, promptContext, env)
      ensures draft == AddAll(start, pieces, total)
    {
      hide Truncate, EstimateTokens, AddAll, StablePiece, VolatilePiece, IsVolatile;
      NothingAdded(start, total);
      draft := start;
      for i := 0 to |entries|
        invariant draft == AddAll(start, pieces[..i], total) && !draft.full
      {
        AddNext(start, pieces, i, total);
        var piece := if stablePass then StablePiece(entries[i], promptContext, callableAgents)
                     else VolatilePiece(entries[i], promptContext, env);
        if piece == None {
          continue;
        }
        var content := Truncate(piece.value.text, piece.value.tokenBudget);
        var tokens := Wrap32(draft.tokens + EstimateTokens(content));
        if tokens > total {
          FullStaysFull(start, pieces, i + 1, total);
          draft := draft.(full := true);
          return;
        }
        var text := draft.text;
        if text != "" {
          text := text + "\n";
        }
        text := text + content;
        assert "" + content == content;
        draft := Draft(text, tokens, false);
      }
      assert pieces[..|entries|] == pieces;
    }

    /** `later` is what the callable agents have become by the time they are read again. */
    method Provide(ctx: Pipeline.AssembledContext, order: seq<string>, later: string, env: Env)
      requires forall name :: name in order ==> name in promptContext.configFlags
      modifies this, ctx
      ensures !templatesEnabled ==>
        View() == old(View()) && ctx.items ==
          old(ctx.items) + [Item(Draft(stage.fallback, EstimateTokens(stage.fallback), false))]
      ensures templatesEnabled ==>
        && View() == Apply(stage, old(View()), ProvideAmid(order, later, env))
        && store == old(store) && promptContext == old(promptContext) && callableAgents == later
        && ctx.items == old(ctx.items) + [Item(stage.ProvidedAmid(old(View()), order, later, env))]
    {
      if !templatesEnabled {
        ctx.Add(Item(Draft(stage.fallback, EstimateTokens(stage.fallback), false)));
        return;
      }
      hide Key, EstimateTokens, AddAll;
      var total := stage.Total(promptContext);
      var key := Key(promptContext, callableAgents, order);
      callableAgents := later;
      var entries := Entries(stage.template, store, promptContext);
      var text, tokens;
      if stableCache.Some? && stableCache.value.key == key {
        text, tokens := stableCache.value.text, stableCache.value.tokens;
      } else {
        text, tokens := RebuildStableCache(entries, total, key);
      }
      var draft := AppendSections(Draft(text, tokens, false), VolatilePieces(entries, promptContext, env), entries,
        total, false, env);
      if draft.text == "" {
        draft := Draft(stage.fallback, EstimateTokens(stage.fallback), draft.full);
      }
      ctx.Add(Item(draft));
    }
  }

  lemma NothingAdded(start: Draft, total: u32)
    ensures AddAll(start, [], total) == start
  {
  }

  lemma AddNext(start: Draft, pieces: seq<Option<Piece>>, i: nat, total: u32)
    requires i < |pieces|
    ensures var d := AddAll(start, pieces[..i], total);
      AddAll(start, pieces[..i + 1], total) == if d.full || pieces[i] == None then d
        else Added(d, pieces[i].value, total)
  {
    assert pieces[..i + 1][..i] == pieces[..i];
  }

  /** Once a piece did not fit, no later one is added. */
  lemma {:induction false} FullStaysFull(start: Draft, pieces: seq<Option<Piece>>, n: nat, total: u32)
    requires n <= |pieces| && AddAll(start, pieces[..n], total).full
    ensures AddAll(start, pieces, total) == AddAll(start, pieces[..n], total)
    decreases |pieces|
  {
    if n == |pieces| {
      assert pieces[..n] == pieces;
    } else {
      var front := pieces[..|pieces| - 1];
      assert front[..n] == pieces[..n];
      FullStaysFull(start, front, n, total);
    }
  }
}
