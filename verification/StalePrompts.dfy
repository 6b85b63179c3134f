/** What the cache of the system prompt cannot see, and when that shows. */
module StalePrompts {
  import opened CacheKey
  import opened Conditions
  import opened Numbers
  import opened PromptSections
  import opened Sorting
  import opened SystemPrompt
  import opened Text
  import opened Wrappers

  // ---------------------------------------------------------------------------
  // Custom prompts
  // ---------------------------------------------------------------------------

  /** A template without sections, so that the prompt is the custom prompt. */
  function Bare(budget: u32, fallback: string): Stage {
    Stage(Template((mode: string) => [], (mode: string) => budget), fallback)
  }

  lemma BareGivesTheCustomPrompt(budget: u32, fallback: string, s: State, env: Env)
    requires s.ctx.customSystemPrompt.Some? && s.ctx.customSystemPrompt.value != ""
    requires EstimateTokens(s.ctx.customSystemPrompt.value) <= budget
    ensures Bare(budget, fallback).FromScratch(s, env).text == s.ctx.customSystemPrompt.value
    ensures Bare(budget, fallback).Stable(s.store, s.ctx, s.agents).text == s.ctx.customSystemPrompt.value
    ensures Entries(Bare(budget, fallback).template, s.store, s.ctx) == []
  {
    assert Resolved([], s.store, s.ctx) == [];
    assert StablePieces([], s.ctx, s.agents) == [] && VolatilePieces([], s.ctx, env) == [];
  }

  /** One custom prompt replaced by another without an invalidation: the old one is served. */
  lemma ChangedCustomPromptGoesStale(budget: u32, fallback: string, s: State, order: seq<string>, env: Env,
      text: string)
    requires s.cache == None && forall name :: name in order ==> name in s.ctx.configFlags
    requires s.ctx.customSystemPrompt.Some? && s.ctx.customSystemPrompt.value != "" && text != ""
    requires EstimateTokens(s.ctx.customSystemPrompt.value) <= budget && EstimateTokens(text) <= budget
    ensures var stage := Bare(budget, fallback);
      var later := Apply(stage, s, Provide(order, env)).(ctx := s.ctx.(customSystemPrompt := Some(text)));
      && stage.Provided(later, order, env).text == s.ctx.customSystemPrompt.value
      && stage.FromScratch(later, env).text == text
  {
    var stage := Bare(budget, fallback);
    var later := Apply(stage, s, Provide(order, env)).(ctx := s.ctx.(customSystemPrompt := Some(text)));
    BareGivesTheCustomPrompt(budget, fallback, s, env);
    BareGivesTheCustomPrompt(budget, fallback, later, env);
    assert stage.Hits(later, order);
    assert VolatilePieces([], later.ctx, env) == [];
  }

  // ---------------------------------------------------------------------------
  // Skills, tools and flags besides the key
  // ---------------------------------------------------------------------------

  /**
   A flag outside the keyed families, such as `persona.enabled`, does not enter the key: turning it
   on leaves the key as it was, though a section may depend on it.
   */
  lemma UnkeyedFlagLeavesTheKey(ctx: PromptContext, agents: string, order: seq<string>, name: string, value: bool)
    requires !IsKeyedFlag(name) && Enumerates(order, ctx.configFlags)
    ensures var changed := ctx.(configFlags := ctx.configFlags[name := value]);
      && Enumerates(order, changed.configFlags)
      && Key(changed, agents, order) == Key(ctx, agents, order)
      && ConfigFlag(name).Evaluate(changed) == value
  {
    FlagTextUnchanged(order, ctx.configFlags, name, value);
  }

  lemma {:induction false} FlagTextUnchanged(order: seq<string>, flags: map<string, bool>, name: string, value: bool)
    requires !IsKeyedFlag(name) && forall n :: n in order ==> n in flags && IsKeyedFlag(n)
    ensures FlagText(order, flags[name := value]) == FlagText(order, flags)
  {
    if order == [] {
    } else {
      FlagTextUnchanged(order[1..], flags, name, value);
    }
  }

  lemma PersonaFlagIsUnkeyed()
    ensures !IsKeyedFlag("persona.enabled")
  {
    assert "persona.enabled"[0] == 'p' && "persona.enabled"[1] == 'e' && "plan_mode."[1] == 'l';
  }

  /** The conditions of the built-in sections. */
  predicate IsBuiltin(c: Condition) {
    || c == Always
    || c == ModeIs("plan") || c == ModeIs("explore")
    || c == ConfigFlag("persona.enabled")
    || c == ConfigFlag("orchestration.enabled") || c == ConfigFlag("mcp.enabled")
    || c == ConfigFlag("plan_mode.active") || c == ConfigFlag("loop_mode.active")
  }

  ghost predicate HasBuiltinConditions(template: Template, store: SectionStore) {
    forall mode: string, i: nat :: i < |template.effectiveSections(mode)| ==>
      IsBuiltinSection(template.effectiveSections(mode)[i], store)
  }

  predicate IsBuiltinSection(eff: EffectiveSection, store: SectionStore) {
    ConditionOf(eff, store).Some? ==> IsBuiltin(ConditionOf(eff, store).value)
  }

  /** For templates of built-in conditions `persona.enabled` is the only input besides the key that matters. */
  lemma OnlyPersonaMatters(template: Template, store: SectionStore, a: PromptContext, b: PromptContext)
    requires HasBuiltinConditions(template, store)
    requires a.Flag("persona.enabled") == b.Flag("persona.enabled")
    ensures SameReads(template, store, a, b)
  {
    assert "plan_mode." <= "plan_mode.active" && "loop_mode." <= "loop_mode.active";
    assert "mcp." <= "mcp.enabled" && "orchestration." <= "orchestration.enabled";
    forall mode: string, i: nat | i < |template.effectiveSections(mode)|
      ensures SectionAgrees(template.effectiveSections(mode)[i], store, a, b)
    {
      assert IsBuiltinSection(template.effectiveSections(mode)[i], store);
    }
  }

  /** So with those templates it, and the custom prompt, are all that needs an invalidation. */
  lemma BuiltinChangesAreEnabled(stage: Stage, s: State, ctx: PromptContext)
    requires HasBuiltinConditions(stage.template, s.store) && IsPlain(ctx)
    requires ctx.customSystemPrompt == s.ctx.customSystemPrompt
    requires ctx.Flag("persona.enabled") == s.ctx.Flag("persona.enabled")
    ensures Enabled(stage, s, SetContext(ctx))
  {
    OnlyPersonaMatters(stage.template, s.store, s.ctx, ctx);
  }

  /** A template of one section, and a store that holds it. */
  function OneSection(id: string, total: u32, fallback: string): Stage {
    Stage(Template((mode: string) => [EffectiveSection(id, None, None)], (mode: string) => total), fallback)
  }

  function Holding(id: string, c: Condition, text: string, tokenBudget: u32): SectionStore {
    map[id := Section(Some(text), tokenBudget, 0, Some(c))]
  }

  /** A text that fits and differs from the fallback prompt. */
  predicate IsVisible(text: string, tokenBudget: u32, total: u32, fallback: string) {
    text != "" && text != fallback && EstimateTokens(text) <= tokenBudget <= total
  }

  /** What the section shows, if its condition holds. */
  function Shown(id: string, text: string, agents: string): string {
    if id == "core.orchestration" then ReplaceAll(text, AGENTS_MARK, agents) else text
  }

  lemma OneEntry(id: string, c: Condition, text: string, tokenBudget: u32, total: u32, fallback: string,
      ctx: PromptContext)
    requires ctx.selectedSections == None
    ensures Entries(OneSection(id, total, fallback).template, Holding(id, c, text, tokenBudget), ctx)
      == [Entry(id, 0, Some(c), Some(text), tokenBudget)]
  {
    var eff := EffectiveSection(id, None, None);
    assert [eff][..0] == [];
    var entry := Entry(id, 0, Some(c), Some(text), tokenBudget);
    assert Resolved([eff], Holding(id, c, text, tokenBudget), ctx) == [entry];
    assert [entry][..0] == [];
  }

  lemma OnePiece(id: string, c: Condition, text: string, tokenBudget: u32, ctx: PromptContext, agents: string,
      env: Env, total: u32)
    requires !IsVolatile(id) && ctx.customSystemPrompt == None &&
      IsVisible(Shown(id, text, agents), tokenBudget, total, "")
    ensures var entries := [Entry(id, 0, Some(c), Some(text), tokenBudget)];
      && StableOf(entries, ctx, agents, total).text == (if c.Evaluate(ctx) then Shown(id, text, agents) else "")
      && VolatilePieces(entries, ctx, env) == [None]
  {
    hide Condition.Evaluate, ReplaceAll;
    var entries := [Entry(id, 0, Some(c), Some(text), tokenBudget)];
    var pieces := StablePieces(entries, ctx, agents);
    assert pieces == [if c.Evaluate(ctx) then Some(Piece(Shown(id, text, agents), tokenBudget)) else None];
    assert pieces[..0] == [];
    assert AddAll(StableStart(ctx, total), [], total) == Draft("", 0, false);
    assert "" + Shown(id, text, agents) == Shown(id, text, agents);
  }

  lemma NothingVolatile(d: Draft, total: u32)
    ensures AddAll(d, [None], total) == d
  {
    var none: seq<Option<Piece>> := [None];
    assert none[..0] == [];
  }

  /** What such a template gives, from scratch and from a cached prefix. */
  lemma OneSectionGives(id: string, c: Condition, text: string, tokenBudget: u32, total: u32, fallback: string,
                        s: State, prefix: string, tokens: u32, env: Env)
    requires s.store == Holding(id, c, text, tokenBudget) && !IsVolatile(id)
    requires IsVisible(Shown(id, text, s.agents), tokenBudget, total, fallback)
    requires s.ctx.selectedSections == None && s.ctx.customSystemPrompt == None
    ensures var stage, shown := OneSection(id, total, fallback), Shown(id, text, s.agents);
      && stage.Stable(s.store, s.ctx, s.agents).text == (if c.Evaluate(s.ctx) then shown else "")
      && stage.FromScratch(s, env).text == (if c.Evaluate(s.ctx) then shown else fallback)
      && stage.Complete(s, prefix, tokens, env).text == (if prefix != "" then prefix else fallback)
  {
    hide Entries, AddAll, VolatilePieces, StableOf, Condition.Evaluate, Holding, EstimateTokens, Shown, IsVolatile;
    var stage := OneSection(id, total, fallback);
    OneEntry(id, c, text, tokenBudget, total, fallback, s.ctx);
    OnePiece(id, c, text, tokenBudget, s.ctx, s.agents, env, total);
    NothingVolatile(Draft(prefix, tokens, false), total);
    var stable := stage.Stable(s.store, s.ctx, s.agents);
    NothingVolatile(Draft(stable.text, stable.tokens, false), total);
  }

  /** One call under `a`, after which the context becomes `b` without an invalidation. */
  function Switched(stage: Stage, store: SectionStore, agents: string, a: PromptContext, order: seq<string>, env: Env,
      b: PromptContext): State
    requires forall name :: name in order ==> name in a.configFlags
  {
    Apply(stage, State(store, a, agents, None), Provide(order, env)).(ctx := b)
  }

  /** The section whose condition is at issue. */
  const PERSONA := "core.persona"

  /** The old text is served if a condition changes its mind while the key stays. */
  lemma SectionGoesStale(c: Condition, text: string, tokenBudget: u32, total: u32, fallback: string, agents: string,
                         a: PromptContext, order: seq<string>, b: PromptContext, later: seq<string>, env: Env)
    requires IsVisible(text, tokenBudget, total, fallback)
    requires a.selectedSections == None && a.customSystemPrompt == None
    requires b.selectedSections == None && b.customSystemPrompt == None
    requires Enumerates(order, a.configFlags) && Enumerates(later, b.configFlags)
    requires Key(a, agents, order) == Key(b, agents, later)
    ensures var stage := OneSection(PERSONA, total, fallback);
      var s := Switched(stage, Holding(PERSONA, c, text, tokenBudget), agents, a, order, env, b);
      && stage.Provided(s, later, env).text == (if c.Evaluate(a) then text else fallback)
      && stage.FromScratch(s, env).text == (if c.Evaluate(b) then text else fallback)
  {
    assert Shown(PERSONA, text, agents) == text && !IsVolatile(PERSONA);
    hide Key, Condition.Evaluate, Holding, OneSection, Stage.Stable, Stage.FromScratch, Stage.Complete, Enumerates;
    hide EstimateTokens, Shown, IsVolatile;
    OrderIsStored(order, a.configFlags);
    OrderIsStored(later, b.configFlags);
    var stage, store := OneSection(PERSONA, total, fallback), Holding(PERSONA, c, text, tokenBudget);
    var first := State(store, a, agents, None);
    var s := Switched(stage, store, agents, a, order, env, b);
    assert stage.Hits(s, later);
    var cache := s.cache.value;
    OneSectionGives(PERSONA, c, text, tokenBudget, total, fallback, first, "", 0, env);
    OneSectionGives(PERSONA, c, text, tokenBudget, total, fallback, s, cache.text, cache.tokens, env);
  }

  /** Whatever the order of the flags, a change from `a` to `b` leaves calls right. */
  ghost predicate StaysFresh(stage: Stage, store: SectionStore, agents: string, a: PromptContext, b: PromptContext) {
    forall order, later, env :: Enumerates(order, a.configFlags) && Enumerates(later, b.configFlags) ==>
      var s := Switched(stage, store, agents, a, order, env, b);
      stage.Provided(s, later, env) == stage.FromScratch(s, env)
  }

  lemma DeterminedStaysFresh(c: Condition, text: string, tokenBudget: u32, total: u32, fallback: string, agents: string,
                             a: PromptContext, b: PromptContext)
    requires IsDetermined(c) && IsPlain(a) && IsPlain(b) && a.customSystemPrompt == b.customSystemPrompt
    ensures StaysFresh(OneSection(PERSONA, total, fallback), Holding(PERSONA, c, text, tokenBudget), agents, a, b)
  {
    var stage, store := OneSection(PERSONA, total, fallback), Holding(PERSONA, c, text, tokenBudget);
    assert SameReads(stage.template, store, a, b);
    hide *;
    forall order, later, env | Enumerates(order, a.configFlags) && Enumerates(later, b.configFlags)
      ensures Enumerates(order, a.configFlags) && Enumerates(later, b.configFlags)
      ensures stage.Provided(Switched(stage, store, agents, a, order, env, b), later, env)
        == stage.FromScratch(Switched(stage, store, agents, a, order, env, b), env)
    {
      FreshAfterSwitch(stage, store, agents, a, order, env, b, later);
    }
    AllFresh(stage, store, agents, a, b);
  }

  lemma AllFresh(stage: Stage, store: SectionStore, agents: string, a: PromptContext, b: PromptContext)
    requires forall order, later, env :: Enumerates(order, a.configFlags) && Enumerates(later, b.configFlags) ==>
      var s := Switched(stage, store, agents, a, order, env, b);
      stage.Provided(s, later, env) == stage.FromScratch(s, env)
    ensures StaysFresh(stage, store, agents, a, b)
  {
  }

  lemma FreshAfterSwitch(stage: Stage, store: SectionStore, agents: string, a: PromptContext, order: seq<string>,
      env: Env,
                         b: PromptContext, later: seq<string>)
    requires IsPlain(a) && IsPlain(b) && a.customSystemPrompt == b.customSystemPrompt &&
      SameReads(stage.template, store, a, b)
    requires Enumerates(order, a.configFlags) && Enumerates(later, b.configFlags)
    ensures var s := Switched(stage, store, agents, a, order, env, b);
      stage.Provided(s, later, env) == stage.FromScratch(s, env)
  {
    hide IsPlain, Enumerates, SameReads, Key, Stage.Provided, Stage.FromScratch;
    var first := State(store, a, agents, None);
    OrderIsStored(order, a.configFlags);
    OrderIsStored(later, b.configFlags);
    GoodStep(stage, first, Provide(order, env));
    var second := Apply(stage, first, Provide(order, env));
    GoodStep(stage, second, SetContext(b));
    CacheIsTransparent(stage, Apply(stage, second, SetContext(b)), later, env);
  }

  /** An order of the keyed flags exists. */
  lemma {:induction false} SomeOrder(names: set<string>) returns (order: seq<string>)
    ensures (forall i, j :: 0 <= i < j < |order| ==> order[i] != order[j]) && forall name :: name in order <==>
      name in names
  {
    if names == {} {
      order := [];
    } else {
      var name :| name in names;
      order := SomeOrder(names - {name});
      order := order + [name];
    }
  }

  lemma {:induction false} FlagTextAgrees(order: seq<string>, f: map<string, bool>, g: map<string, bool>)
    requires forall name :: name in order ==> name in f && name in g && f[name] == g[name]
    ensures FlagText(order, f) == FlagText(order, g)
  {
    if order == [] {
    } else {
      FlagTextAgrees(order[1..], f, g);
    }
  }

  /** Two plain contexts with one key and no custom prompt, under which an undetermined condition has two verdicts. */
  lemma TwoVerdicts(c: Condition, agents: string) returns (a: PromptContext, b: PromptContext, order: seq<string>)
    requires !IsDetermined(c)
    ensures c.Evaluate(a) != c.Evaluate(b) && IsPlain(a) && IsPlain(b)
    ensures a.selectedSections == None && a.customSystemPrompt == None
    ensures b.selectedSections == None && b.customSystemPrompt == None
    ensures Enumerates(order, a.configFlags) && Enumerates(order, b.configFlags) &&
      Key(a, agents, order) == Key(b, agents, order)
  {
    var ctx :| IsPlain(ctx) && !Settles(ctx, c);
    var base := ctx.(selectedSections := None, customSystemPrompt := None);
    ForcedReadsTheKey(c, ctx, base, false);
    ForcedReadsTheKey(c, ctx, base, true);
    a, b := Extremes(c, base);
    hide Condition.Evaluate, Forced;
    order := SomeOrder(set name | name in a.configFlags && IsKeyedFlag(name));
    FlagTextAgrees(order, a.configFlags, b.configFlags);
  }

  /**
   For a section with any condition, nested ones included: every change of context leaves calls
   right exactly if the key settles the condition, which is to say that reading all skills, tools
   and unkeyed flags in it as false and reading them as true give one verdict under all keyed inputs.
   */
  lemma FreshIffDetermined(c: Condition, text: string, tokenBudget: u32, total: u32, fallback: string, agents: string)
    requires IsVisible(text, tokenBudget, total, fallback)
    ensures IsDetermined(c) <==>
      forall a, b :: IsPlain(a) && IsPlain(b) && a.customSystemPrompt == b.customSystemPrompt ==>
        StaysFresh(OneSection(PERSONA, total, fallback), Holding(PERSONA, c, text, tokenBudget), agents, a, b)
  {
    hide IsPlain, StaysFresh, OneSection, Holding, Enumerates, Stage.Provided, Stage.FromScratch, Key, IsDetermined;
    hide Condition.Evaluate;
    var stage, store := OneSection(PERSONA, total, fallback), Holding(PERSONA, c, text, tokenBudget);
    if IsDetermined(c) {
      forall a, b | IsPlain(a) && IsPlain(b) && a.customSystemPrompt == b.customSystemPrompt
        ensures StaysFresh(stage, store, agents, a, b)
      {
        DeterminedStaysFresh(c, text, tokenBudget, total, fallback, agents, a, b);
      }
    } else {
      var a, b, order := TwoVerdicts(c, agents);
      var env := Env("", _ => "");
      SectionGoesStale(c, text, tokenBudget, total, fallback, agents, a, order, b, order, env);
      NotFresh(stage, store, agents, a, order, b, env);
    }
  }

  lemma NotFresh(stage: Stage, store: SectionStore, agents: string, a: PromptContext, order: seq<string>,
      b: PromptContext, env: Env)
    requires Enumerates(order, a.configFlags) && Enumerates(order, b.configFlags)
    requires var s := Switched(stage, store, agents, a, order, env, b);
      stage.Provided(s, order, env).text != stage.FromScratch(s, env).text
    ensures !StaysFresh(stage, store, agents, a, b)
  {
  }

  /** Turning `persona.enabled` on without an invalidation: the persona section does not appear. */
  lemma PersonaGoesStale(text: string, tokenBudget: u32, total: u32, fallback: string, agents: string, env: Env)
    requires IsVisible(text, tokenBudget, total, fallback)
    ensures var stage := OneSection(PERSONA, total, fallback);
      var store := Holding(PERSONA, ConfigFlag("persona.enabled"), text, tokenBudget);
      var s := Switched(stage, store, agents, BLANK, [], env, BLANK.(configFlags := map["persona.enabled" := true]));
      stage.Provided(s, [], env).text == fallback && stage.FromScratch(s, env).text == text
  {
    var a, b := BLANK, BLANK.(configFlags := map["persona.enabled" := true]);
    PersonaFlagIsUnkeyed();
    assert Enumerates([], a.configFlags) && Enumerates([], b.configFlags);
    assert Key(a, agents, []) == Key(b, agents, []);
    hide Key, Holding, OneSection, Stage.Provided, Stage.FromScratch, EstimateTokens;
    SectionGoesStale(ConfigFlag("persona.enabled"), text, tokenBudget, total, fallback, agents, a, [], b, [], env);
  }

  // ---------------------------------------------------------------------------
  // Callable agents that change in the middle of a call
  // ---------------------------------------------------------------------------

  const ORCHESTRATION := "core.orchestration"

  lemma MarkIsReplaced(agents: string)
    ensures Shown(ORCHESTRATION, AGENTS_MARK, agents) == agents
  {
    assert AGENTS_MARK[|AGENTS_MARK|..] == "";
    assert ReplaceAll("", AGENTS_MARK, agents) == "";
    assert agents + "" == agents;
  }

  /**
   The agents change from `a` to `b` between the two reads of a call that rebuilds a prefix showing
   them, and back to `a` after it: the next call shows `b`. It is right exactly if there was no change.
   */
  lemma AgentsGoStale(a: string, b: string, tokenBudget: u32, total: u32, fallback: string, ctx: PromptContext,
      order: seq<string>, env: Env)
    requires IsVisible(a, tokenBudget, total, fallback) && IsVisible(b, tokenBudget, total, fallback)
    requires ctx.selectedSections == None && ctx.customSystemPrompt == None && Enumerates(order, ctx.configFlags)
    ensures var stage, store := OneSection(ORCHESTRATION, total, fallback),
      Holding(ORCHESTRATION, Always, AGENTS_MARK, tokenBudget);
      var s := Apply(stage, State(store, ctx, a, None), ProvideAmid(order, b, env)).(agents := a);
      && stage.Provided(s, order, env).text == b
      && stage.FromScratch(s, env).text == a
  {
    MarkIsReplaced(a);
    MarkIsReplaced(b);
    OrderIsStored(order, ctx.configFlags);
    assert Always.Evaluate(ctx) && !IsVolatile(ORCHESTRATION);
    hide Key, Holding, OneSection, Stage.Stable, Stage.FromScratch;
    hide Stage.Complete, Enumerates, EstimateTokens, Shown, IsVolatile;
    var stage, store := OneSection(ORCHESTRATION, total, fallback),
      Holding(ORCHESTRATION, Always, AGENTS_MARK, tokenBudget);
    var s := Apply(stage, State(store, ctx, a, None), ProvideAmid(order, b, env)).(agents := a);
    assert stage.Hits(s, order);
    OneSectionGives(ORCHESTRATION, Always, AGENTS_MARK, tokenBudget, total, fallback, s.(agents := b), "", 0, env);
    OneSectionGives(ORCHESTRATION, Always, AGENTS_MARK, tokenBudget, total, fallback, s, s.cache.value.text,
      s.cache.value.tokens, env);
  }

  // ---------------------------------------------------------------------------
  // Newlines
  // ---------------------------------------------------------------------------

  /** Two sections of one token each, and a budget of two: the prompt takes three. */
  lemma NewlinesAreNotCounted(fallback: string, s: State, env: Env)
    requires s.ctx.selectedSections == None && s.ctx.customSystemPrompt == None
    requires s.store == map["a" := Section(Some("aaaa"), 1, 0, None), "b" := Section(Some("bbbb"), 1, 0, None)]
    ensures var sections := [EffectiveSection("a", None, None), EffectiveSection("b", None, None)];
      var stage := Stage(Template((mode: string) => sections, (mode: string) => 2), fallback);
      var d := stage.FromScratch(s, env);
      stage.Total(s.ctx) == 2 && d.tokens == 2 && EstimateTokens(d.text) == 3
  {
    var sections := [EffectiveSection("a", None, None), EffectiveSection("b", None, None)];
    var stage := Stage(Template((mode: string) => sections, (mode: string) => 2), fallback);
    var a, b := Entry("a", 0, None, Some("aaaa"), 1), Entry("b", 0, None, Some("bbbb"), 1);
    TwoEntries(stage.template, s.store, s.ctx, a, b);
    hide Entries;
    var entries := Entries(stage.template, s.store, s.ctx);
    assert StablePieces(entries, s.ctx, s.agents) == [Some(Piece("aaaa", 1)), Some(Piece("bbbb", 1))];
    assert VolatilePieces(entries, s.ctx, env) == [None, None];
    hide StablePieces, VolatilePieces;
    TwoPieces();
    NothingVolatileTwice(Draft("aaaa\nbbbb", 2, false));
    assert StableStart(s.ctx, 2) == Draft("", 0, false);
    assert stage.Stable(s.store, s.ctx, s.agents) == Draft("aaaa\nbbbb", 2, false);
  }

  lemma TwoEntries(template: Template, store: SectionStore, ctx: PromptContext, a: Entry, b: Entry)
    requires a.id in store && b.id in store && ctx.selectedSections == None && a.priority <= b.priority
    requires template.effectiveSections(ctx.agentMode) ==
      [EffectiveSection(a.id, None, None), EffectiveSection(b.id, None, None)]
    requires forall e :: e in [a, b] ==>
      var section := store[e.id];
      e == Entry(e.id, section.priority, section.condition, section.content, section.tokenBudget)
    ensures Entries(template, store, ctx) == [a, b]
  {
    var x, y := EffectiveSection(a.id, None, None), EffectiveSection(b.id, None, None);
    assert a in [a, b] && b in [a, b];
    assert [x, y][..1] == [x] && [x][..0] == [];
    assert Resolved([x], store, ctx) == [a];
    assert Resolved([x, y], store, ctx) == [a, b];
    SortOfSorted([a, b], ByPriority());
  }

  lemma TwoPieces()
    ensures AddAll(Draft("", 0, false), [Some(Piece("aaaa", 1)), Some(Piece("bbbb", 1))], 2) ==
      Draft("aaaa\nbbbb", 2, false)
  {
    var a, b := Some(Piece("aaaa", 1)), Some(Piece("bbbb", 1));
    assert [a, b][..1] == [a] && [a][..0] == [];
    assert AddAll(Draft("", 0, false), [a], 2) == Draft("aaaa", 1, false);
    assert "aaaa" + "\n" + "bbbb" == "aaaa\nbbbb";
  }

  lemma NothingVolatileTwice(d: Draft)
    ensures AddAll(d, [None, None], 2) == d
  {
    var none: seq<Option<Piece>> := [None, None];
    assert none[..1] == [None];
    NothingVolatile(d, 2);
  }
}
