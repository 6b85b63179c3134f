/** What a system prompt is made of, said of the sections themselves. */
module PromptContents {
  import opened Numbers
  import opened PromptSections
  import opened Sorting
  import opened SystemPrompt
  import opened Text
  import opened Wrappers

  // ---------------------------------------------------------------------------
  // Which sections take part
  // ---------------------------------------------------------------------------

  /** Without a selection every section takes part; otherwise those selected and those that a flag demands. */
  predicate TakesPart(id: string, ctx: PromptContext) {
    || ctx.selectedSections == None
    || id in ctx.selectedSections.value
    || (id == "core.plan_mode_active" && ctx.Flag("plan_mode.active"))
    || (id == "core.loop_mode_active" && ctx.Flag("loop_mode.active"))
    || (id == "core.mcp_hint" && ctx.Flag("mcp.enabled"))
    || (id == "core.orchestration" && ctx.Flag("orchestration.enabled"))
  }

  /** An entry is the stored section under its id, except for what the template overrides. */
  predicate IsEntryFor(e: Entry, eff: EffectiveSection, store: SectionStore) {
    && e.id == eff.sectionId && eff.sectionId in store
    && e.content == store[eff.sectionId].content && e.tokenBudget == store[eff.sectionId].tokenBudget
    && (eff.priorityOverride == None ==> e.priority == store[eff.sectionId].priority)
    && (eff.priorityOverride.Some? ==> e.priority == eff.priorityOverride.value)
    && (eff.conditionOverride == None ==> e.condition == store[eff.sectionId].condition)
    && (eff.conditionOverride.Some? ==> e.condition == eff.conditionOverride)
  }

  /** `places` lists, in order, exactly the sections that take part and are stored; `entries` has theirs. */
  ghost predicate AreEntriesFor(entries: seq<Entry>, sections: seq<EffectiveSection>, places: seq<nat>,
      store: SectionStore, ctx: PromptContext)
  {
    && |entries| == |places|
    && (forall k, l :: 0 <= k < l < |places| ==> places[k] < places[l])
    && (forall k :: 0 <= k < |places| ==> places[k] < |sections| && IsEntryFor(entries[k], sections[places[k]], store))
    && forall i :: 0 <= i < |sections| ==>
      (i in places <==> TakesPart(sections[i].sectionId, ctx) && sections[i].sectionId in store)
  }

  lemma EntriesForMore(entries: seq<Entry>, sections: seq<EffectiveSection>, places: seq<nat>, e: Entry,
      eff: EffectiveSection, store: SectionStore, ctx: PromptContext)
    requires AreEntriesFor(entries, sections, places, store, ctx)
    ensures !(TakesPart(eff.sectionId, ctx) && eff.sectionId in store) ==>
      AreEntriesFor(entries, sections + [eff], places, store, ctx)
    ensures TakesPart(eff.sectionId, ctx) && IsEntryFor(e, eff, store) ==>
      AreEntriesFor(entries + [e], sections + [eff], places + [|sections|], store, ctx)
  {
    hide TakesPart;
    var longer := places + [|sections|];
    assert longer[|places|] == |sections| && forall i :: i in longer <==> i in places || i == |sections|;
  }

  lemma ResolvedUnfolds(sections: seq<EffectiveSection>, eff: EffectiveSection, store: SectionStore,
      ctx: PromptContext) returns (e: Entry)
    ensures var front, all := Resolved(sections, store, ctx), Resolved(sections + [eff], store, ctx);
      if TakesPart(eff.sectionId, ctx) && eff.sectionId in store then IsEntryFor(e, eff, store) && all == front + [e]
      else all == front
  {
    var all := Resolved(sections + [eff], store, ctx);
    assert (sections + [eff])[..|sections|] == sections;
    e := if TakesPart(eff.sectionId, ctx) && eff.sectionId in store then all[|all| - 1]
         else Entry("", 0, None, None, 0);
  }

  lemma {:induction false} ResolvedEntries(sections: seq<EffectiveSection>, store: SectionStore, ctx: PromptContext)
      returns (places: seq<nat>)
    ensures AreEntriesFor(Resolved(sections, store, ctx), sections, places, store, ctx)
  {
    if sections == [] {
      places := [];
    } else {
      hide *;
      var front, eff := sections[..|sections| - 1], sections[|sections| - 1];
      places := ResolvedEntries(front, store, ctx);
      var e := ResolvedUnfolds(front, eff, store, ctx);
      EntriesForMore(Resolved(front, store, ctx), front, places, e, eff, store, ctx);
      assert sections == front + [eff];
      if TakesPart(eff.sectionId, ctx) && eff.sectionId in store {
        places := places + [|front|];
      }
    }
  }

  /** The entries of a prompt are those, ordered by priority and in template order within one priority. */
  lemma EntriesAreTheSelected(template: Template, store: SectionStore, ctx: PromptContext, y: Entry)
      returns (taken: seq<Entry>, places: seq<nat>)
    ensures AreEntriesFor(taken, template.effectiveSections(ctx.agentMode), places, store, ctx)
    ensures var entries := Entries(template, store, ctx);
      && multiset(entries) == multiset(taken)
      && (forall i, j :: 0 <= i < j < |entries| ==> entries[i].priority <= entries[j].priority)
      && Alike(entries, y, ByPriority()) == Alike(taken, y, ByPriority())
  {
    var sections := template.effectiveSections(ctx.agentMode);
    places := ResolvedEntries(sections, store, ctx);
    taken := Resolved(sections, store, ctx);
    hide Resolved;
    SortIsStable(taken, y, ByPriority());
    var entries := Entries(template, store, ctx);
    forall i, j | 0 <= i < j < |entries| ensures entries[i].priority <= entries[j].priority {
      assert ByPriority()(entries[i], entries[j]);
    }
  }

  // ---------------------------------------------------------------------------
  // How the texts are put together
  // ---------------------------------------------------------------------------

  /** Texts on lines of their own, from the first that is not empty. */
  function Lines(parts: seq<string>): string {
    if parts != [] && parts[0] == "" then Lines(parts[1..]) else Join(parts, "\n")
  }

  lemma JoinIsNotEmpty(parts: seq<string>)
    requires parts != [] && parts[0] != ""
    ensures Join(parts, "\n") != ""
  {
  }

  lemma {:induction false} LinesAppend(parts: seq<string>, last: string)
    ensures Lines(parts + [last]) == if Lines(parts) == "" then last else Lines(parts) + "\n" + last
  {
    var all := parts + [last];
    if parts == [] {
      assert Lines([last]) == last;
    } else if parts[0] == "" {
      assert all[1..] == parts[1..] + [last];
      LinesAppend(parts[1..], last);
    } else {
      JoinIsNotEmpty(parts);
      JoinAppend(parts, last, "\n");
    }
  }

  lemma {:induction false} LinesOfLines(a: seq<string>, b: seq<string>)
    ensures Lines([Lines(a)] + b) == Lines(a + b)
  {
    if b == [] {
      LinesAppend([], Lines(a));
      assert a + b == a && [Lines(a)] + b == [] + [Lines(a)];
    } else {
      var front, last := b[..|b| - 1], b[|b| - 1];
      LinesOfLines(a, front);
      LinesAppend(a + front, last);
      LinesAppend([Lines(a)] + front, last);
      assert a + b == a + front + [last] && [Lines(a)] + b == [Lines(a)] + front + [last];
    }
  }

  /** `places` lists, in order, exactly the pieces there are among the first `n`; `texts` are theirs, cut. */
  ghost predicate AreTexts(texts: seq<string>, pieces: seq<Option<Piece>>, places: seq<nat>, n: nat)
    requires n <= |pieces|
  {
    && |texts| == |places|
    && (forall k, l :: 0 <= k < l < |places| ==> places[k] < places[l])
    && (forall k :: 0 <= k < |places| ==> places[k] < n && IsTextOf(texts[k], pieces[places[k]]))
    && forall i :: 0 <= i < n ==> (i in places <==> pieces[i].Some?)
  }

  predicate IsTextOf(text: string, piece: Option<Piece>) {
    piece.Some? && text == Truncate(piece.value.text, piece.value.tokenBudget)
  }

  lemma TextsOfMore(texts: seq<string>, pieces: seq<Option<Piece>>, places: seq<nat>, n: nat)
    requires n < |pieces| && AreTexts(texts, pieces, places, n)
    ensures pieces[n] == None ==> AreTexts(texts, pieces, places, n + 1)
    ensures pieces[n].Some? ==>
      AreTexts(texts + [Truncate(pieces[n].value.text, pieces[n].value.tokenBudget)], pieces, places + [n], n + 1)
  {
    hide Truncate;
    var longer := places + [n];
    assert longer[|places|] == n && forall i :: i in longer <==> i in places || i == n;
  }

  /** Whether the next piece, if `n` have been gone through, exceeds the budget. */
  predicate IsTooMuch(d: Draft, piece: Option<Piece>, total: u32) {
    piece.Some? && Wrap32(d.tokens + EstimateTokens(Truncate(piece.value.text, piece.value.tokenBudget))) > total
  }

  lemma AddedLine(d: Draft, parts: seq<string>, piece: Option<Piece>, total: u32)
    requires d.text == Lines(parts) && !d.full
    ensures piece.Some? ==>
      var r := Added(d, piece.value, total);
      && (r.full <==> IsTooMuch(d, piece, total)) && (r.full ==> r == d.(full := true))
      && (!r.full ==> r.text == Lines(parts + [Truncate(piece.value.text, piece.value.tokenBudget)]))
    ensures piece == None ==> !IsTooMuch(d, piece, total)
  {
    if piece.Some? {
      var text := Truncate(piece.value.text, piece.value.tokenBudget);
      hide Truncate, EstimateTokens, Lines;
      LinesAppend(parts, text);
      assert "" + text == text;
    }
  }

  lemma FullIsTooMuch(d: Draft, piece: Option<Piece>, total: u32)
    ensures IsTooMuch(d.(full := true), piece, total) == IsTooMuch(d, piece, total)
  {
  }

  /** The draft after the first `n` pieces is their texts on lines of their own; there was no room for the next. */
  lemma {:induction false} DraftIsLines(start: Draft, pieces: seq<Option<Piece>>, i: nat, total: u32)
      returns (n: nat, texts: seq<string>, places: seq<nat>)
    requires !start.full && i <= |pieces|
    ensures n <= i && AreTexts(texts, pieces, places, n)
    ensures var d := AddAll(start, pieces[..i], total);
      d.text == Lines([start.text] + texts) && (d.full <==> n < i) && (n < i ==> IsTooMuch(d, pieces[n], total))
  {
    if i == 0 {
      n, texts, places := 0, [], [];
      LinesAppend([], start.text);
      assert [start.text] + texts == [] + [start.text];
      assert Lines([start.text] + texts) == start.text;
    } else {
      n, texts, places := DraftIsLines(start, pieces, i - 1, total);
      AddNext(start, pieces, i - 1, total);
      var d := AddAll(start, pieces[..i - 1], total);
      if n == i - 1 {
        TextsOfMore(texts, pieces, places, n);
        AddedLine(d, [start.text] + texts, pieces[n], total);
        FullIsTooMuch(d, pieces[n], total);
        hide *;
        if pieces[n] == None {
          n := i;
        } else if !IsTooMuch(d, pieces[n], total) {
          var text := Truncate(pieces[n].value.text, pieces[n].value.tokenBudget);
          assert [start.text] + (texts + [text]) == [start.text] + texts + [text];
          texts, places, n := texts + [text], places + [n], i;
        }
      }
    }
  }

  /** A text over its budget becomes its beginning and a mark that together fill the budget, or nothing. */
  lemma CutTextFillsTheBudget(text: string, maxTokens: u32)
    requires EstimateTokens(text) > maxTokens
    ensures maxTokens < 3 ==> Truncate(text, maxTokens) == ""
    ensures maxTokens >= 3 ==>
      var r, kept := Truncate(text, maxTokens), 4 * maxTokens - 12;
      |r| == 4 * maxTokens && r[..kept] == text[..kept] && r[kept..] == "\n[truncated]"
  {
    assert |text| > 4 * maxTokens;
  }

  lemma ReplaceHere(mark: string, after: string, replacement: string)
    requires mark != ""
    ensures ReplaceAll(mark + after, mark, replacement) == replacement + ReplaceAll(after, mark, replacement)
  {
    assert (mark + after)[|mark|..] == after;
  }

  lemma ReplaceFurther(c: char, rest: string, mark: string, replacement: string)
    requires mark != "" && !(mark <= [c] + rest)
    ensures ReplaceAll([c] + rest, mark, replacement) == [c] + ReplaceAll(rest, mark, replacement)
  {
    assert ([c] + rest)[1..] == rest;
  }

  /** The first mark in a text gives way to the replacement, and so on after it. */
  lemma {:induction false} FirstMarkIsReplaced(before: string, mark: string, after: string, replacement: string)
    requires mark != "" && forall k :: 0 <= k < |before| ==> !(mark <= before[k..] + mark + after)
    ensures ReplaceAll(before + mark + after, mark, replacement)
      == before + replacement + ReplaceAll(after, mark, replacement)
  {
    hide ReplaceAll;
    if before == "" {
      ReplaceHere(mark, after, replacement);
      assert before + mark + after == mark + after;
    } else {
      var c, rest := before[0], before[1..];
      forall k | 0 <= k < |rest| ensures !(mark <= rest[k..] + mark + after) {
        assert rest[k..] == before[k + 1..];
      }
      FirstMarkIsReplaced(rest, mark, after, replacement);
      assert before[0..] == before == [c] + rest;
      assert before + mark + after == [c] + (rest + mark + after);
      ReplaceFurther(c, rest + mark + after, mark, replacement);
    }
  }

  // ---------------------------------------------------------------------------
  // What is shown of a section
  // ---------------------------------------------------------------------------

  predicate ConditionHolds(e: Entry, ctx: PromptContext) {
    match e.condition
    case None => true
    case Some(condition) => condition.Evaluate(ctx)
  }

  /** What the simple conditions mean: one mode and no other, a flag that is on, any tool. */
  lemma SimpleConditions(ctx: PromptContext, mode: string, name: string)
    ensures ModeIs(mode).Evaluate(ctx) <==> mode == ctx.agentMode
    ensures ModeNot(mode).Evaluate(ctx) <==> !ModeIs(mode).Evaluate(ctx)
    ensures ConfigFlag(name).Evaluate(ctx) <==> (name, true) in ctx.configFlags.Items
    ensures HasTool("*").Evaluate(ctx) <==> exists tool :: tool in ctx.availableTools
  {
    assert ctx.availableTools != [] ==> ctx.availableTools[0] in ctx.availableTools;
  }

  /** All of none hold and any of none does not; one more joins with `and` and `or`. */
  lemma CombinedConditions(ctx: PromptContext, conditions: seq<Condition>, c: Condition)
    ensures AllOf([]).Evaluate(ctx) && !AnyOf([]).Evaluate(ctx)
    ensures AllOf(conditions + [c]).Evaluate(ctx) <==> AllOf(conditions).Evaluate(ctx) && c.Evaluate(ctx)
    ensures AnyOf(conditions + [c]).Evaluate(ctx) <==> AnyOf(conditions).Evaluate(ctx) || c.Evaluate(ctx)
  {
    assert forall d :: d in conditions + [c] <==> d in conditions || d == c;
  }

  /** Has a place in the prefix: it applies, is loaded, is not live, and gives no way to a custom prompt. */
  predicate StandsInPrefix(e: Entry, ctx: PromptContext) {
    && ConditionHolds(e, ctx) && e.content.Some?
    && e.id !in {"core.datetime", "core.environment", "core.mcp_hint"}
    && (ctx.customSystemPrompt == None ||
        e.id !in {"core.identity", "core.guidelines", "core.security", "core.persona"})
  }

  /** Has a place after the prefix. */
  predicate StandsAfterPrefix(e: Entry, ctx: PromptContext) {
    && ConditionHolds(e, ctx) && e.content.Some?
    && e.id in {"core.datetime", "core.environment", "core.mcp_hint"}
  }

  /** What a section of the prefix says: its content, in which one section names the agents. */
  predicate SaysInPrefix(text: string, e: Entry, agents: string) {
    && e.content.Some?
    && (e.id != "core.orchestration" ==> text == Truncate(e.content.value, e.tokenBudget))
    && (e.id == "core.orchestration" ==>
      text == Truncate(ReplaceAll(e.content.value, "{{CALLABLE_AGENTS}}", agents), e.tokenBudget))
  }

  /** What a live section says: the time, the environment of the workspace, or the content with instructions. */
  predicate SaysAfterPrefix(text: string, e: Entry, ctx: PromptContext, env: Env) {
    && e.content.Some?
    && (e.id == "core.datetime" ==> text == Truncate(env.datetime, e.tokenBudget))
    && (e.id == "core.environment" ==> text == Truncate(env.environment(ctx.workingDirectory), e.tokenBudget))
    && (e.id == "core.mcp_hint" && ctx.mcpInstructions == None ==> text == Truncate(e.content.value, e.tokenBudget))
    && (e.id == "core.mcp_hint" && ctx.mcpInstructions.Some? ==>
      text == Truncate(e.content.value + "\n\n" + ctx.mcpInstructions.value, e.tokenBudget))
  }

  /** `places` lists, in order, exactly the entries with a place in the prefix among the first `n`. */
  ghost predicate IsPrefix(texts: seq<string>, entries: seq<Entry>, places: seq<nat>, n: nat, ctx: PromptContext,
      agents: string)
    requires n <= |entries|
  {
    && |texts| == |places|
    && (forall k, l :: 0 <= k < l < |places| ==> places[k] < places[l])
    && (forall k :: 0 <= k < |places| ==> places[k] < n && SaysInPrefix(texts[k], entries[places[k]], agents))
    && forall i :: 0 <= i < n ==> (i in places <==> StandsInPrefix(entries[i], ctx))
  }

  /** The same for those with a place after it. */
  ghost predicate IsRest(texts: seq<string>, entries: seq<Entry>, places: seq<nat>, n: nat, ctx: PromptContext,
      env: Env)
    requires n <= |entries|
  {
    && |texts| == |places|
    && (forall k, l :: 0 <= k < l < |places| ==> places[k] < places[l])
    && (forall k :: 0 <= k < |places| ==> places[k] < n && SaysAfterPrefix(texts[k], entries[places[k]], ctx, env))
    && forall i :: 0 <= i < n ==> (i in places <==> StandsAfterPrefix(entries[i], ctx))
  }

  lemma StablePieceIff(e: Entry, ctx: PromptContext, agents: string, text: string)
    ensures var piece := StablePiece(e, ctx, agents);
      && (piece.Some? <==> StandsInPrefix(e, ctx))
      && (IsTextOf(text, piece) ==> SaysInPrefix(text, e, agents))
  {
    hide Truncate, ReplaceAll, Condition.Evaluate;
  }

  lemma VolatilePieceIff(e: Entry, ctx: PromptContext, env: Env, text: string)
    ensures var piece := VolatilePiece(e, ctx, env);
      && (piece.Some? <==> StandsAfterPrefix(e, ctx))
      && (IsTextOf(text, piece) ==> SaysAfterPrefix(text, e, ctx, env))
  {
    hide Truncate, Condition.Evaluate;
  }

  /** What the prompt opens with. */
  function Opening(ctx: PromptContext, total: u32): string {
    match ctx.customSystemPrompt
    case None => ""
    case Some(custom) => Truncate(custom, total)
  }

  lemma TextsOfPrefix(texts: seq<string>, entries: seq<Entry>, places: seq<nat>, n: nat, ctx: PromptContext,
      agents: string)
    requires n <= |entries| && AreTexts(texts, StablePieces(entries, ctx, agents), places, n)
    ensures IsPrefix(texts, entries, places, n, ctx, agents)
  {
    hide StablePiece, StandsInPrefix, SaysInPrefix, IsTextOf;
    forall i | 0 <= i < n ensures StablePieces(entries, ctx, agents)[i].Some? <==> StandsInPrefix(entries[i], ctx) {
      StablePieceIff(entries[i], ctx, agents, "");
    }
    forall k | 0 <= k < |places| ensures SaysInPrefix(texts[k], entries[places[k]], agents) {
      StablePieceIff(entries[places[k]], ctx, agents, texts[k]);
    }
  }

  lemma TextsOfRest(texts: seq<string>, entries: seq<Entry>, places: seq<nat>, n: nat, ctx: PromptContext, env: Env)
    requires n <= |entries| && AreTexts(texts, VolatilePieces(entries, ctx, env), places, n)
    ensures IsRest(texts, entries, places, n, ctx, env)
  {
    hide VolatilePiece, StandsAfterPrefix, SaysAfterPrefix, IsTextOf;
    forall i | 0 <= i < n ensures VolatilePieces(entries, ctx, env)[i].Some? <==> StandsAfterPrefix(entries[i], ctx) {
      VolatilePieceIff(entries[i], ctx, env, "");
    }
    forall k | 0 <= k < |places| ensures SaysAfterPrefix(texts[k], entries[places[k]], ctx, env) {
      VolatilePieceIff(entries[places[k]], ctx, env, texts[k]);
    }
  }

  lemma PrefixIsItsSections(entries: seq<Entry>, ctx: PromptContext, agents: string, total: u32)
      returns (n: nat, texts: seq<string>, places: seq<nat>)
    ensures n <= |entries| && IsPrefix(texts, entries, places, n, ctx, agents)
    ensures var d := StableOf(entries, ctx, agents, total);
      && d.text == Lines([Opening(ctx, total)] + texts) && (d.full <==> n < |entries|)
      && (n < |entries| ==> StandsInPrefix(entries[n], ctx))
  {
    hide Truncate, Lines, AddAll, StablePiece, StandsInPrefix, AreTexts, IsPrefix, EstimateTokens;
    var pieces := StablePieces(entries, ctx, agents);
    n, texts, places := DraftIsLines(StableStart(ctx, total), pieces, |pieces|, total);
    assert pieces[..|pieces|] == pieces;
    TextsOfPrefix(texts, entries, places, n, ctx, agents);
    if n < |entries| {
      StablePieceIff(entries[n], ctx, agents, "");
    }
  }

  lemma RestIsItsSections(start: Draft, entries: seq<Entry>, ctx: PromptContext, env: Env, total: u32)
      returns (n: nat, texts: seq<string>, places: seq<nat>)
    requires !start.full
    ensures n <= |entries| && IsRest(texts, entries, places, n, ctx, env)
    ensures var d := AddAll(start, VolatilePieces(entries, ctx, env), total);
      && d.text == Lines([start.text] + texts) && (d.full <==> n < |entries|)
      && (n < |entries| ==> StandsAfterPrefix(entries[n], ctx))
  {
    hide Truncate, Lines, AddAll, VolatilePiece, StandsAfterPrefix, AreTexts, IsRest, EstimateTokens;
    var pieces := VolatilePieces(entries, ctx, env);
    n, texts, places := DraftIsLines(start, pieces, |pieces|, total);
    assert pieces[..|pieces|] == pieces;
    TextsOfRest(texts, entries, places, n, ctx, env);
    if n < |entries| {
      VolatilePieceIff(entries[n], ctx, env, "");
    }
  }

  /**
   The prompt is the custom prompt, the sections of the prefix and the live sections, in the order of
   the entries and each on a line of its own. Either pass ends before the first section for which
   there is no room; the fallback stands in for an empty prompt.
   */
  lemma PromptIsItsSections(stage: Stage, s: State, env: Env)
      returns (n: nat, before: seq<string>, first: seq<nat>, m: nat, after: seq<string>, second: seq<nat>)
    ensures var entries := Entries(stage.template, s.store, s.ctx);
      && n <= |entries| && IsPrefix(before, entries, first, n, s.ctx, s.agents)
      && m <= |entries| && IsRest(after, entries, second, m, s.ctx, env)
      && (n < |entries| <==> stage.Stable(s.store, s.ctx, s.agents).full)
      && (m < |entries| <==> stage.FromScratch(s, env).full)
      && (n < |entries| ==> StandsInPrefix(entries[n], s.ctx))
      && (m < |entries| ==> StandsAfterPrefix(entries[m], s.ctx))
    ensures var text := Lines([Opening(s.ctx, stage.Total(s.ctx))] + before + after);
      stage.FromScratch(s, env).text == if text == "" then stage.fallback else text
  {
    hide Lines, IsPrefix, IsRest, Opening, AddAll, StableOf, EstimateTokens, StandsInPrefix, StandsAfterPrefix, Entries;
    var entries, total := Entries(stage.template, s.store, s.ctx), stage.Total(s.ctx);
    n, before, first := PrefixIsItsSections(entries, s.ctx, s.agents, total);
    var stable := stage.Stable(s.store, s.ctx, s.agents);
    m, after, second := RestIsItsSections(Draft(stable.text, stable.tokens, false), entries, s.ctx, env, total);
    LinesOfLines([Opening(s.ctx, total)] + before, after);
  }

  // ---------------------------------------------------------------------------
  // Custom prompts
  // ---------------------------------------------------------------------------

  /** Any section but the four that a custom prompt replaces. */
  predicate Stays(e: Entry) {
    e.id !in {"core.identity", "core.guidelines", "core.security", "core.persona"}
  }

  function WithoutIdentity(store: SectionStore): SectionStore {
    store - {"core.identity", "core.guidelines", "core.security", "core.persona"}
  }

  /** With a custom prompt the sections on identity, guidelines, security and persona might as well not be stored. */
  lemma CustomPromptReplaces(stage: Stage, s: State, env: Env)
    requires s.ctx.customSystemPrompt.Some?
    ensures stage.FromScratch(s, env) == stage.FromScratch(s.(store := WithoutIdentity(s.store)), env)
  {
    var entries := Entries(stage.template, s.store, s.ctx);
    EntriesWithoutIdentity(stage.template, s.store, s.ctx);
    hide *;
    StableOfChosen(entries, s.ctx, s.agents, stage.Total(s.ctx));
    var stable := stage.Stable(s.store, s.ctx, s.agents);
    var start := Draft(stable.text, stable.tokens, false);
    RestOfChosen(entries, s.ctx, env, start, stage.Total(s.ctx));
    FromScratchUnfolds(stage, s, env);
    FromScratchUnfolds(stage, s.(store := WithoutIdentity(s.store)), env);
  }

  lemma FromScratchUnfolds(stage: Stage, s: State, env: Env)
    ensures var entries, total := Entries(stage.template, s.store, s.ctx), stage.Total(s.ctx);
      var stable := stage.Stable(s.store, s.ctx, s.agents);
      var d := AddAll(Draft(stable.text, stable.tokens, false), VolatilePieces(entries, s.ctx, env), total);
      && stable == StableOf(entries, s.ctx, s.agents, total)
      && stage.FromScratch(s, env) ==
        if d.text == "" then Draft(stage.fallback, EstimateTokens(stage.fallback), d.full) else d
  {
    hide AddAll, Entries, StableOf, EstimateTokens;
  }

  lemma {:induction false} ResolvedWithoutIdentity(sections: seq<EffectiveSection>, store: SectionStore,
      ctx: PromptContext)
    ensures Resolved(sections, WithoutIdentity(store), ctx) == Chosen(Resolved(sections, store, ctx), e => Stays(e))
  {
    if sections == [] {
    } else {
      var last := |sections| - 1;
      ResolvedWithoutIdentity(sections[..last], store, ctx);
      var front, all := Resolved(sections[..last], store, ctx), Resolved(sections, store, ctx);
      if all != front {
        assert all[..|front|] == front;
      }
    }
  }

  lemma EntriesWithoutIdentity(template: Template, store: SectionStore, ctx: PromptContext)
    ensures Entries(template, WithoutIdentity(store), ctx) == Chosen(Entries(template, store, ctx), e => Stays(e))
  {
    var sections := template.effectiveSections(ctx.agentMode);
    ResolvedWithoutIdentity(sections, store, ctx);
    SortOfChosen(Resolved(sections, store, ctx), ByPriority(), e => Stays(e));
  }

  lemma AddAllUnfolds(start: Draft, pieces: seq<Option<Piece>>, last: Option<Piece>, total: u32)
    ensures var d := AddAll(start, pieces, total);
      AddAll(start, pieces + [last], total) == if d.full || last == None then d else Added(d, last.value, total)
  {
    assert (pieces + [last])[..|pieces|] == pieces;
  }

  lemma StablePiecesAppend(entries: seq<Entry>, last: Entry, ctx: PromptContext, agents: string)
    ensures StablePieces(entries + [last], ctx, agents)
      == StablePieces(entries, ctx, agents) + [StablePiece(last, ctx, agents)]
  {
    hide StablePiece;
  }

  lemma VolatilePiecesAppend(entries: seq<Entry>, last: Entry, ctx: PromptContext, env: Env)
    ensures VolatilePieces(entries + [last], ctx, env)
      == VolatilePieces(entries, ctx, env) + [VolatilePiece(last, ctx, env)]
  {
    hide VolatilePiece;
  }

  lemma {:induction false} StableOfChosen(entries: seq<Entry>, ctx: PromptContext, agents: string, total: u32)
    requires ctx.customSystemPrompt.Some?
    ensures StableOf(Chosen(entries, e => Stays(e)), ctx, agents, total) == StableOf(entries, ctx, agents, total)
  {
    if entries == [] {
    } else {
      hide StablePiece, StandsInPrefix, AddAll, StableStart, StablePieces, Chosen, IsTextOf, SaysInPrefix;
      var front, last, start := entries[..|entries| - 1], entries[|entries| - 1], StableStart(ctx, total);
      var kept := Chosen(front, e => Stays(e));
      assert entries == front + [last];
      StableOfChosen(front, ctx, agents, total);
      ChosenAppend(front, last, e => Stays(e));
      StablePieceIff(last, ctx, agents, "");
      GivesWay(last, ctx);
      StablePiecesAppend(front, last, ctx, agents);
      StablePiecesAppend(kept, last, ctx, agents);
      hide *;
      AddAllUnfolds(start, StablePieces(front, ctx, agents), StablePiece(last, ctx, agents), total);
      AddAllUnfolds(start, StablePieces(kept, ctx, agents), StablePiece(last, ctx, agents), total);
    }
  }

  lemma GivesWay(e: Entry, ctx: PromptContext)
    requires ctx.customSystemPrompt.Some? || IsVolatile(e.id)
    ensures !Stays(e) ==> !StandsInPrefix(e, ctx) && !StandsAfterPrefix(e, ctx)
  {
  }

  lemma {:induction false} RestOfChosen(entries: seq<Entry>, ctx: PromptContext, env: Env, start: Draft, total: u32)
    requires ctx.customSystemPrompt.Some?
    ensures AddAll(start, VolatilePieces(Chosen(entries, e => Stays(e)), ctx, env), total)
      == AddAll(start, VolatilePieces(entries, ctx, env), total)
  {
    if entries == [] {
    } else {
      hide VolatilePiece, StandsAfterPrefix, AddAll, VolatilePieces, Chosen, IsTextOf, SaysAfterPrefix;
      var front, last := entries[..|entries| - 1], entries[|entries| - 1];
      var kept := Chosen(front, e => Stays(e));
      assert entries == front + [last];
      RestOfChosen(front, ctx, env, start, total);
      ChosenAppend(front, last, e => Stays(e));
      VolatilePieceIff(last, ctx, env, "");
      GivesWay(last, ctx);
      VolatilePiecesAppend(front, last, ctx, env);
      VolatilePiecesAppend(kept, last, ctx, env);
      hide *;
      AddAllUnfolds(start, VolatilePieces(front, ctx, env), VolatilePiece(last, ctx, env), total);
      AddAllUnfolds(start, VolatilePieces(kept, ctx, env), VolatilePiece(last, ctx, env), total);
    }
  }
}
