/** Prompt sections, their conditions and budgets (`y-prompt`), as the system prompt stage uses them. */
module PromptSections {
  import opened Numbers
  import opened Sorting
  import opened Text
  import opened Wrappers

  datatype PromptContext = PromptContext(
    agentMode: string,
    activeSkills: seq<string>,
    availableTools: seq<string>,
    configFlags: map<string, bool>,
    workingDirectory: Option<string>,
    customSystemPrompt: Option<string>,
    selectedSections: Option<seq<string>>,
    mcpInstructions: Option<string>)
  {
    predicate Flag(name: string) {
      name in configFlags && configFlags[name]
    }
  }

  datatype Condition =
    | Always
    | ModeIs(mode: string)
    | ModeNot(mode: string)
    | HasSkill(skill: string)
    | HasTool(tool: string)
    | ConfigFlag(name: string)
    | AllOf(conditions: seq<Condition>)
    | AnyOf(conditions: seq<Condition>)
  {
    predicate Evaluate(ctx: PromptContext) {
      match this
      case Always => true
      case ModeIs(mode) => ctx.agentMode == mode
      case ModeNot(mode) => ctx.agentMode != mode
      case HasSkill(skill) => skill in ctx.activeSkills
      case HasTool(tool) => if tool == "*" then ctx.availableTools != [] else tool in ctx.availableTools
      case ConfigFlag(name) => ctx.Flag(name)
      case AllOf(conditions) => forall c :: c in conditions ==> c.Evaluate(ctx)
      case AnyOf(conditions) => exists c :: c in conditions && c.Evaluate(ctx)
    }
  }

  /** A stored section; `content` is what loading it gives, if that succeeds. */
  datatype Section = Section(content: Option<string>, tokenBudget: u32, priority: int, condition: Option<Condition>)

  type SectionStore = map<string, Section>

  datatype EffectiveSection = EffectiveSection(sectionId: string, priorityOverride: Option<int>,
      conditionOverride: Option<Condition>)

  /** A template is what it yields for each agent mode. */
  datatype Template = Template(effectiveSections: string -> seq<EffectiveSection>, effectiveBudget: string -> u32)

  /** A section as it takes part in one assembly. */
  datatype Entry = Entry(id: string, priority: int, condition: Option<Condition>, content: Option<string>,
      tokenBudget: u32)
  {
    predicate Applies(ctx: PromptContext) {
      condition.Some? ==> condition.value.Evaluate(ctx)
    }
  }

  function RequiredFlag(id: string): Option<string> {
    if id == "core.plan_mode_active" then Some("plan_mode.active")
    else if id == "core.loop_mode_active" then Some("loop_mode.active")
    else if id == "core.mcp_hint" then Some("mcp.enabled")
    else if id == "core.orchestration" then Some("orchestration.enabled")
    else None
  }

  predicate IsRuntimeFunctional(id: string, ctx: PromptContext) {
    RequiredFlag(id).Some? && ctx.Flag(RequiredFlag(id).value)
  }

  predicate IsSelected(id: string, ctx: PromptContext) {
    ctx.selectedSections == None || id in ctx.selectedSections.value || IsRuntimeFunctional(id, ctx)
  }

  /** The effective sections that are selected and stored, in template order. */
  function Resolved(sections: seq<EffectiveSection>, store: SectionStore, ctx: PromptContext): seq<Entry> {
    if sections == [] then []
    else
      var eff := sections[|sections| - 1];
      var front := Resolved(sections[..|sections| - 1], store, ctx);
      if IsSelected(eff.sectionId, ctx) && eff.sectionId in store then
        var section := store[eff.sectionId];
        front + [Entry(
          eff.sectionId,
          if eff.priorityOverride.Some? then eff.priorityOverride.value else section.priority,
          if eff.conditionOverride.Some? then eff.conditionOverride else section.condition,
          section.content,
          section.tokenBudget)]
      else front
  }

  function ByPriority(): (Entry, Entry) -> bool {
    (a: Entry, b: Entry) => a.priority <= b.priority
  }

  function Entries(template: Template, store: SectionStore, ctx: PromptContext): seq<Entry> {
    SortBy(Resolved(template.effectiveSections(ctx.agentMode), store, ctx), ByPriority())
  }

  // ---------------------------------------------------------------------------
  // Token budgets
  // ---------------------------------------------------------------------------

  const TRUNCATED := "\n[truncated]"

  /** `truncate_to_budget` */
  function Truncate(text: string, maxTokens: u32): (r: string)
    ensures EstimateTokens(r) <= maxTokens
    ensures EstimateTokens(text) <= maxTokens ==> r == text
  {
    if EstimateTokens(text) <= maxTokens then text
    else
      var limit := maxTokens * 4;
      if limit < |TRUNCATED| then ""
      else
        var kept := limit - |TRUNCATED|;
        if kept >= |text| then text else text[..kept] + TRUNCATED
  }

  /** A text to add, with the budget of its section. */
  datatype Piece = Piece(text: string, tokenBudget: u32)

  datatype Draft = Draft(text: string, tokens: u32, full: bool)

  /** Add one piece, or find the draft full. The running total is a `u32` and wraps like one. */
  function Added(d: Draft, piece: Piece, total: u32): Draft {
    var content := Truncate(piece.text, piece.tokenBudget);
    var tokens := Wrap32(d.tokens + EstimateTokens(content));
    if tokens > total then d.(full := true)
    else Draft((if d.text != "" then d.text + "\n" else "") + content, tokens, false)
  }

  /** Add pieces in order until one does not fit. */
  function AddAll(start: Draft, pieces: seq<Option<Piece>>, total: u32): Draft {
    if pieces == [] then start
    else
      var d := AddAll(start, pieces[..|pieces| - 1], total);
      var piece := pieces[|pieces| - 1];
      if d.full || piece == None then d else Added(d, piece.value, total)
  }

  lemma {:induction false} AddAllStaysWithinBudget(start: Draft, pieces: seq<Option<Piece>>, total: u32)
    requires start.tokens <= total
    ensures AddAll(start, pieces, total).tokens <= total
  {
    if pieces == [] {
    } else {
      AddAllStaysWithinBudget(start, pieces[..|pieces| - 1], total);
    }
  }

  // ---------------------------------------------------------------------------
  // How far the running estimate is from the text
  // ---------------------------------------------------------------------------

  /** Budgets so small that no running total leaves the `u32` range. */
  predicate NoWrap(pieces: seq<Option<Piece>>, total: u32) {
    total < U32_MAX && forall p :: p in pieces && p.Some? ==> total + p.value.tokenBudget < U32_MAX
  }

  /** Whether `piece` is added to `d`, which it is unless it does not fit or `d` is full. */
  predicate IsAdded(d: Draft, piece: Option<Piece>, total: u32) {
    !d.full && piece.Some? && !Added(d, piece.value, total).full
  }

  /** The newlines put before pieces. */
  function Newlines(start: Draft, pieces: seq<Option<Piece>>, total: u32): (n: nat)
    ensures n <= |pieces|
  {
    if pieces == [] then 0
    else
      var front, piece := pieces[..|pieces| - 1], pieces[|pieces| - 1];
      var d := AddAll(start, front, total);
      Newlines(start, front, total) + if IsAdded(d, piece, total) && d.text != "" then 1 else 0
  }

  /** The bytes by which a text falls short of the tokens that it is estimated at. */
  function SlackOf(text: string): int {
    4 * EstimateTokens(text) - |text|
  }

  /** The same, summed over the pieces added. */
  function Slack(start: Draft, pieces: seq<Option<Piece>>, total: u32): int {
    if pieces == [] then 0
    else
      var front, piece := pieces[..|pieces| - 1], pieces[|pieces| - 1];
      var d := AddAll(start, front, total);
      Slack(start, front, total)
        + if IsAdded(d, piece, total) then SlackOf(Truncate(piece.value.text, piece.value.tokenBudget)) else 0
  }

  lemma SlackIsSmall(text: string)
    requires EstimateTokens(text) < U32_MAX
    ensures 0 <= SlackOf(text) <= 3
  {
  }

  /** A text's estimate exceeds some tokens exactly if it has more than four bytes to each. */
  lemma EstimateExceedsIff(text: string, tokens: nat)
    requires tokens < U32_MAX
    ensures EstimateTokens(text) > tokens <==> |text| > 4 * tokens
  {
  }

  lemma AddedText(d: Draft, piece: Piece, total: u32)
    requires d.tokens <= total && total + piece.tokenBudget < U32_MAX && !Added(d, piece, total).full
    ensures var r, content := Added(d, piece, total), Truncate(piece.text, piece.tokenBudget);
      && r.tokens == d.tokens + EstimateTokens(content)
      && |r.text| == |d.text| + |content| + if d.text != "" then 1 else 0
  {
    hide Truncate, EstimateTokens;
    var content := Truncate(piece.text, piece.tokenBudget);
    var sum := d.tokens + EstimateTokens(content);
    assert Wrap32(sum) == sum;
  }

  /** What the text has over its estimate is the newlines, and what it has under it the slack. */
  lemma {:induction false} TextLength(start: Draft, pieces: seq<Option<Piece>>, total: u32)
    requires start.tokens <= total && NoWrap(pieces, total)
    ensures var d := AddAll(start, pieces, total);
      |d.text| - |start.text| == 4 * (d.tokens - start.tokens) +
        Newlines(start, pieces, total) - Slack(start, pieces, total)
    ensures Slack(start, pieces, total) >= 0
  {
    hide Added, NoWrap, Truncate, EstimateTokens;
    if pieces == [] {
    } else {
      var front, piece := pieces[..|pieces| - 1], pieces[|pieces| - 1];
      FrontDoesNotWrap(pieces, total);
      TextLength(start, front, total);
      AddAllStaysWithinBudget(start, front, total);
      var d := AddAll(start, front, total);
      if IsAdded(d, piece, total) {
        AddedText(d, piece.value, total);
        SlackIsSmall(Truncate(piece.value.text, piece.value.tokenBudget));
      } else if piece.Some? && !d.full {
        FullKeepsText(d, piece.value, total);
      }
    }
  }

  lemma FullKeepsText(d: Draft, piece: Piece, total: u32)
    requires Added(d, piece, total).full
    ensures Added(d, piece, total) == d.(full := true)
  {
  }

  lemma FrontDoesNotWrap(pieces: seq<Option<Piece>>, total: u32)
    requires NoWrap(pieces, total) && pieces != []
    ensures NoWrap(pieces[..|pieces| - 1], total)
    ensures var piece := pieces[|pieces| - 1]; piece.Some? ==> total + piece.value.tokenBudget < U32_MAX
  {
    assert pieces[|pieces| - 1] in pieces;
  }

  /** How many pieces there are to add. */
  function Given(pieces: seq<Option<Piece>>): (n: nat)
    ensures n <= |pieces|
  {
    if pieces == [] then 0
    else Given(pieces[..|pieces| - 1]) + if pieces[|pieces| - 1].Some? then 1 else 0
  }

  /** There is no newline before the first text. */
  lemma {:induction false} NewlinesComeBetween(start: Draft, pieces: seq<Option<Piece>>, total: u32)
    ensures Newlines(start, pieces, total) <= Given(pieces)
    ensures start.text == "" && AddAll(start, pieces, total).text == "" ==> Newlines(start, pieces, total) == 0
    ensures start.text == "" && AddAll(start, pieces, total).text != "" ==>
      Newlines(start, pieces, total) < Given(pieces)
  {
    hide Truncate, EstimateTokens;
    if pieces == [] {
    } else {
      NewlinesComeBetween(start, pieces[..|pieces| - 1], total);
    }
  }
}
