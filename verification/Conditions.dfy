/** What the conditions of sections read, and when the cache key settles them. */
module Conditions {
  import opened CacheKey
  import opened PromptSections
  import opened Wrappers

  /** A condition that reads only inputs that enter the cache key. */
  predicate IsKeyedCondition(c: Condition) {
    match c
    case Always => true
    case ModeIs(_) => true
    case ModeNot(_) => true
    case HasSkill(_) => false
    case HasTool(_) => false
    case ConfigFlag(name) => IsKeyedFlag(name)
    case AllOf(conditions) => forall d :: d in conditions ==> IsKeyedCondition(d)
    case AnyOf(conditions) => forall d :: d in conditions ==> IsKeyedCondition(d)
  }

  /** On the inputs that `c` reads and that do not enter the key, the two contexts agree. */
  predicate AgreeBesidesKey(c: Condition, a: PromptContext, b: PromptContext) {
    match c
    case AllOf(conditions) => forall d :: d in conditions ==> AgreeBesidesKey(d, a, b)
    case AnyOf(conditions) => forall d :: d in conditions ==> AgreeBesidesKey(d, a, b)
    case _ => IsKeyedCondition(c) || c.Evaluate(a) == c.Evaluate(b)
  }

  lemma {:induction false} ConditionAgrees(c: Condition, a: PromptContext, b: PromptContext)
    requires SameKeyedInputs(a, b) && AgreeBesidesKey(c, a, b)
    ensures c.Evaluate(a) == c.Evaluate(b)
  {
    match c
    case AllOf(conditions) =>
      forall d | d in conditions ensures d.Evaluate(a) == d.Evaluate(b) {
        ConditionAgrees(d, a, b);
      }
    case AnyOf(conditions) =>
      forall d | d in conditions ensures d.Evaluate(a) == d.Evaluate(b) {
        ConditionAgrees(d, a, b);
      }
    case _ =>
  }

  lemma {:induction false} KeyedConditionReadsTheKey(c: Condition, a: PromptContext, b: PromptContext)
    requires IsKeyedCondition(c)
    ensures AgreeBesidesKey(c, a, b)
  {
    match c
    case AllOf(conditions) =>
      forall d | d in conditions ensures AgreeBesidesKey(d, a, b) {
        KeyedConditionReadsTheKey(d, a, b);
      }
    case AnyOf(conditions) =>
      forall d | d in conditions ensures AgreeBesidesKey(d, a, b) {
        KeyedConditionReadsTheKey(d, a, b);
      }
    case _ =>
  }

  lemma {:induction false} AgreementIsTransitive(c: Condition, a: PromptContext, b: PromptContext, d: PromptContext)
    requires AgreeBesidesKey(c, a, b) && AgreeBesidesKey(c, b, d)
    ensures AgreeBesidesKey(c, a, d)
  {
    match c
    case AllOf(conditions) =>
      forall e | e in conditions ensures AgreeBesidesKey(e, a, d) {
        AgreementIsTransitive(e, a, b, d);
      }
    case AnyOf(conditions) =>
      forall e | e in conditions ensures AgreeBesidesKey(e, a, d) {
        AgreementIsTransitive(e, a, b, d);
      }
    case _ =>
  }

  lemma {:induction false} AgreementIsReflexive(c: Condition, a: PromptContext)
    ensures AgreeBesidesKey(c, a, a)
  {
    match c
    case AllOf(conditions) =>
      forall d | d in conditions ensures AgreeBesidesKey(d, a, a) {
        AgreementIsReflexive(d, a);
      }
    case AnyOf(conditions) =>
      forall d | d in conditions ensures AgreeBesidesKey(d, a, a) {
        AgreementIsReflexive(d, a);
      }
    case _ =>
  }

  // ---------------------------------------------------------------------------
  // When the key settles a condition
  // ---------------------------------------------------------------------------

  /** The truth of `c` if every skill, tool and unkeyed flag in it is read as `b`. */
  predicate Forced(c: Condition, ctx: PromptContext, b: bool) {
    match c
    case HasSkill(_) => b
    case HasTool(_) => b
    case ConfigFlag(name) => if IsKeyedFlag(name) then ctx.Flag(name) else b
    case AllOf(conditions) => forall d :: d in conditions ==> Forced(d, ctx, b)
    case AnyOf(conditions) => exists d :: d in conditions && Forced(d, ctx, b)
    case _ => c.Evaluate(ctx)
  }

  /** What is not in the key makes no difference to `c` in contexts with the keyed inputs of `ctx`. */
  predicate Settles(ctx: PromptContext, c: Condition) {
    Forced(c, ctx, false) == Forced(c, ctx, true)
  }

  /** Keys settle the condition, whatever inputs without separators they are made of. */
  ghost predicate IsDetermined(c: Condition) {
    forall ctx :: IsPlain(ctx) ==> Settles(ctx, c)
  }

  /** The truth of a condition lies between the two forced readings. */
  lemma {:induction false} ForcedBounds(c: Condition, ctx: PromptContext, a: PromptContext)
    requires SameKeyedInputs(a, ctx)
    ensures Forced(c, ctx, false) ==> c.Evaluate(a)
    ensures c.Evaluate(a) ==> Forced(c, ctx, true)
  {
    match c
    case AllOf(conditions) =>
      forall d | d in conditions
        ensures Forced(d, ctx, false) ==> d.Evaluate(a)
        ensures d.Evaluate(a) ==> Forced(d, ctx, true)
      {
        ForcedBounds(d, ctx, a);
      }
    case AnyOf(conditions) =>
      forall d | d in conditions
        ensures Forced(d, ctx, false) ==> d.Evaluate(a)
        ensures d.Evaluate(a) ==> Forced(d, ctx, true)
      {
        ForcedBounds(d, ctx, a);
      }
    case _ =>
  }

  /** The context without any skill, tool or unkeyed flag. */
  function Lowest(ctx: PromptContext): PromptContext {
    ctx.(activeSkills := [], availableTools := [],
         configFlags := map name | name in ctx.configFlags && IsKeyedFlag(name) :: ctx.configFlags[name])
  }

  /** It attains the lower reading. */
  lemma {:induction false} LowestIsForced(c: Condition, ctx: PromptContext)
    ensures SameKeyedInputs(Lowest(ctx), ctx)
    ensures c.Evaluate(Lowest(ctx)) == Forced(c, ctx, false)
  {
    match c
    case AllOf(conditions) =>
      forall d | d in conditions ensures d.Evaluate(Lowest(ctx)) == Forced(d, ctx, false) {
        LowestIsForced(d, ctx);
      }
    case AnyOf(conditions) =>
      forall d | d in conditions ensures d.Evaluate(Lowest(ctx)) == Forced(d, ctx, false) {
        LowestIsForced(d, ctx);
      }
    case _ =>
  }

  /** `b` differs from `a` in having more skills, tools and unkeyed flags only. */
  ghost predicate Grows(a: PromptContext, b: PromptContext) {
    && b == a.(activeSkills := b.activeSkills, availableTools := b.availableTools, configFlags := b.configFlags)
    && SameKeyedFlags(a.configFlags, b.configFlags)
    && (forall skill :: skill in a.activeSkills ==> skill in b.activeSkills)
    && (forall tool :: tool in a.availableTools ==> tool in b.availableTools)
    && forall name :: a.Flag(name) ==> b.Flag(name)
  }

  lemma GrowsOn(a: PromptContext, b: PromptContext, c: PromptContext)
    requires Grows(a, b) && Grows(b, c)
    ensures Grows(a, c)
  {
  }

  /** All that `c` reads besides the key is there. */
  predicate Covers(a: PromptContext, c: Condition) {
    match c
    case AllOf(conditions) => forall d :: d in conditions ==> Covers(a, d)
    case AnyOf(conditions) => forall d :: d in conditions ==> Covers(a, d)
    case _ => IsKeyedCondition(c) || c.Evaluate(a)
  }

  lemma {:induction false} CoversMore(a: PromptContext, b: PromptContext, c: Condition)
    requires Grows(a, b) && Covers(a, c)
    ensures Covers(b, c)
  {
    match c
    case AllOf(conditions) =>
      forall d | d in conditions ensures Covers(b, d) {
        CoversMore(a, b, d);
      }
    case AnyOf(conditions) =>
      forall d | d in conditions ensures Covers(b, d) {
        CoversMore(a, b, d);
      }
    case HasTool(tool) =>
      if tool == "*" {
        assert a.availableTools[0] in b.availableTools;
      }
    case _ =>
  }

  /** Such a context attains the upper reading. */
  lemma {:induction false} CoveredIsForced(c: Condition, a: PromptContext)
    requires Covers(a, c)
    ensures c.Evaluate(a) == Forced(c, a, true)
  {
    match c
    case AllOf(conditions) =>
      forall d | d in conditions ensures d.Evaluate(a) == Forced(d, a, true) {
        CoveredIsForced(d, a);
      }
    case AnyOf(conditions) =>
      forall d | d in conditions ensures d.Evaluate(a) == Forced(d, a, true) {
        CoveredIsForced(d, a);
      }
    case _ =>
  }

  lemma {:induction false} ForcedReadsTheKey(c: Condition, a: PromptContext, b: PromptContext, truth: bool)
    requires a.agentMode == b.agentMode && SameKeyedFlags(a.configFlags, b.configFlags)
    ensures Forced(c, a, truth) == Forced(c, b, truth)
  {
    match c
    case AllOf(conditions) =>
      forall d | d in conditions ensures Forced(d, a, truth) == Forced(d, b, truth) {
        ForcedReadsTheKey(d, a, b, truth);
      }
    case AnyOf(conditions) =>
      forall d | d in conditions ensures Forced(d, a, truth) == Forced(d, b, truth) {
        ForcedReadsTheKey(d, a, b, truth);
      }
    case _ =>
  }

  /** Every context grows into one that covers a condition. */
  lemma {:induction false} Covering(c: Condition, a: PromptContext) returns (b: PromptContext)
    ensures Grows(a, b) && Covers(b, c)
    decreases c, 1
  {
    b := a;
    match c
    case HasSkill(skill) =>
      b := a.(activeSkills := a.activeSkills + [skill]);
    case HasTool(tool) =>
      b := a.(availableTools := a.availableTools + [tool]);
    case ConfigFlag(name) =>
      if !IsKeyedFlag(name) {
        b := a.(configFlags := a.configFlags[name := true]);
      }
    case AllOf(conditions) =>
      b := CoveringAll(c, conditions, a);
    case AnyOf(conditions) =>
      b := CoveringAll(c, conditions, a);
    case _ =>
  }

  lemma CoveringAll(c: Condition, conditions: seq<Condition>, a: PromptContext) returns (b: PromptContext)
    requires c == AllOf(conditions) || c == AnyOf(conditions)
    ensures Grows(a, b) && forall d :: d in conditions ==> Covers(b, d)
    decreases c, 0
  {
    b := a;
    for i := 0 to |conditions|
      invariant Grows(a, b) && forall j :: 0 <= j < i ==> Covers(b, conditions[j])
    {
      var next := Covering(conditions[i], b);
      GrowsOn(a, b, next);
      forall j | 0 <= j < i ensures Covers(next, conditions[j]) {
        CoversMore(b, next, conditions[j]);
      }
      b := next;
    }
  }

  /**
   For every condition, nested ones included: the inputs that are not in the key make no
   difference under the keyed inputs of `ctx` exactly if the two forced readings agree there.
   */
  lemma SettlesIff(c: Condition, ctx: PromptContext)
    ensures Settles(ctx, c) <==>
      forall a, b :: SameKeyedInputs(a, ctx) && SameKeyedInputs(b, ctx) ==> c.Evaluate(a) == c.Evaluate(b)
  {
    if Settles(ctx, c) {
      forall a, b | SameKeyedInputs(a, ctx) && SameKeyedInputs(b, ctx) ensures c.Evaluate(a) == c.Evaluate(b) {
        ForcedBounds(c, ctx, a);
        ForcedBounds(c, ctx, b);
      }
    } else {
      var low, high := Extremes(c, ctx);
    }
  }

  /** Two contexts with the keyed inputs of `ctx` that attain the two readings. */
  lemma Extremes(c: Condition, ctx: PromptContext) returns (low: PromptContext, high: PromptContext)
    ensures low == Lowest(ctx) && Grows(low, high)
    ensures SameKeyedInputs(low, ctx) && SameKeyedInputs(high, ctx)
    ensures c.Evaluate(low) == Forced(c, ctx, false) && c.Evaluate(high) == Forced(c, ctx, true)
  {
    low := Lowest(ctx);
    LowestIsForced(c, ctx);
    high := Covering(c, low);
    CoveredIsForced(c, high);
    ForcedReadsTheKey(c, high, ctx, true);
  }

  /** So a condition depends on the keyed inputs alone exactly if the two readings agree everywhere. */
  lemma KeyedIff(c: Condition)
    ensures (forall a, b :: SameKeyedInputs(a, b) ==> c.Evaluate(a) == c.Evaluate(b)) <==> forall ctx :: Settles(ctx, c)
  {
    if forall ctx :: Settles(ctx, c) {
      forall a, b | SameKeyedInputs(a, b) ensures c.Evaluate(a) == c.Evaluate(b) {
        assert Settles(a, c);
        ForcedBounds(c, a, a);
        ForcedBounds(c, a, b);
      }
    }
    if forall a, b :: SameKeyedInputs(a, b) ==> c.Evaluate(a) == c.Evaluate(b) {
      forall ctx ensures Settles(ctx, c) {
        var low, high := Extremes(c, ctx);
        assert SameKeyedInputs(low, high);
      }
    }
  }

  /** A condition that reads keyed inputs only is settled. */
  lemma {:induction false} KeyedIsSettled(c: Condition, ctx: PromptContext)
    requires IsKeyedCondition(c)
    ensures Settles(ctx, c) && Forced(c, ctx, true) == c.Evaluate(ctx)
  {
    match c
    case AllOf(conditions) =>
      forall d | d in conditions ensures Settles(ctx, d) && Forced(d, ctx, true) == d.Evaluate(ctx) {
        KeyedIsSettled(d, ctx);
      }
    case AnyOf(conditions) =>
      forall d | d in conditions ensures Settles(ctx, d) && Forced(d, ctx, true) == d.Evaluate(ctx) {
        KeyedIsSettled(d, ctx);
      }
    case _ =>
  }

  const BLANK := PromptContext("", [], [], map[], None, None, None, None)

  /** Of unnested conditions the key settles those alone that read nothing else. */
  lemma AtomIsDeterminedIffKeyed(c: Condition)
    requires !c.AllOf? && !c.AnyOf?
    ensures IsDetermined(c) <==> IsKeyedCondition(c)
  {
    if IsKeyedCondition(c) {
      forall ctx | IsPlain(ctx) ensures Settles(ctx, c) {
        KeyedIsSettled(c, ctx);
      }
    } else {
      assert IsPlain(BLANK) && !Settles(BLANK, c);
    }
  }

  /** Equal keyed inputs, and a condition that the key settles or that reads alike besides: one verdict. */
  lemma AgreedCondition(c: Condition, a: PromptContext, b: PromptContext)
    requires SameKeyedInputs(a, b) && IsPlain(a)
    requires IsDetermined(c) || AgreeBesidesKey(c, a, b)
    ensures c.Evaluate(a) == c.Evaluate(b)
  {
    if IsDetermined(c) {
      assert Settles(a, c);
      ForcedBounds(c, a, a);
      ForcedBounds(c, a, b);
    } else {
      ConditionAgrees(c, a, b);
    }
  }
}
