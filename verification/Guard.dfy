/** The context-window guard (`y-context/src/guard.rs`). */
module Guard {
  import opened Numbers

  datatype TokenBudget = TokenBudget(systemPrompt: u32, toolsSchema: u32, history: u32, bootstrap: u32,
      responseReserve: u32)
  {
    /** Saturating `u32` sum of the four categories, without the response reserve. */
    function TotalAvailable(): u32 {
      SatAdd32(SatAdd32(SatAdd32(systemPrompt, toolsSchema), history), bootstrap)
    }
  }

  datatype GuardVerdict = Fine | Warning(utilizationPct: nat) | Overflow(tokensOver: nat) | Critical(tokensOver: nat)
  {
    function Severity(): nat {
      match this
      case Fine => 0
      case Warning(_) => 1
      case Overflow(_) => 2
      case Critical(_) => 3
    }
  }

  datatype ContextWindowGuard = ContextWindowGuard(
    budget: TokenBudget, warningThreshold: u32, compactionThreshold: u32, criticalThreshold: u32)
  {
    /** The thresholds in the order that makes the four verdicts levels. */
    predicate Ordered() {
      warningThreshold <= compactionThreshold <= criticalThreshold <= 100
    }

    function Evaluate(used: nat): GuardVerdict {
      var total := budget.TotalAvailable();
      var utilization := UtilizationPct(used, total);
      if utilization >= criticalThreshold then Critical(SatSub(used, total))
      else if utilization >= compactionThreshold then
        Overflow(SatSub(used, ThresholdTokens(total, compactionThreshold)))
      else if utilization >= warningThreshold then Warning(utilization)
      else Fine
    }
  }

  /** Whole percents, computed in 64 bits and narrowed to 32 with 100 as the fallback. */
  function UtilizationPct(used: nat, total: nat): nat {
    if total == 0 then 100
    else
      var pct := used * 100 / total;
      if pct <= U32_MAX then pct else 100
  }

  function ThresholdTokens(total: nat, thresholdPct: nat): nat {
    Min(total * thresholdPct / 100, U32_MAX)
  }

  /** The rounded percentage decides exactly the unrounded question. */
  lemma UtilizationTestIsExact(used: nat, total: nat, p: nat)
    requires p <= 100
    ensures UtilizationPct(used, total) >= p <==> used * 100 >= p * total
  {
    if total > 0 {
      FloorTest(used * 100, total, p);
    }
  }

  /**
   For a threshold of `p` percent the narrowed test is exact on all 32-bit inputs if and only if `p` is
   at most 100.
   */
  lemma NarrowedTestIsExactIff(p: u32)
    ensures (forall used: u32, total: u32 :: UtilizationPct(used, total) >= p <==> used * 100 >= p * total)
      <==> p <= 100
  {
    if p <= 100 {
      forall used: u32, total: u32
        ensures UtilizationPct(used, total) >= p <==> used * 100 >= p * total
      {
        UtilizationTestIsExact(used, total, p);
      }
    } else {
      assert UtilizationPct(U32_MAX, 1) == 100;
      assert U32_MAX * 100 >= p * 1;
    }
  }

  /** The verdict's level is what the exact tests say. */
  lemma SeverityIsExact(g: ContextWindowGuard, used: nat)
    requires g.Ordered()
    ensures var total := g.budget.TotalAvailable();
      g.Evaluate(used).Severity() ==
        (if used * 100 >= g.criticalThreshold * total then 3
         else if used * 100 >= g.compactionThreshold * total then 2
         else if used * 100 >= g.warningThreshold * total then 1
         else 0)
  {
    var total := g.budget.TotalAvailable();
    UtilizationTestIsExact(used, total, g.criticalThreshold);
    UtilizationTestIsExact(used, total, g.compactionThreshold);
    UtilizationTestIsExact(used, total, g.warningThreshold);
  }

  /** More tokens never bring a milder verdict. */
  lemma SeverityIsMonotone(g: ContextWindowGuard, fewer: nat, more: nat)
    requires g.Ordered() && fewer <= more
    ensures g.Evaluate(fewer).Severity() <= g.Evaluate(more).Severity()
  {
    SeverityIsExact(g, fewer);
    SeverityIsExact(g, more);
    var total := g.budget.TotalAvailable();
    MulMonotone(g.warningThreshold, g.compactionThreshold, total);
    MulMonotone(g.compactionThreshold, g.criticalThreshold, total);
  }

  /**
   In an overflow the subtraction does not saturate, and removing `tokensOver` tokens brings the
   utilisation down to the compaction threshold. The verdict is then still an overflow exactly when
   the threshold is a whole number of tokens; one token more always clears it.
   */
  lemma RemovingTheOverflow(g: ContextWindowGuard, used: nat)
    requires g.Ordered() && g.Evaluate(used).Overflow?
    ensures var total := g.budget.TotalAvailable();
      var over := g.Evaluate(used).tokensOver;
      && used == ThresholdTokens(total, g.compactionThreshold) + over
      && UtilizationPct(used - over, total) <= g.compactionThreshold
      && (g.Evaluate(used - over).Severity() >= 2 <==> g.compactionThreshold * total % 100 == 0)
      && (over < used ==> g.Evaluate(used - over - 1).Severity() < 2)
  {
    var total, c := g.budget.TotalAvailable(), g.compactionThreshold;
    SeverityIsExact(g, used);
    ThresholdIsTheFloor(total, c);
    var t := ThresholdTokens(total, c);
    SeverityIsExact(g, t);
    MulMonotone(c, g.criticalThreshold, total);
    if t > 0 {
      SeverityIsExact(g, t - 1);
    }
  }

  lemma ThresholdIsTheFloor(total: u32, c: nat)
    requires total > 0 && c <= 100
    ensures var t := ThresholdTokens(total, c);
      && t * 100 <= c * total < t * 100 + 100
      && (t * 100 == c * total <==> c * total % 100 == 0)
      && UtilizationPct(t, total) <= c
  {
    var exact := c * total;
    assert total * c == exact;
    MulMonotone(c, 100, total);
    FloorTest(exact / 100 * 100, total, c + 1);
    assert (c + 1) * total == exact + total;
  }

  /** The budget is the exact sum of the four categories, cut to 32 bits; the reserve is not part of it. */
  lemma TotalIsCappedSum(b: TokenBudget)
    ensures b.TotalAvailable() == Min(b.systemPrompt + b.toolsSchema + b.history + b.bootstrap, U32_MAX)
  {
  }

  /** A warning tells the whole percents used; a critical verdict tells by how much the budget is exceeded. */
  lemma VerdictFigures(g: ContextWindowGuard, used: nat)
    requires g.Ordered()
    ensures var total, verdict := g.budget.TotalAvailable(), g.Evaluate(used);
      && (verdict.Warning? ==>
        verdict.utilizationPct * total <= used * 100 < (verdict.utilizationPct + 1) * total)
      && (verdict.Critical? && used >= total ==> used == total + verdict.tokensOver)
      && (verdict.Critical? && used < total ==> verdict.tokensOver == 0)
  {
    var total, verdict := g.budget.TotalAvailable(), g.Evaluate(used);
    if verdict.Warning? {
      FloorTest(used * 100, total, verdict.utilizationPct);
      FloorTest(used * 100, total, verdict.utilizationPct + 1);
    }
  }
}
