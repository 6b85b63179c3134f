/** Injecting session history under a token budget (`y-context/src/load_history.rs`). */
module LoadHistory {
  import opened Numbers
  import opened Pipeline
  import opened Repair
  import opened Text

  const TRUNCATION_MARK := "... [truncated]"

  function Formatted(m: HistoryMessage): string {
    "[" + m.role + "] " + m.content
  }

  function Tokens(m: HistoryMessage): nat {
    EstimateTokens(Formatted(m))
  }

  function HistoryItem(content: string): ContextItem {
    ContextItem(History, content, EstimateTokens(content), 600)
  }

  /** The tokens of the first `n` messages, written out in full. */
  function PrefixTokens(messages: seq<HistoryMessage>, n: nat): nat
    requires n <= |messages|
  {
    if n == 0 then 0 else PrefixTokens(messages, n - 1) + Tokens(messages[n - 1])
  }

  function Verbatim(messages: seq<HistoryMessage>, n: nat): (r: seq<ContextItem>)
    requires n <= |messages|
    ensures |r| == n
  {
    seq(n, i requires 0 <= i < n => HistoryItem(Formatted(messages[i])))
  }

  /** The message that does not fit, cut to `remaining` tokens and marked. */
  function Cut(m: HistoryMessage, remaining: nat): ContextItem
    requires Tokens(m) > remaining
  {
    CutIsShorter(m, remaining);
    HistoryItem(Formatted(m)[..remaining * 4] + TRUNCATION_MARK)
  }

  /** A message over the remaining budget is always longer than the cut: there is no "fits anyway". */
  lemma CutIsShorter(m: HistoryMessage, remaining: nat)
    requires Tokens(m) > remaining
    ensures |Formatted(m)| > remaining * 4
  {
  }

  /** How many whole messages fit: the greatest prefix within the budget. */
  ghost predicate IsFitCount(messages: seq<HistoryMessage>, budget: nat, n: nat) {
    && n <= |messages|
    && PrefixTokens(messages, n) <= budget
    && (n < |messages| ==> PrefixTokens(messages, n + 1) > budget)
  }

  /** The items injected: the whole messages that fit, then a cut one if budget is left over. */
  ghost predicate IsInjection(messages: seq<HistoryMessage>, budget: nat, items: seq<ContextItem>) {
    exists n :: IsFitCount(messages, budget, n) && items == Injection(messages, budget, n)
  }

  function Injection(messages: seq<HistoryMessage>, budget: nat, n: nat): seq<ContextItem>
    requires n <= |messages| && PrefixTokens(messages, n) <= budget
    requires n < |messages| ==> PrefixTokens(messages, n + 1) > budget
  {
    var left := budget - PrefixTokens(messages, n);
    Verbatim(messages, n) + (if n < |messages| && left > 0 then [Cut(messages[n], left)] else [])
  }

  class LoadHistory {
    const messages: seq<HistoryMessage>
    const budget: u32

    constructor (messages: seq<HistoryMessage>, budget: u32)
      ensures this.messages == messages && this.budget == budget
    {
      this.messages := messages;
      this.budget := budget;
    }

    /** Appends the injection of the repaired history, and nothing else. */
    method Provide(ctx: AssembledContext)
      modifies ctx
      ensures old(ctx.items) <= ctx.items
      ensures IsInjection(Repaired(messages), budget, ctx.items[|old(ctx.items)|..])
    {
      hide PrefixTokens, Verbatim, IsInjection, Repaired, Formatted, HistoryItem, EstimateTokens;
      if messages == [] {
        NothingToInject(budget);
        assert ctx.items[|ctx.items|..] == [];
        return;
      }
      var repaired, report := RepairHistory(messages);
      var remaining := budget;
      var i := 0;
      ghost var before, added, cut := ctx.items, [], false;
      NoneWritten(repaired);
      while i < |repaired| && remaining > 0
        invariant i <= |repaired| && ctx.items == before + added
        invariant !cut ==> PrefixTokens(repaired, i) + remaining == budget && added == Verbatim(repaired, i)
        invariant cut ==> remaining == 0 && IsInjection(repaired, budget, added)
      {
        var formatted := Formatted(repaired[i]);
        var tokens := EstimateTokens(formatted);
        var item;
        if tokens > remaining {
          var maxChars := remaining * 4;
          InjectCut(repaired, budget, i);
          item := HistoryItem(if |formatted| > maxChars then formatted[..maxChars] + TRUNCATION_MARK else formatted);
          remaining, cut := 0, true;
        } else {
          OneMoreFits(repaired, i);
          item := HistoryItem(formatted);
          remaining := SatSub(remaining, tokens);
        }
        ctx.Add(item);
        added := added + [item];
        i := i + 1;
      }
      if !cut {
        InjectWhole(repaired, budget, i);
      }
      assert ctx.items[|before|..] == added;
    }
  }

  lemma NoneWritten(messages: seq<HistoryMessage>)
    ensures PrefixTokens(messages, 0) == 0 && Verbatim(messages, 0) == []
  {
  }

  lemma NothingToInject(budget: nat)
    ensures IsInjection(Repaired([]), budget, [])
  {
    assert Kept([], CallIds([])) == [];
    assert Repaired([]) == [];
    assert IsFitCount([], budget, 0) && Injection([], budget, 0) == [];
  }

  lemma OneMoreFits(messages: seq<HistoryMessage>, n: nat)
    requires n < |messages|
    ensures Verbatim(messages, n + 1) == Verbatim(messages, n) + [HistoryItem(Formatted(messages[n]))]
    ensures PrefixTokens(messages, n + 1) == PrefixTokens(messages, n) + EstimateTokens(Formatted(messages[n]))
  {
  }

  /** The message at `n` is cut: it is longer than what is left, so the "fits anyway" branch is dead. */
  lemma InjectCut(messages: seq<HistoryMessage>, budget: nat, n: nat)
    requires n < |messages| && PrefixTokens(messages, n) < budget
    requires EstimateTokens(Formatted(messages[n])) > budget - PrefixTokens(messages, n)
    ensures var chars := (budget - PrefixTokens(messages, n)) * 4;
      && |Formatted(messages[n])| > chars
      && IsInjection(messages, budget,
        Verbatim(messages, n) + [HistoryItem(Formatted(messages[n])[..chars] + TRUNCATION_MARK)])
  {
    CutIsShorter(messages[n], budget - PrefixTokens(messages, n));
    assert IsFitCount(messages, budget, n);
  }

  lemma InjectWhole(messages: seq<HistoryMessage>, budget: nat, n: nat)
    requires n <= |messages| && PrefixTokens(messages, n) <= budget
    requires n < |messages| ==> PrefixTokens(messages, n) == budget
    ensures IsInjection(messages, budget, Verbatim(messages, n))
  {
    assert n < |messages| ==> Tokens(messages[n]) > 0;
    assert IsFitCount(messages, budget, n);
    assert Verbatim(messages, n) + [] == Verbatim(messages, n);
  }

  lemma {:induction false} VerbatimTokens(messages: seq<HistoryMessage>, n: nat)
    requires n <= |messages|
    ensures SumTokens(Verbatim(messages, n)) == PrefixTokens(messages, n)
  {
    if n == 0 {
    } else {
      VerbatimTokens(messages, n - 1);
      assert Verbatim(messages, n)[..n - 1] == Verbatim(messages, n - 1);
    }
  }

  /** Fit counts are unique, so an injection is determined by the history and the budget. */
  lemma {:induction false} PrefixTokensGrow(messages: seq<HistoryMessage>, m: nat, n: nat)
    requires m < n <= |messages|
    ensures PrefixTokens(messages, m) < PrefixTokens(messages, n)
  {
    if m < n - 1 {
      PrefixTokensGrow(messages, m, n - 1);
    }
  }

  lemma FitCountIsUnique(messages: seq<HistoryMessage>, budget: nat, m: nat, n: nat)
    requires IsFitCount(messages, budget, m) && IsFitCount(messages, budget, n)
    ensures m == n
  {
    if m + 1 < n {
      PrefixTokensGrow(messages, m + 1, n);
    } else if n + 1 < m {
      PrefixTokensGrow(messages, n + 1, m);
    }
  }

  /**
   The overrun: nothing is added beyond the budget unless the last item was cut, and then at
   most four tokens, the cost of the mark.
   */
  lemma InjectionOverrun(messages: seq<HistoryMessage>, budget: u32, n: nat)
    requires IsFitCount(messages, budget, n)
    ensures var items := Injection(messages, budget, n);
      var total := SumTokens(items);
      && total <= budget + 4
      && (total > budget ==> |items| == n + 1)
      && (|items| == n + 1 ==>
           total == PrefixTokens(messages, n) + Min(budget - PrefixTokens(messages, n) + 4, U32_MAX))
      && (|items| == n ==> total <= budget && (n == |messages| || total == budget))
  {
    var items := Injection(messages, budget, n);
    VerbatimTokens(messages, n);
    if |items| == n + 1 {
      assert items[..n] == Verbatim(messages, n);
      var left := budget - PrefixTokens(messages, n);
      CutIsShorter(messages[n], left);
      assert |items[n].content| == left * 4 + 15;
    } else {
      assert items == Verbatim(messages, n);
    }
  }

  /** The items show role and content of the messages in their order, the cut one as much as there is room for. */
  lemma InjectionShowsMessages(messages: seq<HistoryMessage>, budget: nat, n: nat)
    requires IsFitCount(messages, budget, n)
    ensures var items := Injection(messages, budget, n);
      && n <= |items| <= n + 1
      && (forall i :: 0 <= i < n ==>
        IsHistoryItem(items[i], "[" + messages[i].role + "] " + messages[i].content))
      && (|items| == n + 1 ==>
        var text := "[" + messages[n].role + "] " + messages[n].content;
        var room := 4 * (budget - PrefixTokens(messages, n));
        0 < room < |text| && IsHistoryItem(items[n], text[..room] + "... [truncated]"))
  {
    if n < |messages| && budget > PrefixTokens(messages, n) {
      CutIsShorter(messages[n], budget - PrefixTokens(messages, n));
    }
  }

  predicate IsHistoryItem(item: ContextItem, text: string) {
    item.category == History && item.content == text && item.priority == 600
  }
}
