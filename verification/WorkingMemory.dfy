/** Budgeted slots shared by micro-agent steps (`y-context/src/working_memory.rs`). */
module WorkingMemory {
  import opened Numbers
  import opened Wrappers

  datatype CognitiveCategory = Perception | Structure | Analysis | Execution | Validation

  datatype Slot = Slot(category: CognitiveCategory, slotLabel: string, value: string, tokenEstimate: u32,
      producerStep: Option<string>)

  datatype TokenBudget = TokenBudget(maxTotalTokens: u32, categoryLimits: map<CognitiveCategory, u32>)

  datatype WorkingMemoryError =
    | BudgetExceeded(used: u32, limit: u32)
    | CategoryBudgetExceeded(category: CognitiveCategory, used: u32, limit: u32)

  type Slots = map<string, Slot>

  const EVERY: set<CognitiveCategory> := { Perception, Structure, Analysis, Execution, Validation }

  // ---------------------------------------------------------------------------
  // Exact sums
  // ---------------------------------------------------------------------------

  function Share(slot: Slot, categories: set<CognitiveCategory>): nat {
    if slot.category in categories then slot.tokenEstimate else 0
  }

  /** The exact sum of the estimates of the slots in `categories`. */
  ghost function Tokens(slots: Slots, categories: set<CognitiveCategory>): nat {
    if slots == map[] then 0
    else
      var key :| key in slots;
      Share(slots[key], categories) + Tokens(slots - {key}, categories)
  }

  /** The sum does not depend on the order in which slots are visited. */
  lemma {:induction false} TokensWithout(slots: Slots, key: string, categories: set<CognitiveCategory>)
    requires key in slots
    ensures Tokens(slots, categories) == Share(slots[key], categories) + Tokens(slots - {key}, categories)
  {
    var first :| key in slots && first in slots && Tokens(slots, categories) ==
      Share(slots[first], categories) + Tokens(slots - {first}, categories);
    if first != key {
      TokensWithout(slots - {first}, key, categories);
      TokensWithout(slots - {key}, first, categories);
      assert slots - {first} - {key} == slots - {key} - {first};
    }
  }

  lemma {:induction false} SubsetHoldsNoMore(part: Slots, whole: Slots, few: set<CognitiveCategory>,
      many: set<CognitiveCategory>)
    requires part.Keys <= whole.Keys && few <= many
    requires forall key :: key in part ==> part[key] == whole[key]
    ensures Tokens(part, few) <= Tokens(whole, many)
  {
    if part == map[] {
    } else {
      var key :| key in part;
      TokensWithout(part, key, few);
      TokensWithout(whole, key, many);
      SubsetHoldsNoMore(part - {key}, whole - {key}, few, many);
    }
  }

  /** What a write does to a sum: the old slot of that label goes, the new one comes. */
  lemma TokensAfterWrite(slots: Slots, slot: Slot, categories: set<CognitiveCategory>)
    ensures Tokens(slots[slot.slotLabel := slot], categories) ==
      Tokens(slots, categories)
      - (if slot.slotLabel in slots then Share(slots[slot.slotLabel], categories) else 0)
      + Share(slot, categories)
  {
    var next := slots[slot.slotLabel := slot];
    TokensWithout(next, slot.slotLabel, categories);
    if slot.slotLabel in slots {
      TokensWithout(slots, slot.slotLabel, categories);
      assert next - {slot.slotLabel} == slots - {slot.slotLabel};
    } else {
      assert next - {slot.slotLabel} == slots;
    }
  }

  /** Every sum is within its limit. */
  ghost predicate WithinBudget(slots: Slots, budget: TokenBudget) {
    && Tokens(slots, EVERY) <= budget.maxTotalTokens
    && forall c :: c in budget.categoryLimits ==> Tokens(slots, {c}) <= budget.categoryLimits[c]
  }

  /** A write may only raise the sum of its own category, so that one check covers all categories. */
  lemma WriteNeedsOneCategoryCheck(slots: Slots, slot: Slot, budget: TokenBudget)
    requires WithinBudget(slots, budget)
    ensures var next := slots[slot.slotLabel := slot];
      WithinBudget(next, budget) <==>
        && Tokens(next, EVERY) <= budget.maxTotalTokens
        && (slot.category in budget.categoryLimits ==>
          Tokens(next, {slot.category}) <= budget.categoryLimits[slot.category])
  {
    var next := slots[slot.slotLabel := slot];
    forall c | c in budget.categoryLimits && c != slot.category
      ensures Tokens(next, {c}) <= budget.categoryLimits[c]
    {
      TokensAfterWrite(slots, slot, {c});
    }
  }

  /** Sums within budget never reach the end of the 64-bit range. */
  lemma SumsFit(slots: Slots, budget: TokenBudget)
    requires WithinBudget(slots, budget)
    ensures forall categories :: Tokens(slots, categories) <= U32_MAX
  {
    forall categories ensures Tokens(slots, categories) <= U32_MAX {
      AllCategories(categories);
      SubsetHoldsNoMore(slots, slots, categories, EVERY);
    }
  }

  lemma ShareOfEvery()
    ensures forall slot: Slot :: Share(slot, EVERY) == slot.tokenEstimate
  {
    forall slot: Slot ensures Share(slot, EVERY) == slot.tokenEstimate {
      InEvery(slot);
    }
  }

  lemma ShareOfOne(c: CognitiveCategory)
    ensures forall slot: Slot :: Share(slot, {c}) == if slot.category == c then slot.tokenEstimate else 0
  {
  }

  lemma AllCategories(categories: set<CognitiveCategory>)
    ensures categories <= EVERY
  {
    forall c | c in categories ensures c in EVERY {
      match c
      case Perception => case Structure => case Analysis => case Execution => case Validation =>
    }
  }

  /** The saturating sum that the write computes is the exact sum after it. */
  lemma WriteSumIsExact(slots: Slots, slot: Slot, categories: set<CognitiveCategory>, current: nat, replaced: nat)
    requires Tokens(slots, categories) <= U32_MAX && current == Min(Tokens(slots, categories), U64_MAX)
    requires replaced == if slot.slotLabel in slots then Share(slots[slot.slotLabel], categories) else 0
    requires Share(slot, categories) == slot.tokenEstimate
    ensures Min(SatSub(current, replaced) + slot.tokenEstimate, U64_MAX) ==
      Tokens(slots[slot.slotLabel := slot], categories)
  {
    TokensAfterWrite(slots, slot, categories);
    if slot.slotLabel in slots {
      TokensWithout(slots, slot.slotLabel, categories);
    }
  }

  // ---------------------------------------------------------------------------
  // The memory
  // ---------------------------------------------------------------------------

  class WorkingMemory {
    var slots: Slots
    const budget: TokenBudget

    /** What every reachable state satisfies. */
    ghost predicate Valid()
      reads this
    {
      && WithinBudget(slots, budget)
      && forall key :: key in slots ==> slots[key].slotLabel == key
    }

    constructor (budget: TokenBudget)
      ensures Valid() && slots == map[] && this.budget == budget
    {
      slots := map[];
      this.budget := budget;
    }

    /** The saturating 64-bit fold over the slots in any order. */
    method TokensU64(categories: set<CognitiveCategory>) returns (r: nat)
      ensures r == Min(Tokens(slots, categories), U64_MAX)
    {
      r := 0;
      var rest := slots;
      while rest != map[]
        invariant rest.Keys <= slots.Keys
        invariant r == Min(Tokens(slots, categories) - Tokens(rest, categories), U64_MAX)
        invariant Tokens(rest, categories) <= Tokens(slots, categories)
        decreases rest.Keys
      {
        var key :| key in rest;
        TokensWithout(rest, key, categories);
        if rest[key].category in categories {
          r := Min(r + rest[key].tokenEstimate, U64_MAX);
        }
        rest := rest - {key};
      }
    }

    /**
     A write succeeds exactly when the memory it leads to is within every limit, also when it moves
     a label to another category. A failed write changes nothing and names the limit it broke.
     */
    method WriteSlot(slot: Slot) returns (r: Result<(), WorkingMemoryError>)
      requires Valid()
      modifies this
      ensures Valid()
      ensures var next := old(slots)[slot.slotLabel := slot];
        && (r.Ok? <==> WithinBudget(next, budget))
        && slots == (if r.Ok? then next else old(slots))
      ensures var used := Tokens(old(slots)[slot.slotLabel := slot], EVERY);
        used > budget.maxTotalTokens ==> r == Err(BudgetExceeded(Min(used, U32_MAX), budget.maxTotalTokens))
      ensures var next := old(slots)[slot.slotLabel := slot];
        var used := Tokens(next, {slot.category});
        && Tokens(next, EVERY) <= budget.maxTotalTokens
        && slot.category in budget.categoryLimits
        && used > budget.categoryLimits[slot.category]
        ==> r == Err(CategoryBudgetExceeded(slot.category, Min(used, U32_MAX), budget.categoryLimits[slot.category]))
    {
      hide Tokens, WithinBudget, Share, EVERY;
      ghost var next := slots[slot.slotLabel := slot];
      WriteNeedsOneCategoryCheck(slots, slot, budget);
      SumsFit(slots, budget);
      var currentTotal := TokensU64(EVERY);
      var oldTokens := if slot.slotLabel in slots then slots[slot.slotLabel].tokenEstimate else 0;
      ShareOfEvery();
      WriteSumIsExact(slots, slot, EVERY, currentTotal, oldTokens);
      var newTotal := Min(SatSub(currentTotal, oldTokens) + slot.tokenEstimate, U64_MAX);
      if newTotal > budget.maxTotalTokens {
        return Err(BudgetExceeded(Min(newTotal, U32_MAX), budget.maxTotalTokens));
      }
      if slot.category in budget.categoryLimits {
        var limit := budget.categoryLimits[slot.category];
        var currentCat := TokensU64({slot.category});
        var oldCat := if slot.slotLabel in slots && slots[slot.slotLabel].category == slot.category
                      then slots[slot.slotLabel].tokenEstimate else 0;
        ShareOfOne(slot.category);
        WriteSumIsExact(slots, slot, {slot.category}, currentCat, oldCat);
        var newCat := Min(SatSub(currentCat, oldCat) + slot.tokenEstimate, U64_MAX);
        if newCat > limit {
          return Err(CategoryBudgetExceeded(slot.category, Min(newCat, U32_MAX), limit));
        }
      }
      slots := slots[slot.slotLabel := slot];
      r := Ok(());
    }

    method RemoveSlot(key: string) returns (r: Option<Slot>)
      requires Valid()
      modifies this
      ensures Valid()
      ensures slots == old(slots) - {key}
      ensures r == if key in old(slots) then Some(old(slots)[key]) else None
    {
      r := if key in slots then Some(slots[key]) else None;
      PartIsWithinBudget(slots - {key}, slots, budget);
      slots := slots - {key};
    }

    /** A new memory with the slots of the given categories, whose sums are those of the source. */
    method ExtractForCategories(categories: set<CognitiveCategory>) returns (r: WorkingMemory)
      requires Valid()
      ensures fresh(r) && r.Valid() && r.budget == budget
      ensures r.slots == Extract(slots, categories)
      ensures forall key :: key in r.slots <==> key in slots && slots[key].category in categories
      ensures forall key :: key in r.slots ==> r.slots[key] == slots[key]
      ensures forall c :: c in categories ==> Tokens(r.slots, {c}) == Tokens(slots, {c})
    {
      r := new WorkingMemory(budget);
      PartIsWithinBudget(Extract(slots, categories), slots, budget);
      r.slots := Extract(slots, categories);
      forall c | c in categories ensures Tokens(r.slots, {c}) == Tokens(slots, {c}) {
        ExtractKeepsCategory(slots, categories, c);
      }
    }
  }

  lemma InEvery(slot: Slot)
    ensures slot.category in EVERY
  {
    match slot.category
    case Perception => case Structure => case Analysis => case Execution => case Validation =>
  }

  function Extract(slots: Slots, categories: set<CognitiveCategory>): Slots {
    map key | key in slots && slots[key].category in categories :: slots[key]
  }

  lemma PartIsWithinBudget(part: Slots, whole: Slots, budget: TokenBudget)
    requires WithinBudget(whole, budget) && part.Keys <= whole.Keys
    requires forall key :: key in part ==> part[key] == whole[key]
    ensures WithinBudget(part, budget)
  {
    SubsetHoldsNoMore(part, whole, EVERY, EVERY);
    forall c | c in budget.categoryLimits ensures Tokens(part, {c}) <= budget.categoryLimits[c] {
      SubsetHoldsNoMore(part, whole, {c}, {c});
    }
  }

  /** Extraction neither adds to nor takes from a requested category. */
  lemma {:induction false} ExtractKeepsCategory(slots: Slots, categories: set<CognitiveCategory>, c: CognitiveCategory)
    requires c in categories
    ensures Tokens(Extract(slots, categories), {c}) == Tokens(slots, {c})
    decreases slots.Keys
  {
    if slots == map[] {
    } else {
      var key :| key in slots;
      TokensWithout(slots, key, {c});
      ExtractKeepsCategory(slots - {key}, categories, c);
      var part := Extract(slots, categories);
      if key in part {
        TokensWithout(part, key, {c});
        assert part - {key} == Extract(slots - {key}, categories);
      } else {
        assert part == Extract(slots - {key}, categories);
      }
    }
  }
}
