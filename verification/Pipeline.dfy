/** Assembled context and the ordered pipeline of providers (`y-context/src/pipeline.rs`). */
module Pipeline {
  import opened Numbers
  import opened Sorting

  datatype ContextCategory = SystemPrompt | Bootstrap | Memory | Knowledge | Skills | Tools | History | Status

  datatype ContextItem = ContextItem(category: ContextCategory, content: string, tokenEstimate: u32, priority: u32)

  function SumTokens(items: seq<ContextItem>): nat {
    if items == [] then 0 else SumTokens(items[..|items| - 1]) + items[|items| - 1].tokenEstimate
  }

  /** `total_tokens`: a `u32` sum, which wraps when it leaves the type. */
  function TotalTokens(items: seq<ContextItem>): u32 {
    Wrap32(SumTokens(items))
  }

  lemma {:induction false} SumTokensAppend(s: seq<ContextItem>, t: seq<ContextItem>)
    ensures SumTokens(s + t) == SumTokens(s) + SumTokens(t)
    ensures |t| == 1 ==> SumTokens(t) == t[0].tokenEstimate
  {
    if t == [] {
      assert s + t == s;
    } else {
      assert (s + t)[..|s + t| - 1] == s + t[..|t| - 1];
      SumTokensAppend(s, t[..|t| - 1]);
    }
  }

  class AssembledContext {
    var items: seq<ContextItem>

    constructor ()
      ensures items == []
    {
      items := [];
    }

    method Add(item: ContextItem)
      modifies this
      ensures items == old(items) + [item]
    {
      items := items + [item];
    }
  }

  datatype Provider = Provider(name: string, priority: u32)

  function ByPriority(): (Provider, Provider) -> bool {
    (a: Provider, b: Provider) => a.priority <= b.priority
  }

  /** Providers run in priority order; those of one priority in the order they were registered. */
  class ContextPipeline {
    var providers: seq<Provider>
    ghost var registered: seq<Provider>

    ghost predicate Valid()
      reads this
    {
      providers == SortBy(registered, ByPriority())
    }

    constructor ()
      ensures Valid() && registered == []
    {
      providers := [];
      registered := [];
    }

    /** Push, then sort: the whole registration history stays stably sorted. */
    method Register(provider: Provider)
      requires Valid()
      modifies this
      ensures Valid() && registered == old(registered) + [provider]
    {
      SortIsStable(registered, provider, ByPriority());
      SortOfSorted(providers, ByPriority());
      assert (providers + [provider])[..|providers|] == providers;
      providers := SortBy(providers + [provider], ByPriority());
      registered := registered + [provider];
      assert registered[..|registered| - 1] == old(registered);
    }
  }

  /** After any run of registrations the pipeline is sorted, complete and first come, first served. */
  lemma PipelineOrder(registered: seq<Provider>, p: Provider)
    ensures var providers := SortBy(registered, ByPriority());
      && (forall i, j :: 0 <= i < j < |providers| ==> providers[i].priority <= providers[j].priority)
      && multiset(providers) == multiset(registered)
      && Alike(providers, p, ByPriority()) == Alike(registered, p, ByPriority())
  {
    SortIsStable(registered, p, ByPriority());
  }
}
