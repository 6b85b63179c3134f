/** The cache key of the stable prompt (`compute_cache_key` in `y-context/src/system_prompt.rs`). */
module CacheKey {
  import opened PromptSections
  import opened Text
  import opened Wrappers

  function StartsWith(s: string, prefix: string): bool {
    prefix <= s
  }

  /** Flags that enter the key. */
  predicate IsKeyedFlag(name: string) {
    StartsWith(name, "tool_calling.") || StartsWith(name, "plan_mode.") || StartsWith(name, "loop_mode.")
    || StartsWith(name, "mcp.") || StartsWith(name, "orchestration.")
  }

  /** An order in which the flag map may yield its keyed flags. */
  ghost predicate Enumerates(order: seq<string>, flags: map<string, bool>) {
    && (forall i, j :: 0 <= i < j < |order| ==> order[i] != order[j])
    && forall name :: name in order <==> name in flags && IsKeyedFlag(name)
  }

  function BoolText(b: bool): string {
    if b then "true" else "false"
  }

  function FlagText(order: seq<string>, flags: map<string, bool>): string
    requires forall name :: name in order ==> name in flags
  {
    if order == [] then ""
    else order[0] + "=" + (BoolText(flags[order[0]]) + "," + FlagText(order[1..], flags))
  }

  function SelectionText(selected: Option<seq<string>>): string {
    if selected.Some? then "sections=" + Join(selected.value, ",") else ""
  }

  /** The key: mode, selection, whether there is a custom prompt, keyed flags, callable agents. */
  function Key(ctx: PromptContext, agents: string, order: seq<string>): string
    requires forall name :: name in order ==> name in ctx.configFlags
  {
    "mode=" + (ctx.agentMode + ";" +
    (SelectionText(ctx.selectedSections) + ";" +
    ("custom=" + (BoolText(ctx.customSystemPrompt.Some?) + ";" +
    ("flags=" + (FlagText(order, ctx.configFlags) + ";" +
    ("agents=" + agents)))))))
  }

  // ---------------------------------------------------------------------------
  // When the key can be read back
  // ---------------------------------------------------------------------------

  predicate Free(s: string, c: char) {
    c !in s
  }

  /** No part of the key holds one of the key's own separators. */
  ghost predicate IsPlain(ctx: PromptContext) {
    && Free(ctx.agentMode, ';')
    && (ctx.selectedSections.Some? ==> forall id :: id in ctx.selectedSections.value ==>
          id != "" && Free(id, ',') && Free(id, ';'))
    && forall name :: name in ctx.configFlags && IsKeyedFlag(name) ==> Free(name, '=') && Free(name, ';')
  }

  lemma {:induction false} SplitAt(a: string, x: string, b: string, y: string, c: char)
    requires Free(a, c) && Free(b, c) && a + [c] + x == b + [c] + y
    ensures a == b && x == y
  {
    var s, t := a + [c] + x, b + [c] + y;
    assert s[|a|] == c && t[|b|] == c;
    assert a == s[..|a|] && b == t[..|b|];
    assert x == s[|a| + 1..] && y == t[|b| + 1..];
  }

  lemma DropPrefix(p: string, x: string, y: string)
    requires p + x == p + y
    ensures x == y
  {
    assert x == (p + x)[|p|..] && y == (p + y)[|p|..];
  }

  lemma BoolTextInjective(a: bool, b: bool)
    requires BoolText(a) == BoolText(b)
    ensures a == b
  {
    assert "true"[0] != "false"[0];
  }

  lemma BoolTextIsFree(b: bool)
    ensures Free(BoolText(b), ';') && Free(BoolText(b), ',')
  {
  }

  lemma FreeConcat(a: string, b: string, c: char)
    ensures Free(a + b, c) <==> Free(a, c) && Free(b, c)
  {
    assert forall x :: x in a + b <==> x in a || x in b;
  }

  lemma {:induction false} FlagTextIsFree(order: seq<string>, flags: map<string, bool>)
    requires forall name :: name in order ==> name in flags && Free(name, ';')
    ensures Free(FlagText(order, flags), ';')
  {
    if order == [] {
    } else {
      var rest := FlagText(order[1..], flags);
      FlagTextIsFree(order[1..], flags);
      BoolTextIsFree(flags[order[0]]);
      FreeConcat(BoolText(flags[order[0]]), ",", ';');
      FreeConcat(BoolText(flags[order[0]]) + ",", rest, ';');
      FreeConcat(order[0], "=", ';');
      FreeConcat(order[0] + "=", BoolText(flags[order[0]]) + "," + rest, ';');
    }
  }

  lemma FlagTextEmpty(order: seq<string>, flags: map<string, bool>)
    requires forall name :: name in order ==> name in flags
    ensures FlagText(order, flags) == "" <==> order == []
  {
  }

  lemma {:induction false} FlagTextInjective(o: seq<string>, f: map<string, bool>, p: seq<string>, g: map<string, bool>)
    requires forall name :: name in o ==> name in f && Free(name, '=')
    requires forall name :: name in p ==> name in g && Free(name, '=')
    requires FlagText(o, f) == FlagText(p, g)
    ensures o == p && forall name :: name in o ==> f[name] == g[name]
  {
    FlagTextEmpty(o, f);
    FlagTextEmpty(p, g);
    if o == [] {
    } else {
      var x, y := FlagText(o[1..], f), FlagText(p[1..], g);
      SplitAt(o[0], BoolText(f[o[0]]) + "," + x, p[0], BoolText(g[p[0]]) + "," + y, '=');
      BoolTextIsFree(f[o[0]]);
      BoolTextIsFree(g[p[0]]);
      SplitAt(BoolText(f[o[0]]), x, BoolText(g[p[0]]), y, ',');
      BoolTextInjective(f[o[0]], g[p[0]]);
      FlagTextInjective(o[1..], f, p[1..], g);
      assert o == [o[0]] + o[1..] && p == [p[0]] + p[1..];
    }
  }

  lemma {:induction false} JoinIsFree(parts: seq<string>, c: char)
    requires c != ',' && forall s :: s in parts ==> Free(s, c)
    ensures Free(Join(parts, ","), c)
  {
    if |parts| > 1 {
      JoinIsFree(parts[1..], c);
      FreeConcat(parts[0], ",", c);
      FreeConcat(parts[0] + ",", Join(parts[1..], ","), c);
    }
  }

  lemma JoinEmpty(parts: seq<string>)
    requires forall s :: s in parts ==> s != ""
    ensures Join(parts, ",") == "" <==> parts == []
  {
    if |parts| == 1 {
      assert parts[0] in parts;
    }
  }

  lemma {:induction false} JoinInjective(a: seq<string>, b: seq<string>)
    requires forall s :: s in a ==> s != "" && Free(s, ',')
    requires forall s :: s in b ==> s != "" && Free(s, ',')
    requires Join(a, ",") == Join(b, ",")
    ensures a == b
  {
    JoinEmpty(a);
    JoinEmpty(b);
    if a == [] {
    } else if |a| == 1 || |b| == 1 {
      JoinHoldsComma(a);
      JoinHoldsComma(b);
      assert a == [a[0]] + a[1..] && b == [b[0]] + b[1..];
    } else {
      assert a[0] in a && b[0] in b;
      SplitAt(a[0], Join(a[1..], ","), b[0], Join(b[1..], ","), ',');
      assert a == [a[0]] + a[1..] && b == [b[0]] + b[1..];
      assert (forall s :: s in a[1..] ==> s in a) && forall s :: s in b[1..] ==> s in b;
      JoinInjective(a[1..], b[1..]);
    }
  }

  lemma JoinHoldsComma(parts: seq<string>)
    requires parts != [] && forall s :: s in parts ==> Free(s, ',')
    ensures Free(Join(parts, ","), ',') <==> |parts| == 1
  {
    if |parts| > 1 {
      var s := Join(parts, ",");
      assert s[|parts[0]|] == ',';
    }
  }

  lemma SelectionTextInjective(a: Option<seq<string>>, b: Option<seq<string>>)
    requires a.Some? ==> forall s :: s in a.value ==> s != "" && Free(s, ',')
    requires b.Some? ==> forall s :: s in b.value ==> s != "" && Free(s, ',')
    requires SelectionText(a) == SelectionText(b)
    ensures a == b
  {
    if a.Some? && b.Some? {
      DropPrefix("sections=", Join(a.value, ","), Join(b.value, ","));
      JoinInjective(a.value, b.value);
    } else {
      assert a.Some? ==> |SelectionText(a)| > 0;
      assert b.Some? ==> |SelectionText(b)| > 0;
    }
  }

  lemma SelectionTextIsFree(a: Option<seq<string>>)
    requires a.Some? ==> forall s :: s in a.value ==> Free(s, ';')
    ensures Free(SelectionText(a), ';')
  {
    if a.Some? {
      JoinIsFree(a.value, ';');
      FreeConcat("sections=", Join(a.value, ","), ';');
    }
  }

  /** The two contexts agree on every flag that enters the key. */
  ghost predicate SameKeyedFlags(f: map<string, bool>, g: map<string, bool>) {
    forall name :: IsKeyedFlag(name) ==> (name in f <==> name in g) && (name in f && name in g ==> f[name] == g[name])
  }

  ghost predicate SameKeyedInputs(a: PromptContext, b: PromptContext) {
    && a.agentMode == b.agentMode
    && a.selectedSections == b.selectedSections
    && a.customSystemPrompt.Some? == b.customSystemPrompt.Some?
    && SameKeyedFlags(a.configFlags, b.configFlags)
  }

  /** Plain contexts with equal keys agree on every keyed input, whatever order their flags came in. */
  lemma EqualKeysHaveEqualInputs(a: PromptContext, x: string, o: seq<string>, b: PromptContext, y: string,
      p: seq<string>)
    requires IsPlain(a) && IsPlain(b) && Enumerates(o, a.configFlags) && Enumerates(p, b.configFlags)
    requires Key(a, x, o) == Key(b, y, p)
    ensures SameKeyedInputs(a, b) && x == y
  {
    hide FlagText, SelectionText, BoolText;
    var a4, b4 := "agents=" + x, "agents=" + y;
    var a3, b3 := FlagText(o, a.configFlags) + ";" + a4, FlagText(p, b.configFlags) + ";" + b4;
    var ac, bc := BoolText(a.customSystemPrompt.Some?), BoolText(b.customSystemPrompt.Some?);
    var a2, b2 := ac + ";" + ("flags=" + a3), bc + ";" + ("flags=" + b3);
    var a1, b1 := SelectionText(a.selectedSections) + ";" + ("custom=" + a2),
      SelectionText(b.selectedSections) + ";" + ("custom=" + b2);
    DropPrefix("mode=", a.agentMode + ";" + a1, b.agentMode + ";" + b1);
    SplitAt(a.agentMode, a1, b.agentMode, b1, ';');
    SelectionTextIsFree(a.selectedSections);
    SelectionTextIsFree(b.selectedSections);
    SplitAt(SelectionText(a.selectedSections), "custom=" + a2, SelectionText(b.selectedSections), "custom=" + b2, ';');
    SelectionTextInjective(a.selectedSections, b.selectedSections);
    DropPrefix("custom=", a2, b2);
    BoolTextIsFree(a.customSystemPrompt.Some?);
    BoolTextIsFree(b.customSystemPrompt.Some?);
    SplitAt(ac, "flags=" + a3, bc, "flags=" + b3, ';');
    BoolTextInjective(a.customSystemPrompt.Some?, b.customSystemPrompt.Some?);
    DropPrefix("flags=", a3, b3);
    FlagTextIsFree(o, a.configFlags);
    FlagTextIsFree(p, b.configFlags);
    SplitAt(FlagText(o, a.configFlags), a4, FlagText(p, b.configFlags), b4, ';');
    FlagTextInjective(o, a.configFlags, p, b.configFlags);
    DropPrefix("agents=", x, y);
    forall name | IsKeyedFlag(name)
      ensures (name in a.configFlags <==> name in b.configFlags)
      ensures name in a.configFlags && name in b.configFlags ==> a.configFlags[name] == b.configFlags[name]
    {
      assert name in o <==> name in p;
    }
  }

  /** The families of flags that the key is made from. */
  predicate IsInFamily(name: string) {
    "tool_calling." <= name || "plan_mode." <= name || "loop_mode." <= name || "mcp." <= name
    || "orchestration." <= name
  }

  /** Equal keys tell the same of every flag of those families, and of no other. */
  lemma KeyTellsFamilies(a: PromptContext, x: string, o: seq<string>, b: PromptContext, y: string, p: seq<string>)
    requires IsPlain(a) && IsPlain(b) && Enumerates(o, a.configFlags) && Enumerates(p, b.configFlags)
    requires Key(a, x, o) == Key(b, y, p)
    ensures forall name :: IsInFamily(name) ==> a.Flag(name) == b.Flag(name)
    ensures forall name :: name in o ==> IsInFamily(name)
  {
    hide Key, IsPlain;
    EqualKeysHaveEqualInputs(a, x, o, b, y, p);
    assert forall name :: IsKeyedFlag(name) <==> IsInFamily(name);
  }

  /** Without that condition keys collide: a section id with a comma in it reads like two sections. */
  lemma CommaInSectionIdCollides(ctx: PromptContext, agents: string, order: seq<string>, s: string, t: string)
    requires forall name :: name in order ==> name in ctx.configFlags
    ensures Key(ctx.(selectedSections := Some([s + "," + t])), agents, order)
      == Key(ctx.(selectedSections := Some([s, t])), agents, order)
  {
    assert Join([s, t], ",") == s + "," + t by {
      assert [s, t][1..] == [t];
    }
    assert Join([s + "," + t], ",") == s + "," + t;
  }

  /** An empty id alone reads like no id at all. */
  lemma EmptySectionIdCollides(ctx: PromptContext, agents: string, order: seq<string>)
    requires forall name :: name in order ==> name in ctx.configFlags
    ensures Key(ctx.(selectedSections := Some([])), agents, order) ==
      Key(ctx.(selectedSections := Some([""])), agents, order)
  {
  }

  /** All of a key but its mode, up to the callable agents. */
  function Middle(ctx: PromptContext, order: seq<string>): string
    requires forall name :: name in order ==> name in ctx.configFlags
  {
    ";" + SelectionText(ctx.selectedSections) + ";custom=" + BoolText(ctx.customSystemPrompt.Some?)
      + ";flags=" + FlagText(order, ctx.configFlags) + ";agents="
  }

  lemma KeyIsMiddle(ctx: PromptContext, agents: string, order: seq<string>)
    requires forall name :: name in order ==> name in ctx.configFlags
    ensures Key(ctx, agents, order) == "mode=" + ctx.agentMode + Middle(ctx, order) + agents
  {
    hide SelectionText, FlagText, BoolText;
  }

  /** A mode with semicolons in it can hold a whole key, so that the agents take its place. */
  lemma SemicolonInModeCollides(ctx: PromptContext, agents: string, order: seq<string>)
    requires forall name :: name in order ==> name in ctx.configFlags
    ensures var middle := Middle(ctx, order);
      Key(ctx.(agentMode := ctx.agentMode + middle), agents, order) == Key(ctx, middle + agents, order)
  {
    hide Key, SelectionText, FlagText, BoolText;
    var middle := Middle(ctx, order);
    var other := ctx.(agentMode := ctx.agentMode + middle);
    KeyIsMiddle(other, agents, order);
    KeyIsMiddle(ctx, middle + agents, order);
    assert Middle(other, order) == middle;
    assert "mode=" + (ctx.agentMode + middle) + middle + agents == "mode=" + ctx.agentMode + middle + (middle + agents);
  }

  /** A flag name with `=` and a comma in it reads like two flags. */
  lemma EqualsInFlagNameCollides(f: string, g: string, flags: map<string, bool>)
    requires f != g
    ensures var one := f + "=true," + g;
      FlagText([one], flags[one := true]) == FlagText([f, g], flags[f := true][g := true])
  {
    var one := f + "=true," + g;
    LastFlag(one, flags[one := true]);
    LastFlag(g, flags[f := true][g := true]);
    assert [f, g][1..] == [g];
    hide FlagText, BoolText;
    assert f + "=" + ("true" + "," + (g + "=true,")) == one + "=true,";
    TwoFlags(f, g, flags[f := true][g := true]);
  }

  lemma LastFlag(f: string, flags: map<string, bool>)
    requires f in flags && flags[f]
    ensures FlagText([f], flags) == f + "=true,"
  {
    assert [f][1..] == [] && "=" + ("true" + "," + "") == "=true,";
    assert f + "=" + ("true" + "," + "") == f + "=true,";
  }

  lemma TwoFlags(f: string, g: string, flags: map<string, bool>)
    requires f in flags && flags[f] && g in flags
    ensures FlagText([f, g], flags) == f + "=" + ("true" + "," + FlagText([g], flags))
  {
    assert [f, g][1..] == [g];
  }
}
