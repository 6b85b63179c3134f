/** Slash-command templates and arguments (`y-cli/src/slash_files.rs`), over single-byte characters. */
module SlashFiles {
  import opened Text

  // ---------------------------------------------------------------------------
  // Templates as tokens
  // ---------------------------------------------------------------------------

  /** `Stuck` is a `$` that is the last character of the template. */
  datatype Token = Lit(c: char) | Dollar | AllArgs | Arg(index: nat) | Stuck

  const ARGUMENTS := "ARGUMENTS"

  predicate IsDigit(c: char) {
    '0' <= c <= '9'
  }

  /** `(next - b'1') as usize`: for `0` the byte wraps to 255, as in a release build. */
  function ArgIndex(digit: char): nat
    requires IsDigit(digit)
  {
    if digit == '0' then 255 else (digit - '1') as nat
  }

  /** The token that a `$` with something after it begins, and its width. */
  function DollarToken(t: string): (r: (Token, nat))
    requires |t| > 1 && t[0] == '$'
    ensures 0 < r.1 <= |t| && r.0 != Stuck
  {
    if t[1] == '$' then (Dollar, 2)
    else if t[1] == '@' then (AllArgs, 2)
    else if ARGUMENTS <= t[1..] then (AllArgs, 1 + |ARGUMENTS|)
    else if IsDigit(t[1]) then (Arg(ArgIndex(t[1])), 2)
    else (Dollar, 1)
  }

  /** The template read from left to right. */
  function Tokens(t: string): seq<Token> {
    if t == "" then []
    else if t[0] != '$' then [Lit(t[0])] + Tokens(t[1..])
    else if |t| == 1 then [Stuck]
    else
      var first := DollarToken(t);
      [first.0] + Tokens(t[first.1..])
  }

  function Rendered(token: Token, args: seq<string>): string {
    match token
    case Lit(c) => [c]
    case Dollar => "$"
    case AllArgs => Join(args, " ")
    case Arg(index) => if index < |args| then args[index] else ""
    case Stuck => ""
  }

  function RenderAll(tokens: seq<Token>, args: seq<string>): string {
    if tokens == [] then "" else Rendered(tokens[0], args) + RenderAll(tokens[1..], args)
  }

  function Expansion(t: string, args: seq<string>): string {
    RenderAll(Tokens(t), args)
  }

  // ---------------------------------------------------------------------------
  // The loop, one iteration at a time
  // ---------------------------------------------------------------------------

  datatype Loop = Running(i: nat, out: string) | Done(out: string)

  /** The position of the first `$` at or after `i`, or the end. */
  function NextDollar(t: string, i: nat): (j: nat)
    requires i <= |t|
    ensures i <= j <= |t| && (forall k :: i <= k < j ==> t[k] != '$') && (j < |t| ==> t[j] == '$')
    decreases |t| - i
  {
    if i == |t| || t[i] == '$' then i else NextDollar(t, i + 1)
  }

  /** What one iteration makes of position `i` and output `out`. */
  function Iterate(t: string, args: seq<string>, i: nat, out: string): (s: Loop)
    requires i <= |t|
    ensures s.Running? ==> s.i <= |t|
  {
    if i == |t| then Done(out)
    else if t[i] == '$' && i + 1 < |t| then
      if t[i + 1] == '$' then Running(i + 2, out + "$")
      else if t[i + 1] == '@' then Running(i + 2, out + Join(args, " "))
      else if ARGUMENTS <= t[i + 1..] then Running(i + 1 + |ARGUMENTS|, out + Join(args, " "))
      else if IsDigit(t[i + 1]) then Running(i + 2, out + Rendered(Arg(ArgIndex(t[i + 1])), args))
      else Running(i + 1, out + "$")
    else
      var j := NextDollar(t, i);
      if j < |t| then Running(j, out + t[i..j]) else Done(out + t[i..])
  }

  function IterateFor(t: string, args: seq<string>, n: nat): (s: Loop)
    ensures s.Running? ==> s.i <= |t|
  {
    if n == 0 then Running(0, "")
    else
      var s := IterateFor(t, args, n - 1);
      if s.Done? then s else Iterate(t, args, s.i, s.out)
  }

  ghost predicate Halts(t: string, args: seq<string>) {
    exists n :: IterateFor(t, args, n).Done?
  }

  lemma {:induction false} RenderLits(t: string, j: nat, args: seq<string>)
    requires j <= |t| && forall k :: 0 <= k < j ==> t[k] != '$'
    ensures Expansion(t, args) == t[..j] + Expansion(t[j..], args)
    ensures Stuck in Tokens(t) <==> Stuck in Tokens(t[j..])
  {
    hide *;
    if j == 0 {
      assert t[0..] == t && t[..0] + Expansion(t, args) == Expansion(t, args);
    } else {
      RenderLits(t[1..], j - 1, args);
      var rest := t[1..];
      assert rest[j - 1..] == t[j..] && t[..j] == [t[0]] + rest[..j - 1];
      LitFirst(t, args);
      assert [t[0]] + (rest[..j - 1] + Expansion(t[j..], args)) == t[..j] + Expansion(t[j..], args);
    }
  }

  lemma LitFirst(t: string, args: seq<string>)
    requires t != "" && t[0] != '$'
    ensures Expansion(t, args) == [t[0]] + Expansion(t[1..], args)
    ensures Stuck in Tokens(t) <==> Stuck in Tokens(t[1..])
  {
    ConsToken(Lit(t[0]), Tokens(t[1..]), args);
  }

  lemma ConsToken(token: Token, rest: seq<Token>, args: seq<string>)
    ensures RenderAll([token] + rest, args) == Rendered(token, args) + RenderAll(rest, args)
    ensures token != Stuck ==> (Stuck in [token] + rest <==> Stuck in rest)
  {
    assert ([token] + rest)[1..] == rest;
  }

  lemma TailOfTail(t: string, i: nat, k: nat)
    requires i + k <= |t|
    ensures t[i..][k..] == t[i + k..]
  {
  }

  /** `s` renders what is left from `i` on, and is stuck if that is. */
  ghost predicate Continues(t: string, args: seq<string>, i: nat, out: string, s: Loop)
    requires i <= |t|
  {
    match s
    case Running(j, longer) =>
      && i < j <= |t|
      && out + Expansion(t[i..], args) == longer + Expansion(t[j..], args)
      && (Stuck in Tokens(t[i..]) <==> Stuck in Tokens(t[j..]))
    case Done(result) => Stuck !in Tokens(t[i..]) && result == out + Expansion(t[i..], args)
  }

  lemma DollarUnfolds(t: string)
    requires |t| > 1 && t[0] == '$'
    ensures Tokens(t) == [DollarToken(t).0] + Tokens(t[DollarToken(t).1..])
  {
  }

  lemma IterateDollar(t: string, args: seq<string>, i: nat, out: string)
    requires i + 1 < |t| && t[i] == '$'
    ensures t[i..][0] == '$'
    ensures var first := DollarToken(t[i..]);
      Iterate(t, args, i, out) == Running(i + first.1, out + Rendered(first.0, args))
  {
    hide Tokens, Join;
    var rest := t[i..];
    assert rest[0] == t[i] && rest[1] == t[i + 1] && rest[1..] == t[i + 1..];
  }

  lemma DollarStep(t: string, args: seq<string>, i: nat, out: string)
    requires i + 1 < |t| && t[i] == '$'
    ensures Continues(t, args, i, out, Iterate(t, args, i, out))
  {
    hide *;
    var rest := t[i..];
    IterateDollar(t, args, i, out);
    DollarUnfolds(rest);
    var first := DollarToken(rest);
    var j, piece := i + first.1, Rendered(first.0, args);
    TailOfTail(t, i, first.1);
    ConsToken(first.0, Tokens(t[j..]), args);
    ExpansionIs(rest, args);
    ExpansionIs(t[j..], args);
    assert out + (piece + Expansion(t[j..], args)) == (out + piece) + Expansion(t[j..], args);
    ContinuesRunning(t, args, i, out, j, out + piece);
  }

  lemma ExpansionIs(t: string, args: seq<string>)
    ensures Expansion(t, args) == RenderAll(Tokens(t), args)
  {
  }

  lemma ContinuesRunning(t: string, args: seq<string>, i: nat, out: string, j: nat, longer: string)
    requires i < j <= |t|
    requires out + Expansion(t[i..], args) == longer + Expansion(t[j..], args)
    requires Stuck in Tokens(t[i..]) <==> Stuck in Tokens(t[j..])
    ensures Continues(t, args, i, out, Running(j, longer))
  {
  }

  lemma IterateCopy(t: string, args: seq<string>, i: nat, out: string)
    requires i < |t| && t[i] != '$'
    ensures var j := NextDollar(t, i);
      && i < j
      && Iterate(t, args, i, out) == if j < |t| then Running(j, out + t[i..j]) else Done(out + t[i..])
  {
  }

  lemma CopyStep(t: string, args: seq<string>, i: nat, out: string)
    requires i < |t| && t[i] != '$'
    ensures Continues(t, args, i, out, Iterate(t, args, i, out))
  {
    hide *;
    IterateCopy(t, args, i, out);
    var j, rest := NextDollar(t, i), t[i..];
    assert forall k :: 0 <= k < j - i ==> rest[k] == t[i + k];
    RenderLits(rest, j - i, args);
    TailOfTail(t, i, j - i);
    assert rest[..j - i] == t[i..j];
    if j == |t| {
      NothingLeft(args);
      assert t[j..] == "" && t[i..j] + "" == rest;
      ContinuesDone(t, args, i, out);
    } else {
      assert out + (t[i..j] + Expansion(t[j..], args)) == (out + t[i..j]) + Expansion(t[j..], args);
      ContinuesRunning(t, args, i, out, j, out + t[i..j]);
    }
  }

  lemma ContinuesDone(t: string, args: seq<string>, i: nat, out: string)
    requires i <= |t| && Stuck !in Tokens(t[i..]) && Expansion(t[i..], args) == t[i..]
    ensures Continues(t, args, i, out, Done(out + t[i..]))
  {
  }

  lemma NothingLeft(args: seq<string>)
    ensures Expansion("", args) == "" && Stuck !in Tokens("")
  {
  }

  /** A lone `$` at the end: the bulk copy finds it at once and makes no progress. */
  lemma StuckStep(t: string, args: seq<string>, i: nat, out: string)
    requires i + 1 == |t| && t[i] == '$'
    ensures Iterate(t, args, i, out) == Running(i, out) && Stuck in Tokens(t[i..])
  {
    assert t[i..] == "$" && t[i..i] == "" && out + "" == out;
    assert Tokens("$")[0] == Stuck;
  }

  // ---------------------------------------------------------------------------
  // When the loop halts
  // ---------------------------------------------------------------------------

  /** The number of `$` at the end of the template. */
  function TrailingDollars(t: string): (n: nat)
    ensures n <= |t|
  {
    if t == "" || t[|t| - 1] != '$' then 0 else 1 + TrailingDollars(t[..|t| - 1])
  }

  lemma {:induction false} TrailingOfTail(t: string, k: nat)
    requires k <= |t|
    ensures TrailingDollars(t) <= |t| - k ==> TrailingDollars(t[k..]) == TrailingDollars(t)
    ensures TrailingDollars(t) >= |t| - k ==> TrailingDollars(t[k..]) == |t| - k
    decreases |t|
  {
    if k < |t| && t[|t| - 1] == '$' {
      TrailingOfTail(t[..|t| - 1], k);
      assert t[..|t| - 1][k..] == t[k..][..|t| - k - 1];
    }
  }

  lemma {:induction false} TrailingAreDollars(t: string, i: nat)
    requires |t| - TrailingDollars(t) <= i < |t|
    ensures t[i] == '$'
    decreases |t|
  {
    if i < |t| - 1 {
      TrailingAreDollars(t[..|t| - 1], i);
    }
  }

  lemma {:induction false} TrailStops(t: string)
    requires TrailingDollars(t) < |t|
    ensures t[|t| - 1 - TrailingDollars(t)] != '$'
  {
    if t[|t| - 1] == '$' {
      TrailStops(t[..|t| - 1]);
    }
  }

  /** Only `$$` ends in a `$` that belongs to it. */
  lemma TokenShape(t: string)
    requires |t| > 1 && t[0] == '$'
    ensures var k := DollarToken(t).1;
      && (k == 1 ==> t[1] != '$')
      && (k > 2 ==> t[k - 1] == 'S')
  {
    if DollarToken(t).1 > 2 {
      assert t[9] == t[1..][8] == ARGUMENTS[8];
    }
  }

  /** Taking a whole token off the front does not change the parity of the trail. */
  lemma TokenKeepsTrailParity(t: string)
    requires |t| > 1 && t[0] == '$'
    ensures TrailingDollars(t[DollarToken(t).1..]) % 2 == TrailingDollars(t) % 2
  {
    hide *;
    var k, n := DollarToken(t).1, TrailingDollars(t);
    TokenShape(t);
    TrailingOfTail(t, k);
    if n < |t| {
      TrailStops(t);
    }
    if n > |t| - k {
      TrailingAreDollars(t, if k == 1 then 1 else k - 1);
    }
  }

  /** A template gets stuck exactly when it ends in an odd number of `$`. */
  lemma {:induction false} StuckIffOddTrail(t: string)
    ensures Stuck in Tokens(t) <==> TrailingDollars(t) % 2 == 1
    decreases |t|
  {
    if t == "" {
    } else if t[0] != '$' {
      if TrailingDollars(t) == |t| {
        TrailingAreDollars(t, 0);
      }
      TrailingOfTail(t, 1);
      StuckIffOddTrail(t[1..]);
      ConsToken(Lit(t[0]), Tokens(t[1..]), []);
    } else if |t| == 1 {
      assert t[..0] == "";
      assert [Stuck][0] == Stuck;
    } else {
      var first := DollarToken(t);
      assert Tokens(t) == [first.0] + Tokens(t[first.1..]);
      hide TrailingDollars, Tokens;
      TokenKeepsTrailParity(t);
      StuckIffOddTrail(t[first.1..]);
      ConsToken(first.0, Tokens(t[first.1..]), []);
    }
  }

  lemma {:induction false} StuckForEver(t: string, args: seq<string>, n: nat)
    requires Stuck in Tokens(t)
    ensures var s := IterateFor(t, args, n); s.Running? && Stuck in Tokens(t[s.i..])
  {
    if n == 0 {
      assert t[0..] == t;
    } else {
      StuckForEver(t, args, n - 1);
      hide Tokens, RenderAll, Iterate;
      var s := IterateFor(t, args, n - 1);
      if s.i == |t| {
        NothingLeft(args);
      } else if t[s.i] != '$' {
        CopyStep(t, args, s.i, s.out);
      } else if s.i + 1 < |t| {
        DollarStep(t, args, s.i, s.out);
      } else {
        StuckStep(t, args, s.i, s.out);
      }
    }
  }

  /** Reached from the start without getting stuck: output and rest together make the expansion. */
  ghost predicate OnTheWay(t: string, args: seq<string>, n: nat, s: Loop) {
    match s
    case Running(i, out) => n <= i <= |t| && Stuck !in Tokens(t[i..]) &&
      out + Expansion(t[i..], args) == Expansion(t, args)
    case Done(out) => out == Expansion(t, args)
  }

  lemma StaysOnTheWay(t: string, args: seq<string>, n: nat, i: nat, out: string)
    requires OnTheWay(t, args, n, Running(i, out))
    ensures OnTheWay(t, args, n + 1, Iterate(t, args, i, out))
  {
    hide Tokens, RenderAll, Expansion, Iterate;
    if i == |t| {
      NothingLeft(args);
      DoneAtEnd(t, args, out);
      assert t[i..] == "" && out + "" == out;
    } else if t[i] != '$' {
      CopyStep(t, args, i, out);
    } else if i + 1 < |t| {
      DollarStep(t, args, i, out);
    } else {
      StuckStep(t, args, i, out);
    }
  }

  lemma DoneAtEnd(t: string, args: seq<string>, out: string)
    ensures Iterate(t, args, |t|, out) == Done(out)
  {
  }

  lemma {:induction false} RunsToTheEnd(t: string, args: seq<string>, n: nat)
    requires Stuck !in Tokens(t)
    ensures OnTheWay(t, args, n, IterateFor(t, args, n))
  {
    hide Tokens, RenderAll, Expansion, Iterate;
    if n == 0 {
      assert t[0..] == t && "" + Expansion(t, args) == Expansion(t, args);
    } else {
      RunsToTheEnd(t, args, n - 1);
      var s := IterateFor(t, args, n - 1);
      if s.Running? {
        StaysOnTheWay(t, args, n - 1, s.i, s.out);
      }
    }
  }

  /** The expansion loop halts exactly on templates that do not end in an odd number of `$`. */
  lemma HaltsIffTrailIsEven(t: string, args: seq<string>)
    ensures Halts(t, args) <==> TrailingDollars(t) % 2 == 0
  {
    StuckIffOddTrail(t);
    if Stuck in Tokens(t) {
      forall n: nat ensures !IterateFor(t, args, n).Done? {
        StuckForEver(t, args, n);
      }
    } else {
      RunsToTheEnd(t, args, |t| + 1);
      assert IterateFor(t, args, |t| + 1).Done?;
    }
  }

  /** Where it halts, the loop leaves the left-to-right token expansion. */
  method Expand(t: string, args: seq<string>) returns (out: string)
    requires TrailingDollars(t) % 2 == 0
    ensures out == Expansion(t, args)
    ensures exists n :: IterateFor(t, args, n) == Done(out)
  {
    StuckIffOddTrail(t);
    hide Tokens, RenderAll, Expansion, TrailingDollars, IterateFor;
    out := "";
    var i := 0;
    var allArgs := Join(args, " ");
    ghost var n := 0;
    IterationsStart(t, args);
    while i < |t|
      invariant i <= |t| && IterateFor(t, args, n) == Running(i, out)
      decreases |t| - i
    {
      RunsToTheEnd(t, args, n);
      StaysOnTheWay(t, args, n, i, out);
      NextIteration(t, args, n);
      n := n + 1;
      if t[i] == '$' && i + 1 < |t| {
        var next := t[i + 1];
        if next == '$' {
          out := out + "$";
          i := i + 2;
        } else if next == '@' {
          out := out + allArgs;
          i := i + 2;
        } else if ARGUMENTS <= t[i + 1..] {
          out := out + allArgs;
          i := i + 1 + |ARGUMENTS|;
        } else if IsDigit(next) {
          var index := ArgIndex(next);
          if index < |args| {
            out := out + args[index];
          } else {
            assert out + "" == out;
          }
          i := i + 2;
        } else {
          out := out + "$";
          i := i + 1;
        }
        continue;
      }
      if t[i] == '$' {
        StuckStep(t, args, i, out);
      }
      var j := NextDollar(t, i);
      if j < |t| {
        out := out + t[i..j];
        i := j;
      } else {
        out := out + t[i..];
        RunsToTheEnd(t, args, n);
        return;
      }
    }
    NextIteration(t, args, n);
    RunsToTheEnd(t, args, n + 1);
  }

  lemma IterationsStart(t: string, args: seq<string>)
    ensures IterateFor(t, args, 0) == Running(0, "")
  {
  }

  lemma NextIteration(t: string, args: seq<string>, n: nat)
    requires IterateFor(t, args, n).Running?
    ensures var s := IterateFor(t, args, n); IterateFor(t, args, n + 1) == Iterate(t, args, s.i, s.out)
  {
  }

  // ---------------------------------------------------------------------------
  // Writing templates
  // ---------------------------------------------------------------------------

  /** Tokens that have a spelling. */
  predicate Spellable(token: Token) {
    match token
    case Lit(c) => c != '$'
    case Arg(index) => index < 9
    case Stuck => false
    case _ => true
  }

  function Spelled(token: Token): string
    requires Spellable(token)
  {
    match token
    case Lit(c) => [c]
    case Dollar => "$$"
    case AllArgs => "$@"
    case Arg(index) => ['$', "123456789"[index]]
  }

  function SpellAll(tokens: seq<Token>): string
    requires forall token :: token in tokens ==> Spellable(token)
  {
    if tokens == [] then "" else Spelled(tokens[0]) + SpellAll(tokens[1..])
  }

  /** A template spelled from tokens reads back as the same tokens. */
  lemma {:induction false} ReadingUndoesSpelling(tokens: seq<Token>)
    requires forall token :: token in tokens ==> Spellable(token)
    ensures Tokens(SpellAll(tokens)) == tokens
  {
    if tokens == [] {
    } else {
      var first, rest := Spelled(tokens[0]), SpellAll(tokens[1..]);
      var t := first + rest;
      ReadingUndoesSpelling(tokens[1..]);
      assert t[|first|..] == rest;
      if !tokens[0].Lit? {
        SpelledDollar(tokens[0], rest);
      }
    }
  }

  lemma SpelledDollar(token: Token, rest: string)
    requires Spellable(token) && !token.Lit?
    ensures |Spelled(token)| == 2 && Spelled(token)[0] == '$' && DollarToken(Spelled(token) + rest) == (token, 2)
  {
    var t := Spelled(token) + rest;
    assert t[1] == Spelled(token)[1];
    assert t[1..][0] == t[1];
  }

  function Doubled(text: string): string {
    if text == "" then "" else (if text[0] == '$' then "$$" else [text[0]]) + Doubled(text[1..])
  }

  /** Doubling every `$` quotes any text: it expands to itself, whatever the arguments. */
  lemma {:induction false} DoublingRoundTrip(text: string, args: seq<string>)
    ensures Expansion(Doubled(text), args) == text
    ensures TrailingDollars(Doubled(text)) % 2 == 0
  {
    TextTokensAreSpelled(text);
    ReadingUndoesSpelling(TextTokens(text));
    StuckIffOddTrail(Doubled(text));
    RenderText(text, args);
  }

  function TextTokens(text: string): (r: seq<Token>)
    ensures |r| == |text|
  {
    seq(|text|, i requires 0 <= i < |text| => if text[i] == '$' then Dollar else Lit(text[i]))
  }

  lemma {:induction false} TextTokensAreSpelled(text: string)
    ensures (forall token :: token in TextTokens(text) ==> Spellable(token)) &&
      Doubled(text) == SpellAll(TextTokens(text))
  {
    if text == "" {
    } else {
      TextTokensAreSpelled(text[1..]);
      assert TextTokens(text)[1..] == TextTokens(text[1..]);
    }
  }

  lemma {:induction false} RenderText(text: string, args: seq<string>)
    ensures RenderAll(TextTokens(text), args) == text
  {
    if text == "" {
    } else {
      RenderText(text[1..], args);
      assert TextTokens(text)[1..] == TextTokens(text[1..]);
      assert text == [text[0]] + text[1..];
    }
  }

  /** A digit names one of the first nine arguments unless it is zero; `$0` names the argument 256. */
  lemma ZeroNamesAFarArgument(digit: char, args: seq<string>)
    requires IsDigit(digit)
    ensures ArgIndex(digit) < 9 <==> digit != '0'
    ensures Expansion("$0", args) == if |args| > 255 then args[255] else ""
    ensures TrailingDollars("$0") == 0
  {
    assert "$0"[1..] == "0" && "$0"[2..] == "";
    assert !(ARGUMENTS <= "0");
    assert DollarToken("$0") == (Arg(255), 2);
    assert Tokens("$0") == [Arg(255)] + Tokens("");
    ConsToken(Arg(255), [], args);
    assert RenderAll([], args) == "";
  }

  // ---------------------------------------------------------------------------
  // Arguments
  // ---------------------------------------------------------------------------

  predicate IsQuote(c: char) {
    c == '"' || c == '\''
  }

  /** How far `s` goes on before the quote `q`. */
  function UpToQuote(s: string, q: char): (n: nat)
    ensures n <= |s|
  {
    if s == "" || s[0] == q then 0 else 1 + UpToQuote(s[1..], q)
  }

  function UpToBlank(s: string): (n: nat)
    ensures n <= |s|
  {
    if s == "" || IsAsciiWhitespace(s[0]) then 0 else 1 + UpToBlank(s[1..])
  }

  /** Words and quoted strings, left to right. */
  function Arguments(s: string): seq<string>
    decreases |s|
  {
    if s == "" then []
    else if IsAsciiWhitespace(s[0]) then Arguments(s[1..])
    else if IsQuote(s[0]) then
      var n := UpToQuote(s[1..], s[0]);
      [s[1..1 + n]] + (if 1 + n < |s| then Arguments(s[n + 2..]) else [])
    else
      var n := UpToBlank(s);
      [s[..n]] + Arguments(s[n..])
  }

  method SkipBlanks(input: string, start: nat) returns (i: nat)
    requires start <= |input|
    ensures start <= i <= |input| && Arguments(input[i..]) == Arguments(input[start..])
    ensures i < |input| ==> !IsAsciiWhitespace(input[i])
  {
    i := start;
    while i < |input| && IsAsciiWhitespace(input[i])
      invariant start <= i <= |input| && Arguments(input[i..]) == Arguments(input[start..])
    {
      assert input[i..][1..] == input[i + 1..];
      i := i + 1;
    }
  }

  /** Scans to the closing quote, or to the end if there is none. */
  method ScanQuoted(input: string, start: nat, quote: char) returns (i: nat)
    requires start <= |input|
    ensures i == start + UpToQuote(input[start..], quote) <= |input|
  {
    i := start;
    while i < |input| && input[i] != quote
      invariant start <= i <= |input|
      invariant i + UpToQuote(input[i..], quote) == start + UpToQuote(input[start..], quote)
    {
      assert input[i..][1..] == input[i + 1..];
      i := i + 1;
    }
  }

  method ScanWord(input: string, start: nat) returns (i: nat)
    requires start <= |input|
    ensures i == start + UpToBlank(input[start..]) <= |input|
  {
    i := start;
    while i < |input| && !IsAsciiWhitespace(input[i])
      invariant start <= i <= |input|
      invariant i + UpToBlank(input[i..]) == start + UpToBlank(input[start..])
    {
      assert input[i..][1..] == input[i + 1..];
      i := i + 1;
    }
  }

  /** `args` are the arguments before position `i`. */
  ghost predicate ReadSoFar(input: string, args: seq<string>, i: nat)
    requires i <= |input|
  {
    args + Arguments(input[i..]) == Arguments(input)
  }

  lemma ReadOne(input: string, args: seq<string>, i: nat, arg: string, j: nat)
    requires i <= j <= |input| && ReadSoFar(input, args, i)
    requires Arguments(input[i..]) == [arg] + Arguments(input[j..])
    ensures ReadSoFar(input, args + [arg], j)
  {
    hide Arguments;
    assert args + ([arg] + Arguments(input[j..])) == (args + [arg]) + Arguments(input[j..]);
  }

  lemma ReadNothing(input: string)
    ensures ReadSoFar(input, [], 0)
  {
    assert input[0..] == input;
  }

  lemma ReadAll(input: string, args: seq<string>)
    requires ReadSoFar(input, args, |input|)
    ensures args == Arguments(input)
  {
    assert input[|input|..] == "" && args + [] == args;
  }

  lemma SkippedBlanks(input: string, args: seq<string>, i: nat, j: nat)
    requires i <= j <= |input| && ReadSoFar(input, args, i) && Arguments(input[i..]) == Arguments(input[j..])
    ensures ReadSoFar(input, args, j)
  {
  }

  method ParseArgs(input: string) returns (args: seq<string>)
    ensures args == Arguments(input)
  {
    hide *;
    args := [];
    var i := 0;
    ReadNothing(input);
    while i < |input|
      invariant i <= |input| && ReadSoFar(input, args, i)
      decreases |input| - i
    {
      var start := SkipBlanks(input, i);
      SkippedBlanks(input, args, i, start);
      i := start;
      if i >= |input| {
        break;
      }
      ghost var before := args;
      if IsQuote(input[i]) {
        QuotedArgument(input, start);
        var argStart := i + 1;
        i := ScanQuoted(input, argStart, input[start]);
        args := args + [input[argStart..i]];
        if i < |input| {
          i := i + 1;
        }
        ReadOne(input, before, start, args[|before|], i);
      } else {
        WordArgument(input, start);
        i := ScanWord(input, start);
        args := args + [input[start..i]];
        ReadOne(input, before, start, args[|before|], i);
      }
    }
    ReadAll(input, args);
  }

  lemma NoArguments()
    ensures Arguments("") == []
  {
  }

  lemma QuoteIsNoBlank(c: char)
    requires IsQuote(c)
    ensures !IsAsciiWhitespace(c)
  {
  }

  lemma QuotedUnfolds(s: string)
    requires s != "" && IsQuote(s[0])
    ensures var n := UpToQuote(s[1..], s[0]);
      Arguments(s) == [s[1..1 + n]] + (if 1 + n < |s| then Arguments(s[n + 2..]) else [])
  {
    hide UpToQuote, UpToBlank, IsAsciiWhitespace, IsQuote;
    QuoteIsNoBlank(s[0]);
  }

  lemma WordUnfolds(s: string)
    requires s != "" && !IsQuote(s[0]) && !IsAsciiWhitespace(s[0])
    ensures var n := UpToBlank(s); n > 0 && Arguments(s) == [s[..n]] + Arguments(s[n..])
  {
  }

  lemma QuotedArgument(input: string, i: nat)
    requires i < |input| && IsQuote(input[i])
    ensures var n := i + 1 + UpToQuote(input[i + 1..], input[i]);
      && n <= |input|
      && Arguments(input[i..]) == [input[i + 1..n]] + Arguments(input[if n < |input| then n + 1 else n..])
  {
    hide *;
    var s := input[i..];
    assert s[0] == input[i] && s[1..] == input[i + 1..];
    QuotedUnfolds(s);
    NoArguments();
    var k := UpToQuote(s[1..], s[0]);
    assert s[1..1 + k] == input[i + 1..i + 1 + k];
    if 1 + k < |s| {
      assert s[k + 2..] == input[i + k + 2..];
    } else {
      assert input[i + 1 + k..] == "";
    }
  }

  lemma WordArgument(input: string, i: nat)
    requires i < |input| && !IsQuote(input[i]) && !IsAsciiWhitespace(input[i])
    ensures var n := i + UpToBlank(input[i..]);
      i < n <= |input| && Arguments(input[i..]) == [input[i..n]] + Arguments(input[n..])
  {
    hide *;
    var s := input[i..];
    WordUnfolds(s);
    var k := UpToBlank(s);
    assert s[..k] == input[i..i + k] && s[k..] == input[i + k..];
  }

  function Quoted(arg: string): string {
    "\"" + arg + "\""
  }

  /** The arguments in double quotes, separated by spaces. */
  function CommandLine(args: seq<string>): string
    decreases |args|, 1
  {
    if args == [] then "" else Quoted(args[0]) + AfterFirst(args)
  }

  function AfterFirst(args: seq<string>): string
    requires args != []
    decreases |args|, 0
  {
    if |args| == 1 then "" else " " + CommandLine(args[1..])
  }

  lemma {:induction false} UpToQuoteStops(s: string, rest: string)
    ensures UpToQuote(s + "\"" + rest, '"') == UpToQuote(s, '"')
    ensures UpToQuote(s, '"') == |s| <==> '"' !in s
  {
    if s == "" {
    } else {
      assert (s + "\"" + rest)[1..] == s[1..] + "\"" + rest;
      UpToQuoteStops(s[1..], rest);
      assert s == [s[0]] + s[1..];
    }
  }

  lemma FirstArgument(arg: string, rest: string)
    ensures var parsed := Arguments(Quoted(arg) + rest);
      && parsed != []
      && ('"' !in arg ==> parsed == [arg] + Arguments(rest))
      && ('"' in arg ==> parsed[0] != arg)
  {
    var line := Quoted(arg) + rest;
    assert line[1..] == arg + "\"" + rest;
    UpToQuoteStops(arg, rest);
    var n := UpToQuote(line[1..], '"');
    assert line[0] == '"' && IsQuote(line[0]);
    assert Arguments(line)[0] == line[1..1 + n];
    if '"' !in arg {
      assert line[1..1 + n] == arg && line[n + 2..] == rest;
    }
  }

  lemma SpaceIsSkipped(s: string)
    ensures Arguments(" " + s) == Arguments(s)
  {
    assert (" " + s)[1..] == s;
  }

  lemma AfterFirstParses(args: seq<string>)
    requires args != []
    ensures Arguments(AfterFirst(args)) == Arguments(CommandLine(args[1..]))
  {
    hide Arguments;
    if |args| > 1 {
      SpaceIsSkipped(CommandLine(args[1..]));
    }
  }

  /** Quoted arguments parse back to themselves exactly when none of them holds a double quote. */
  lemma {:induction false} ParsingUndoesQuotingIff(args: seq<string>)
    ensures Arguments(CommandLine(args)) == args <==> forall arg :: arg in args ==> '"' !in arg
  {
    if args == [] {
      NoArguments();
    } else {
      assert CommandLine(args) == Quoted(args[0]) + AfterFirst(args);
      hide *;
      AfterFirstParses(args);
      FirstArgument(args[0], AfterFirst(args));
      ParsingUndoesQuotingIff(args[1..]);
      assert args == [args[0]] + args[1..];
      if '"' !in args[0] {
        assert Arguments(CommandLine(args))[1..] == Arguments(CommandLine(args[1..]));
      }
    }
  }
}
