/** What a template and an argument line mean, case by case. */
module SlashCases {
  import opened SlashFiles
  import opened Text

  // ---------------------------------------------------------------------------
  // Templates
  // ---------------------------------------------------------------------------

  lemma FirstToken(t: string, args: seq<string>, token: Token, width: nat)
    requires |t| > 1 && t[0] == '$' && DollarToken(t) == (token, width)
    ensures Expansion(t, args) == Rendered(token, args) + Expansion(t[width..], args)
  {
    hide Rendered, DollarToken;
    ConsToken(token, Tokens(t[width..]), args);
  }

  /** An empty template gives nothing, and any character but `$` itself. */
  lemma PlainTextIsCopied(c: char, rest: string, args: seq<string>)
    ensures Expansion("", args) == ""
    ensures c != '$' ==> Expansion([c] + rest, args) == [c] + Expansion(rest, args)
  {
    if c != '$' {
      LitFirst([c] + rest, args);
      assert ([c] + rest)[1..] == rest;
    }
  }

  /** `$$` gives one `$`, and `$@` the arguments with spaces between them. */
  lemma PairsExpand(rest: string, args: seq<string>)
    ensures Expansion("$$" + rest, args) == "$" + Expansion(rest, args)
    ensures Expansion("$@" + rest, args) == Join(args, " ") + Expansion(rest, args)
  {
    var dollars, at := "$$" + rest, "$@" + rest;
    assert dollars[1] == '$' && dollars[2..] == rest && at[1] == '@' && at[2..] == rest;
    hide Expansion, Join;
    FirstToken(dollars, args, Dollar, 2);
    FirstToken(at, args, AllArgs, 2);
  }

  /** `$ARGUMENTS` gives the same as `$@`. */
  lemma NameExpands(rest: string, args: seq<string>)
    ensures Expansion("$ARGUMENTS" + rest, args) == Join(args, " ") + Expansion(rest, args)
  {
    var t := "$ARGUMENTS" + rest;
    assert t[1..] == "ARGUMENTS" + rest && t[10..] == rest && t[1] == 'A';
    hide Expansion, Join;
    FirstToken(t, args, AllArgs, 10);
  }

  /** `$1` to `$9` give the arguments of those numbers, or nothing. */
  lemma NumbersExpand(digit: char, rest: string, args: seq<string>)
    requires '1' <= digit <= '9'
    ensures var n := digit as nat - '0' as nat;
      Expansion(['$', digit] + rest, args) == (if n <= |args| then args[n - 1] else "") + Expansion(rest, args)
  {
    var t := ['$', digit] + rest;
    assert t[1] == digit && t[2..] == rest && t[1..][0] == digit;
    hide Expansion;
    FirstToken(t, args, Arg(ArgIndex(digit)), 2);
  }

  /** Before anything else a `$` stands for itself. */
  lemma OtherDollarIsCopied(c: char, rest: string, args: seq<string>)
    requires c != '$' && c != '@' && !('0' <= c <= '9') && !("ARGUMENTS" <= [c] + rest)
    ensures Expansion("$" + [c] + rest, args) == "$" + Expansion([c] + rest, args)
  {
    var t := "$" + [c] + rest;
    assert t[1] == c && t[1..] == [c] + rest;
    hide Expansion;
    FirstToken(t, args, Dollar, 1);
  }

  // ---------------------------------------------------------------------------
  // Argument lines
  // ---------------------------------------------------------------------------

  predicate IsBlankChar(c: char) {
    c == ' ' || c == '\t' || c == '\n' || c == '\r' || c == 12 as char
  }

  /** Nothing comes of an empty line, or of blanks. */
  lemma BlanksAreSkipped(c: char, rest: string)
    ensures Arguments("") == []
    ensures IsBlankChar(c) ==> Arguments([c] + rest) == Arguments(rest)
  {
    assert ([c] + rest)[1..] == rest;
  }

  lemma {:induction false} QuoteStops(body: string, q: char, rest: string)
    requires q !in body
    ensures UpToQuote(body, q) == |body| && UpToQuote(body + [q] + rest, q) == |body|
  {
    var s := body + [q] + rest;
    if body == "" {
    } else {
      assert s[1..] == body[1..] + [q] + rest;
      QuoteStops(body[1..], q, rest);
    }
  }

  /** What stands between two quotes of either kind is one argument, whatever else it holds. */
  lemma QuotesHoldOneArgument(q: char, body: string, rest: string)
    requires (q == '"' || q == '\'') && q !in body
    ensures Arguments([q] + body + [q] + rest) == [body] + Arguments(rest)
  {
    var s := [q] + body + [q] + rest;
    assert s[1..] == body + [q] + rest && s[1..1 + |body|] == body && s[|body| + 2..] == rest;
    QuoteStops(body, q, rest);
    hide Arguments, UpToQuote;
    QuotedUnfolds(s);
  }

  /** Without a closing quote the argument goes on to the end. */
  lemma OpenQuoteHoldsTheRest(q: char, body: string)
    requires (q == '"' || q == '\'') && q !in body
    ensures Arguments([q] + body) == [body]
  {
    var s := [q] + body;
    assert s[1..] == body && s[1..1 + |body|] == body;
    QuoteStops(body, q, "");
    hide Arguments, UpToQuote;
    QuotedUnfolds(s);
    assert [body] + [] == [body];
  }

  lemma {:induction false} BlankStops(word: string, rest: string)
    requires forall c :: c in word ==> !IsBlankChar(c)
    requires rest == "" || IsBlankChar(rest[0])
    ensures UpToBlank(word + rest) == |word|
  {
    var s := word + rest;
    if word == "" {
      assert s == rest;
    } else {
      assert s[1..] == word[1..] + rest && s[0] in word;
      BlankStops(word[1..], rest);
    }
  }

  /** A word that does not begin with a quote is one argument, quotes inside it included. */
  lemma WordsAreArguments(word: string, rest: string)
    requires word != "" && word[0] != '"' && word[0] != '\''
    requires forall c :: c in word ==> !IsBlankChar(c)
    requires rest == "" || IsBlankChar(rest[0])
    ensures Arguments(word + rest) == [word] + Arguments(rest)
  {
    var s := word + rest;
    BlankStops(word, rest);
    assert s[..|word|] == word && s[|word|..] == rest && s[0] in word;
    hide Arguments, UpToBlank;
    WordUnfolds(s);
  }
}
