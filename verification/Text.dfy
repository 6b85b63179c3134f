/** The few string operations the modelled code relies on, over single-byte characters. */
module Text {
  import opened Numbers

  function ToLower(s: string): (r: string)
    ensures |r| == |s|
  {
    seq(|s|, i requires 0 <= i < |s| => LowerChar(s[i]))
  }

  function LowerChar(c: char): char {
    if 'A' <= c <= 'Z' then c - 'A' + 'a' else c
  }

  /** White space as `trim` and `split_whitespace` see it, among single-byte characters. */
  predicate IsWhitespace(c: char) {
    IsAsciiWhitespace(c) || c == 11 as char
  }

  /** `is_ascii_whitespace`, which leaves out the vertical tab. */
  predicate IsAsciiWhitespace(c: char) {
    c == ' ' || c == '\t' || c == '\n' || c == '\r' || c == 12 as char
  }

  /** `s.trim().is_empty()` */
  predicate IsBlank(s: string) {
    forall c :: c in s ==> IsWhitespace(c)
  }

  /** The strings `parts` with `separator` between neighbours. */
  function Join(parts: seq<string>, separator: string): string {
    if |parts| == 0 then ""
    else if |parts| == 1 then parts[0]
    else parts[0] + separator + Join(parts[1..], separator)
  }

  /** `estimate_tokens`: four bytes to a token, rounded up, clamped to a `u32`. */
  function EstimateTokens(text: string): u32 {
    Min(DivCeil(|text|, 4), U32_MAX)
  }

  lemma {:induction false} JoinAppend(parts: seq<string>, last: string, separator: string)
    requires parts != []
    ensures Join(parts + [last], separator) == Join(parts, separator) + separator + last
  {
    var all := parts + [last];
    assert all[1..] == parts[1..] + [last];
    if |parts| > 1 {
      JoinAppend(parts[1..], last, separator);
      calc {
        Join(all, separator);
        parts[0] + separator + (Join(parts[1..], separator) + separator + last);
        Join(parts, separator) + separator + last;
      }
    } else {
      assert Join(all[1..], separator) == last;
    }
  }
}
