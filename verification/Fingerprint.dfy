/** The byte stream behind a compaction-prefix fingerprint (`y-context/src/sampling.rs`). */
module Fingerprint {
  import opened Numbers
  import opened Wrappers

  type Byte = b: nat | b < 256

  type Bytes = seq<Byte>

  // ---------------------------------------------------------------------------
  // Little-endian integers
  // ---------------------------------------------------------------------------

  function Pow256(n: nat): nat {
    if n == 0 then 1 else 256 * Pow256(n - 1)
  }

  /** `to_le_bytes` on an integer of `width` bytes. */
  function ToLe(n: nat, width: nat): (r: Bytes)
    ensures |r| == width
  {
    if width == 0 then [] else [n % 256] + ToLe(n / 256, width - 1)
  }

  function FromLe(s: Bytes): nat {
    if s == [] then 0 else s[0] + 256 * FromLe(s[1..])
  }

  lemma {:induction false} LeRoundTrip(n: nat, width: nat)
    requires n < Pow256(width)
    ensures FromLe(ToLe(n, width)) == n
  {
    if width == 0 {
    } else {
      LeRoundTrip(n / 256, width - 1);
      assert ToLe(n, width)[1..] == ToLe(n / 256, width - 1);
    }
  }

  /** Byte `k` holds the digit of that weight, so that the lowest comes first. */
  lemma {:induction false} LeDigit(n: nat, width: nat, k: nat)
    requires k < width
    ensures ToLe(n, width)[k] == Shifted(n, k) % 256
  {
    if k > 0 {
      LeDigit(n / 256, width - 1, k - 1);
    }
  }

  /** A number shifted right by `k` bytes. */
  function Shifted(n: nat, k: nat): nat {
    if k == 0 then n else Shifted(n / 256, k - 1)
  }

  lemma EightBytesHoldU64()
    ensures Pow256(8) == U64_MAX + 1
  {
    assert Pow256(2) == 0x1_0000;
    assert Pow256(4) == 0x1_0000_0000;
    assert Pow256(6) == 0x1_0000_0000_0000;
  }

  lemma LeInjective(a: nat, b: nat)
    requires a <= U64_MAX && b <= U64_MAX && ToLe(a, 8) == ToLe(b, 8)
    ensures a == b
  {
    EightBytesHoldU64();
    LeRoundTrip(a, 8);
    LeRoundTrip(b, 8);
  }

  // ---------------------------------------------------------------------------
  // Length-prefixed chunks
  // ---------------------------------------------------------------------------

  function LengthPrefix(chunk: Bytes): Bytes {
    ToLe(Min(|chunk|, U64_MAX), 8)
  }

  function Stream(chunks: seq<Bytes>): Bytes {
    if chunks == [] then [] else LengthPrefix(chunks[0]) + chunks[0] + Stream(chunks[1..])
  }

  /** Chunks that a 64-bit address space can hold. */
  predicate Addressable(chunks: seq<Bytes>) {
    forall c :: c in chunks ==> |c| <= U64_MAX
  }

  /** A stream of length-prefixed chunks is uniquely decodable. */
  lemma {:induction false} StreamInjective(a: seq<Bytes>, b: seq<Bytes>)
    requires Addressable(a) && Addressable(b) && Stream(a) == Stream(b)
    ensures a == b
  {
    if a == [] || b == [] {
      assert a != [] ==> |Stream(a)| >= 8;
      assert b != [] ==> |Stream(b)| >= 8;
    } else {
      var s := Stream(a);
      var n := |a[0]|;
      assert s[..8] == LengthPrefix(a[0]) && s[..8] == LengthPrefix(b[0]);
      LeInjective(|a[0]|, |b[0]|);
      assert a[0] == s[8..8 + n] && b[0] == s[8..8 + n];
      assert Stream(a[1..]) == s[8 + n..] && Stream(b[1..]) == s[8 + n..];
      StreamInjective(a[1..], b[1..]);
    }
  }

  lemma {:induction false} StreamAppend(chunks: seq<Bytes>, chunk: Bytes)
    ensures Stream(chunks + [chunk]) == Stream(chunks) + LengthPrefix(chunk) + chunk
  {
    if chunks == [] {
      assert Stream([]) == [];
      assert (chunks + [chunk])[1..] == [];
    } else {
      assert (chunks + [chunk])[1..] == chunks[1..] + [chunk];
      StreamAppend(chunks[1..], chunk);
    }
  }

  // ---------------------------------------------------------------------------
  // The fingerprint
  // ---------------------------------------------------------------------------

  /** The serialised messages, those that fail to serialise left out. */
  function Serialised<M>(messages: seq<M>, serialise: M -> Option<Bytes>): seq<Bytes> {
    if messages == [] then []
    else
      var last := |messages| - 1;
      var bytes := serialise(messages[last]);
      Serialised(messages[..last], serialise) + (if bytes.Some? then [bytes.value] else [])
  }

  function Chunks<M>(messages: seq<M>, start: nat, end: nat, config: Option<Bytes>,
      serialise: M -> Option<Bytes>): seq<Bytes> {
    [ToLe(start, 8), ToLe(end, 8)]
    + (if config.Some? then [config.value] else [])
    + (if start <= end <= |messages| then Serialised(messages[start..end], serialise) else [])
  }

  /** A hash state: what it has been fed so far. */
  class Hasher {
    var fed: Bytes

    constructor ()
      ensures fed == []
    {
      fed := [];
    }

    method Update(bytes: Bytes)
      modifies this
      ensures fed == old(fed) + bytes
    {
      fed := fed + bytes;
    }
  }

  /** Feeds one length-prefixed chunk after the chunks `fed` so far. */
  method UpdateHash(hasher: Hasher, bytes: Bytes, ghost fed: seq<Bytes>)
    requires hasher.fed == Stream(fed)
    modifies hasher
    ensures hasher.fed == Stream(fed + [bytes])
  {
    StreamAppend(fed, bytes);
    hasher.Update(LengthPrefix(bytes));
    hasher.Update(bytes);
  }

  method CompactionPrefixFingerprint<M>(messages: seq<M>, start: nat, end: nat, config: Option<Bytes>,
      serialise: M -> Option<Bytes>, digest: Bytes -> string) returns (r: string)
    ensures r == digest(Stream(Chunks(messages, start, end, config, serialise)))
  {
    var hasher := new Hasher();
    hide ToLe;
    ghost var header := [ToLe(start, 8), ToLe(end, 8)] + (if config.Some? then [config.value] else []);
    UpdateHash(hasher, ToLe(start, 8), []);
    UpdateHash(hasher, ToLe(end, 8), [] + [ToLe(start, 8)]);
    assert [] + [ToLe(start, 8)] + [ToLe(end, 8)] == [ToLe(start, 8), ToLe(end, 8)];
    if config.Some? {
      UpdateHash(hasher, config.value, [ToLe(start, 8), ToLe(end, 8)]);
    }
    hide Stream;
    assert header + [] == header;
    if start <= end <= |messages| {
      FeedMessages(hasher, messages[start..end], serialise, header);
    }
    r := digest(hasher.fed);
  }

  method FeedMessages<M>(hasher: Hasher, prefix: seq<M>, serialise: M -> Option<Bytes>, ghost header: seq<Bytes>)
    requires hasher.fed == Stream(header)
    modifies hasher
    ensures hasher.fed == Stream(header + Serialised(prefix, serialise))
  {
    hide Stream;
    assert prefix[..0] == [] && header + [] == header;
    for i := 0 to |prefix|
      invariant hasher.fed == Stream(header + Serialised(prefix[..i], serialise))
    {
      assert prefix[..i + 1][..i] == prefix[..i];
      ghost var before := Serialised(prefix[..i], serialise);
      var bytes := serialise(prefix[i]);
      if bytes.Some? {
        UpdateHash(hasher, bytes.value, header + before);
        assert header + before + [bytes.value] == header + (before + [bytes.value]);
      } else {
        assert before + [] == before;
      }
    }
    assert prefix[..|prefix|] == prefix;
  }

  /** A message that does not serialise leaves no trace; any other adds its bytes in its place. */
  lemma {:induction false} SerialisedInTurn<M>(before: seq<M>, m: M, after: seq<M>, serialise: M -> Option<Bytes>)
    ensures serialise(m) == None ==>
      Serialised(before + [m] + after, serialise) == Serialised(before + after, serialise)
    ensures forall bytes :: serialise(m) == Some(bytes) ==>
      Serialised(before + [m] + after, serialise)
        == Serialised(before, serialise) + [bytes] + Serialised(after, serialise)
  {
    if after == [] {
      assert before + [m] + after == before + [m] && before + after == before;
      assert (before + [m])[..|before|] == before;
    } else {
      var front, last := after[..|after| - 1], after[|after| - 1];
      SerialisedInTurn(before, m, front, serialise);
      assert (before + [m] + after)[..|before| + |after|] == before + [m] + front;
      assert (before + after)[..|before| + |after| - 1] == before + front;
    }
  }

  /** Start and end come first; a range outside the messages and a missing configuration add nothing. */
  lemma HeaderComesFirst<M>(messages: seq<M>, start: nat, end: nat, config: Option<Bytes>,
      serialise: M -> Option<Bytes>)
    ensures var chunks := Chunks(messages, start, end, config, serialise);
      && |chunks| >= 2 && chunks[0] == ToLe(start, 8) && chunks[1] == ToLe(end, 8)
      && (config.Some? ==> |chunks| >= 3 && chunks[2] == config.value)
      && (start > end || end > |messages| ==> |chunks| == if config.Some? then 3 else 2)
  {
  }

  ghost predicate SerialiserIsFaithful<M(!new)>(serialise: M -> Option<Bytes>) {
    && (forall m :: serialise(m).Some? && |serialise(m).value| <= U64_MAX)
    && forall m, n :: serialise(m) == serialise(n) ==> m == n
  }

  lemma {:induction false} SerialisedInjective<M(!new)>(a: seq<M>, b: seq<M>, serialise: M -> Option<Bytes>)
    requires SerialiserIsFaithful(serialise) && Serialised(a, serialise) == Serialised(b, serialise)
    ensures a == b
  {
    if a != [] && b != [] {
      var x, y := Serialised(a, serialise), Serialised(b, serialise);
      assert x[|x| - 1] == serialise(a[|a| - 1]).value && y[|y| - 1] == serialise(b[|b| - 1]).value;
      assert serialise(a[|a| - 1]) == serialise(b[|b| - 1]);
      assert x[..|x| - 1] == Serialised(a[..|a| - 1], serialise);
      assert y[..|y| - 1] == Serialised(b[..|b| - 1], serialise);
      SerialisedInjective(a[..|a| - 1], b[..|b| - 1], serialise);
      assert a == a[..|a| - 1] + [a[|a| - 1]] && b == b[..|b| - 1] + [b[|b| - 1]];
    }
  }

  lemma {:induction false} SerialisedAddressable<M(!new)>(messages: seq<M>, serialise: M -> Option<Bytes>)
    requires SerialiserIsFaithful(serialise)
    ensures Addressable(Serialised(messages, serialise))
  {
    if messages == [] {
    } else {
      SerialisedAddressable(messages[..|messages| - 1], serialise);
    }
  }

  /**
   Equal streams come from the same range, the same configuration and the same source prefix;
   so with a digest that does not collide, a changed source never reuses a cached summary.
   */
  lemma EqualStreamsHaveEqualSources<M(!new)>(
      a: seq<M>, aStart: nat, aEnd: nat, aConfig: Bytes,
      b: seq<M>, bStart: nat, bEnd: nat, bConfig: Bytes, serialise: M -> Option<Bytes>)
    requires SerialiserIsFaithful(serialise) && |aConfig| <= U64_MAX && |bConfig| <= U64_MAX
    requires aStart <= aEnd <= |a| <= U64_MAX && bStart <= bEnd <= |b| <= U64_MAX
    requires Stream(Chunks(a, aStart, aEnd, Some(aConfig), serialise)) ==
      Stream(Chunks(b, bStart, bEnd, Some(bConfig), serialise))
    ensures aStart == bStart && aEnd == bEnd && aConfig == bConfig && a[aStart..aEnd] == b[bStart..bEnd]
  {
    var x := Chunks(a, aStart, aEnd, Some(aConfig), serialise);
    var y := Chunks(b, bStart, bEnd, Some(bConfig), serialise);
    SerialisedAddressable(a[aStart..aEnd], serialise);
    SerialisedAddressable(b[bStart..bEnd], serialise);
    StreamInjective(x, y);
    assert x[0] == y[0] && x[1] == y[1] && x[2] == y[2];
    LeInjective(aStart, bStart);
    LeInjective(aEnd, bEnd);
    assert x[3..] == Serialised(a[aStart..aEnd], serialise) && y[3..] == Serialised(b[bStart..bEnd], serialise);
    SerialisedInjective(a[aStart..aEnd], b[bStart..bEnd], serialise);
  }

  /** Messages appended past the end of the range leave the stream as it was. */
  lemma AppendingKeepsTheStream<M>(messages: seq<M>, more: seq<M>, start: nat, end: nat, config: Option<Bytes>,
      serialise: M -> Option<Bytes>)
    requires end <= |messages|
    ensures Stream(Chunks(messages + more, start, end, config, serialise)) ==
      Stream(Chunks(messages, start, end, config, serialise))
  {
    if start <= end {
      assert (messages + more)[start..end] == messages[start..end];
    }
  }
}
