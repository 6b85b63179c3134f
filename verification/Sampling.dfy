/** Compaction boundaries that keep tool-call groups whole (`y-context/src/sampling.rs`). */
module Sampling {
  import opened Numbers
  import opened Wrappers

  datatype Role = System | User | Assistant | Tool

  /** The parts of a message that the boundary looks at. `kind` is the metadata `type`, when it is a string. */
  datatype Message = Message(role: Role, toolCallId: Option<string>, toolCalls: seq<string>, kind: Option<string>)

  datatype Range = Range(start: nat, end: nat)

  // ---------------------------------------------------------------------------
  // Call groups
  // ---------------------------------------------------------------------------

  function ProtectedPrefixLen(messages: seq<Message>): (n: nat)
    ensures n <= |messages|
  {
    if messages != [] && messages[0].role == System
       && messages[0].kind !in {Some("compaction_summary"), Some("handoff")}
    then 1 else 0
  }

  predicate Calls(m: Message) {
    m.role == Assistant && m.toolCalls != []
  }

  /** Message `result` answers one of the calls that `call` makes. */
  predicate Answers(result: Message, call: Message) {
    result.role == Tool && exists id :: id in call.toolCalls && result.toolCallId == Some(id)
  }

  /** The call at `i` has a result at or after `end`. */
  predicate Crosses(messages: seq<Message>, i: nat, end: nat)
    requires i < |messages|
  {
    Calls(messages[i]) && exists r :: end <= r < |messages| && Answers(messages[r], messages[i])
  }

  /** No call before `end` has a result at or after it. */
  ghost predicate SafeEnd(messages: seq<Message>, end: nat) {
    forall i :: 0 <= i < end && i < |messages| ==> !Crosses(messages, i, end)
  }

  function Limit(messages: seq<Message>, retainWindow: nat): (n: nat)
    ensures n <= |messages|
  {
    SatSub(|messages|, retainWindow)
  }

  /** The first call before `end`, from `i` on, that crosses it; `end` itself if there is none. */
  function FirstCrossing(messages: seq<Message>, i: nat, end: nat): (r: nat)
    requires i <= end <= |messages|
    ensures i <= r <= end
    ensures forall k :: i <= k < r ==> !Crosses(messages, k, end)
    ensures r < end ==> Crosses(messages, r, end)
    decreases end - i
  {
    if i == end then end
    else if Crosses(messages, i, end) then i
    else FirstCrossing(messages, i + 1, end)
  }

  function CompactionRange(messages: seq<Message>, retainWindow: nat): Option<Range> {
    var start := ProtectedPrefixLen(messages);
    var end := FirstCrossing(messages, 0, Limit(messages, retainWindow));
    if end > start then Some(Range(start, end)) else None
  }

  /** A system message that neither a compaction nor a handoff left. */
  predicate IsPlainSystem(m: Message) {
    m.role == System && m.kind != Some("compaction_summary") && m.kind != Some("handoff")
  }

  /** The range begins after a plain system message at the start, and leaves the retain window out. */
  method SafeCompactionRange(messages: seq<Message>, retainWindow: nat) returns (r: Option<Range>)
    ensures r == CompactionRange(messages, retainWindow)
    ensures r.Some? ==> r.value.start < r.value.end && r.value.end + retainWindow <= |messages|
    ensures r.Some? && IsPlainSystem(messages[0]) ==> r.value.start == 1
    ensures r.Some? && !IsPlainSystem(messages[0]) ==> r.value.start == 0
  {
    var start := ProtectedPrefixLen(messages);
    var limit := SatSub(|messages|, retainWindow);
    var end := limit;
    if end <= start {
      return None;
    }
    for i := 0 to limit
      invariant end == limit && FirstCrossing(messages, i, limit) == FirstCrossing(messages, 0, limit)
    {
      if messages[i].role != Assistant || messages[i].toolCalls == [] {
        continue;
      }
      var crosses := exists r :: limit <= r < |messages| && Answers(messages[r], messages[i]);
      if crosses {
        end := i;
        break;
      }
    }
    r := if end > start then Some(Range(start, end)) else None;
  }

  // ---------------------------------------------------------------------------
  // What the boundary guarantees
  // ---------------------------------------------------------------------------

  /** A safe end has no call before it whose id a tool message at or after it bears. */
  lemma SafeEndIff(messages: seq<Message>, end: nat)
    ensures SafeEnd(messages, end) <==>
      forall i, r :: 0 <= i < end <= r < |messages| && messages[i].role == Assistant && messages[r].role == Tool ==>
        !IsAmong(messages[r].toolCallId, messages[i].toolCalls)
  {
    forall i, r | 0 <= i < end <= r < |messages| && messages[i].role == Assistant && messages[r].role == Tool
      ensures IsAmong(messages[r].toolCallId, messages[i].toolCalls) <==>
        Calls(messages[i]) && Answers(messages[r], messages[i])
    {
    }
    forall i, r | 0 <= i < end <= r < |messages| && Calls(messages[i]) && Answers(messages[r], messages[i])
      ensures Crosses(messages, i, end) && messages[i].role == Assistant && messages[r].role == Tool
    {
    }
  }

  predicate IsAmong(id: Option<string>, ids: seq<string>) {
    id.Some? && id.value in ids
  }

  /** No safe end lies between the returned end and the limit: the range could not be longer. */
  lemma NoSafeEndBeyond(messages: seq<Message>, retainWindow: nat, end: nat)
    requires FirstCrossing(messages, 0, Limit(messages, retainWindow)) < end <= Limit(messages, retainWindow)
    ensures !SafeEnd(messages, end)
  {
    var limit := Limit(messages, retainWindow);
    var a := FirstCrossing(messages, 0, limit);
    assert Crosses(messages, a, limit);
    var r :| limit <= r < |messages| && Answers(messages[r], messages[a]);
    assert Crosses(messages, a, end);
  }

  /** `None` means that no non-empty safe range exists within the limit. */
  lemma NoneMeansNothingIsSafe(messages: seq<Message>, retainWindow: nat, end: nat)
    requires CompactionRange(messages, retainWindow) == None
    requires ProtectedPrefixLen(messages) < end <= Limit(messages, retainWindow)
    ensures !SafeEnd(messages, end)
  {
    NoSafeEndBeyond(messages, retainWindow, end);
  }

  /** The returned range cuts no call group. */
  ghost predicate ReturnsSafeRange(messages: seq<Message>, retainWindow: nat) {
    var range := CompactionRange(messages, retainWindow);
    range.Some? ==> SafeEnd(messages, range.value.end)
  }

  /** When the returned range is safe its end is the greatest safe one. */
  lemma SafeRangeIsGreatest(messages: seq<Message>, retainWindow: nat, end: nat)
    requires CompactionRange(messages, retainWindow).Some?
    requires end <= Limit(messages, retainWindow) && SafeEnd(messages, end)
    ensures end <= CompactionRange(messages, retainWindow).value.end
  {
    var a := FirstCrossing(messages, 0, Limit(messages, retainWindow));
    if end > a {
      NoSafeEndBeyond(messages, retainWindow, end);
    }
  }

  /** `r` is the last result of the call at `i`, and comes after it. */
  ghost predicate LastResult(messages: seq<Message>, i: nat, r: nat) {
    && i < r < |messages| && Calls(messages[i]) && Answers(messages[r], messages[i])
    && forall k :: r < k < |messages| ==> !Answers(messages[k], messages[i])
  }

  /**
   Call group `b` opens inside an earlier group `a` and closes after it and after every other
   earlier group. This is a property of the message list alone.
   */
  ghost predicate Straddles(messages: seq<Message>, a: nat, b: nat) {
    && a < b < |messages|
    && exists ra, rb :: LastResult(messages, a, ra) && LastResult(messages, b, rb) && b < ra < rb
         && forall i :: 0 <= i < b ==> !Crosses(messages, i, rb)
  }

  ghost predicate GroupsStraddle(messages: seq<Message>) {
    exists a, b :: ProtectedPrefixLen(messages) < b && Straddles(messages, a, b)
  }

  lemma FindLastResult(messages: seq<Message>, i: nat, end: nat) returns (r: nat)
    requires i < end <= |messages| && Crosses(messages, i, end)
    ensures LastResult(messages, i, r) && end <= r
  {
    r :| end <= r < |messages| && Answers(messages[r], messages[i]);
    var k := r + 1;
    while k < |messages|
      invariant end <= r < k <= |messages| && Answers(messages[r], messages[i])
      invariant forall j :: r < j < k ==> !Answers(messages[j], messages[i])
    {
      if Answers(messages[k], messages[i]) {
        r := k;
      }
      k := k + 1;
    }
  }

  /** A cut through a group comes from a later group that straddles it. */
  lemma UnsafeRangeShowsStraddle(messages: seq<Message>, retainWindow: nat)
    requires !ReturnsSafeRange(messages, retainWindow)
    ensures GroupsStraddle(messages)
  {
    var limit := Limit(messages, retainWindow);
    var b := FirstCrossing(messages, 0, limit);
    var a :| 0 <= a < b && a < |messages| && Crosses(messages, a, b);
    assert b < limit;
    var ra := FindLastResult(messages, a, b);
    var rb := FindLastResult(messages, b, limit);
    assert ra != b;
    assert ra < limit by {
      assert !Crosses(messages, a, limit);
    }
    forall i | 0 <= i < b ensures !Crosses(messages, i, rb) {
      assert !Crosses(messages, i, limit);
    }
    assert Straddles(messages, a, b);
  }

  lemma StraddleShowsUnsafeRange(messages: seq<Message>, a: nat, b: nat) returns (retainWindow: nat)
    requires ProtectedPrefixLen(messages) < b && Straddles(messages, a, b)
    ensures !ReturnsSafeRange(messages, retainWindow)
  {
    var ra, rb :| LastResult(messages, a, ra) && LastResult(messages, b, rb) && b < ra < rb
      && forall i :: 0 <= i < b ==> !Crosses(messages, i, rb);
    retainWindow := |messages| - rb;
    assert Limit(messages, retainWindow) == rb;
    assert Crosses(messages, b, rb);
    assert FirstCrossing(messages, 0, rb) == b;
    assert Crosses(messages, a, b);
  }

  /**
   The boundary is safe for every retain window exactly when no call group straddles the end of
   an earlier one. Interleaved groups do break it.
   */
  lemma SafeForEveryWindowIffNoStraddle(messages: seq<Message>)
    ensures (forall w: nat :: ReturnsSafeRange(messages, w)) <==> !GroupsStraddle(messages)
  {
    if GroupsStraddle(messages) {
      var a, b :| ProtectedPrefixLen(messages) < b && Straddles(messages, a, b);
      var w := StraddleShowsUnsafeRange(messages, a, b);
    }
    forall w: nat | !GroupsStraddle(messages) ensures ReturnsSafeRange(messages, w) {
      if !ReturnsSafeRange(messages, w) {
        UnsafeRangeShowsStraddle(messages, w);
      }
    }
  }

  /** No call is made between a call and its result. */
  ghost predicate GroupsAreContiguous(messages: seq<Message>) {
    forall i, k, r :: 0 <= i < k < r < |messages| && Calls(messages[i]) && Calls(messages[k]) ==>
      !Answers(messages[r], messages[i])
  }

  /** Histories that finish one call group before the next begins are always cut safely. */
  lemma ContiguousGroupsAreSafe(messages: seq<Message>, retainWindow: nat)
    requires GroupsAreContiguous(messages)
    ensures ReturnsSafeRange(messages, retainWindow)
  {
    if !ReturnsSafeRange(messages, retainWindow) {
      UnsafeRangeShowsStraddle(messages, retainWindow);
    }
  }

  /** Two interleaved groups: retaining one message, the first group is cut in half. */
  lemma InterleavedGroupsAreCut()
    ensures var m := [
        Message(Assistant, None, ["a"], None), Message(Assistant, None, ["b"], None),
        Message(Tool, Some("a"), [], None), Message(Tool, Some("b"), [], None)];
      && CompactionRange(m, 1) == Some(Range(0, 1))
      && Crosses(m, 0, 1)
  {
    var m := [
      Message(Assistant, None, ["a"], None), Message(Assistant, None, ["b"], None),
      Message(Tool, Some("a"), [], None), Message(Tool, Some("b"), [], None)];
    assert "a" in m[0].toolCalls && Answers(m[2], m[0]);
    assert "b" in m[1].toolCalls && Answers(m[3], m[1]);
    assert "a" != "b";
    assert !Answers(m[3], m[0]);
    assert !Crosses(m, 0, 3) && Crosses(m, 1, 3);
    assert FirstCrossing(m, 1, 3) == 1;
  }
}
