/** Length-prefixed frames: incremental reception, and the bounded writing of
    one whole reply. */
module Frame {
  import opened Wrappers
  import opened Text
  import opened Wire

  const PREFIX: nat := 4
  const MAX_FRAME: nat := 8 * 1024 * 1024
  const MAX_BODY: nat := MAX_FRAME - PREFIX

  datatype FrameError = InvalidFrame | FrameTooLarge | NoProgress

  // -------------------------------------------------- the byte stream

  /** What a byte stream has delivered: whole frames, the bytes of the next
      one, and the error that ended it. */
  datatype Stream = Stream(frames: seq<seq<Byte>>, got: seq<Byte>, failed: Option<FrameError>)

  function Body(got: seq<Byte>): nat
    requires |got| >= PREFIX
  {
    UnLE(got[..PREFIX])
  }

  /** The stream after one more byte. */
  function AddByte(s: Stream, b: Byte, maximum: nat): Stream {
    if s.failed.Some? then s
    else
      var got := s.got + [b];
      if |got| < PREFIX then s.(got := got)
      else if |got| == PREFIX && Body(got) == 0 then s.(got := got, failed := Some(InvalidFrame))
      else if |got| == PREFIX && PREFIX + Body(got) > maximum then s.(got := got, failed := Some(FrameTooLarge))
      else if |got| == PREFIX + Body(got) then s.(frames := s.frames + [got], got := [])
      else s.(got := got)
  }

  function Feed(s: Stream, bytes: seq<Byte>, maximum: nat): Stream {
    if bytes == [] then s else AddByte(Feed(s, bytes[..|bytes|-1], maximum), bytes[|bytes|-1], maximum)
  }

  /** However the bytes are cut, the stream delivers the same frames. */
  lemma {:induction false} FeedAppend(s: Stream, a: seq<Byte>, b: seq<Byte>, maximum: nat)
    ensures Feed(s, a + b, maximum) == Feed(Feed(s, a, maximum), b, maximum)
  {
    if b == [] {
      assert a + b == a;
    } else {
      FeedAppend(s, a, b[..|b|-1], maximum);
      assert (a + b)[..|a + b|-1] == a + b[..|b|-1];
    }
  }

  lemma {:induction false} FeedFailed(s: Stream, bytes: seq<Byte>, maximum: nat)
    requires s.failed.Some?
    ensures Feed(s, bytes, maximum) == s
  {
    if bytes != [] { FeedFailed(s, bytes[..|bytes|-1], maximum); }
  }

  /** Bytes that stop short of the prefix's end. */
  lemma {:induction false} FeedShort(s: Stream, part: seq<Byte>, maximum: nat)
    requires s.failed.None? && |s.got| + |part| < PREFIX
    ensures Feed(s, part, maximum) == s.(got := s.got + part)
  {
    if part == [] {
      assert s.got + part == s.got;
    } else {
      FeedShort(s, part[..|part|-1], maximum);
      assert s.got + part[..|part|-1] + [part[|part|-1]] == s.got + part;
    }
  }

  /** Bytes that complete the prefix exactly. */
  lemma FeedPrefix(s: Stream, part: seq<Byte>, maximum: nat)
    requires s.failed.None? && part != [] && |s.got| + |part| == PREFIX
    ensures var got := s.got + part;
            Feed(s, part, maximum)
            == if Body(got) == 0 then s.(got := got, failed := Some(InvalidFrame))
               else if PREFIX + Body(got) > maximum then s.(got := got, failed := Some(FrameTooLarge))
               else s.(got := got)
  {
    FeedShort(s, part[..|part|-1], maximum);
    assert s.got + part[..|part|-1] + [part[|part|-1]] == s.got + part;
  }

  /** Bytes of one frame's body, up to and including its last. */
  lemma {:induction false} FeedBody(s: Stream, part: seq<Byte>, maximum: nat)
    requires s.failed.None? && |s.got| >= PREFIX && |s.got| + |part| <= PREFIX + Body(s.got)
    requires |s.got| < PREFIX + Body(s.got)
    ensures Feed(s, part, maximum)
            == if |s.got| + |part| == PREFIX + Body(s.got) then s.(frames := s.frames + [s.got + part], got := [])
               else s.(got := s.got + part)
  {
    if part == [] {
      assert s.got + part == s.got;
    } else {
      FeedBody(s, part[..|part|-1], maximum);
      var before := s.got + part[..|part|-1];
      assert before + [part[|part|-1]] == s.got + part;
      assert (s.got + part)[..PREFIX] == s.got[..PREFIX];
    }
  }

  // -------------------------------------------------- frames as sent

  /** A body behind its length, as it is sent. */
  function Framed(body: seq<Byte>): seq<Byte> {
    LE(|body|, PREFIX) + body
  }

  function Sent(bodies: seq<seq<Byte>>): seq<Byte> {
    if bodies == [] then [] else Sent(bodies[..|bodies|-1]) + Framed(bodies[|bodies|-1])
  }

  function AllFramed(bodies: seq<seq<Byte>>): seq<seq<Byte>> {
    if bodies == [] then [] else AllFramed(bodies[..|bodies|-1]) + [Framed(bodies[|bodies|-1])]
  }

  lemma FourBytes()
    ensures Pow256(PREFIX) == 0x1_0000_0000
  {
    assert Pow256(4) == 256 * Pow256(3) && Pow256(3) == 256 * Pow256(2) && Pow256(2) == 256 * Pow256(1)
        && Pow256(1) == 256 * Pow256(0);
  }

  lemma LengthReads(body: seq<Byte>)
    requires |body| < 0x1_0000_0000
    ensures Body(Framed(body)[..PREFIX]) == |body| && Framed(body)[..PREFIX] == LE(|body|, PREFIX)
  {
    FourBytes();
    LERoundTrip(|body|, PREFIX);
    assert Framed(body)[..PREFIX] == LE(|body|, PREFIX);
    assert LE(|body|, PREFIX)[..PREFIX] == LE(|body|, PREFIX);
  }

  /** One well-formed frame is delivered whole, and leaves nothing behind. */
  lemma FrameIsDelivered(s: Stream, body: seq<Byte>, maximum: nat)
    requires s.failed.None? && s.got == [] && 0 < |body| && PREFIX + |body| <= maximum <= 0x1_0000_0000
    ensures Feed(s, Framed(body), maximum) == s.(frames := s.frames + [Framed(body)])
  {
    var prefix := LE(|body|, PREFIX);
    LengthReads(body);
    assert [] + prefix == prefix && prefix[..PREFIX] == prefix;
    FeedPrefix(s, prefix, maximum);
    FeedAppend(s, prefix, body, maximum);
    hide Feed, LE, UnLE;
    FeedBody(s.(got := prefix), body, maximum);
  }

  /** What is sent as frames is received as the same frames in order, however
      the stream is cut on the way. */
  lemma {:induction false} SentIsReceived(bodies: seq<seq<Byte>>, maximum: nat)
    requires maximum <= 0x1_0000_0000
    requires forall i :: 0 <= i < |bodies| ==> 0 < |bodies[i]| && PREFIX + |bodies[i]| <= maximum
    ensures Feed(Stream([], [], None), Sent(bodies), maximum) == Stream(AllFramed(bodies), [], None)
  {
    if bodies != [] {
      var front, last := bodies[..|bodies|-1], bodies[|bodies|-1];
      SentIsReceived(front, maximum);
      FeedAppend(Stream([], [], None), Sent(front), Framed(last), maximum);
      FrameIsDelivered(Stream(AllFramed(front), [], None), last, maximum);
    }
  }

  // ------------------------------------------------------ frame buffer

  /** Feeding `part` to a stream inside a frame leaves that frame holding
      `after`, delivered if it is then complete. */
  ghost predicate Takes(got: seq<Byte>, part: seq<Byte>, maximum: nat, after: seq<Byte>, complete: bool) {
    forall s: Stream :: s.failed.None? && s.got == got ==>
      Feed(s, part, maximum) == if complete then s.(frames := s.frames + [after], got := []) else s.(got := after)
  }

  ghost predicate Refuses(got: seq<Byte>, input: seq<Byte>, maximum: nat, e: FrameError) {
    forall s: Stream :: s.failed.None? && s.got == got ==> Feed(s, input, maximum).failed == Some(e)
  }

  lemma FeedNothing(s: Stream, maximum: nat)
    ensures Feed(s, [], maximum) == s
  {
  }

  lemma ShortTakes(got: seq<Byte>, part: seq<Byte>, maximum: nat)
    requires |got| + |part| < PREFIX
    ensures Takes(got, part, maximum, got + part, false)
  {
    hide Feed;
    forall s: Stream | s.failed.None? && s.got == got ensures Feed(s, part, maximum) == s.(got := got + part) {
      FeedShort(s, part, maximum);
    }
  }

  lemma PrefixRefuses(got: seq<Byte>, input: seq<Byte>, k: nat, maximum: nat)
    requires |got| < PREFIX && k == PREFIX - |got| <= |input|
    ensures var body := Body(got + input[..k]);
            && (body == 0 ==> Refuses(got, input, maximum, InvalidFrame))
            && (body != 0 && PREFIX + body > maximum ==> Refuses(got, input, maximum, FrameTooLarge))
  {
    hide Feed;
    var body := Body(got + input[..k]);
    if body == 0 || PREFIX + body > maximum {
      forall s: Stream | s.failed.None? && s.got == got
        ensures Feed(s, input, maximum).failed == Some(if body == 0 then InvalidFrame else FrameTooLarge)
      {
        FeedPrefix(s, input[..k], maximum);
        FeedFailed(Feed(s, input[..k], maximum), input[k..], maximum);
        FeedAppend(s, input[..k], input[k..], maximum);
        assert input == input[..k] + input[k..];
      }
    }
  }

  /** The rest of a frame whose length is already known. */
  lemma BodyTakes(got: seq<Byte>, part: seq<Byte>, maximum: nat)
    requires PREFIX <= |got| < PREFIX + Body(got) && |got| + |part| <= PREFIX + Body(got)
    ensures Takes(got, part, maximum, got + part, |got| + |part| == PREFIX + Body(got))
  {
    hide Feed;
    forall s: Stream | s.failed.None? && s.got == got
      ensures Feed(s, part, maximum)
              == if |got| + |part| == PREFIX + Body(got) then s.(frames := s.frames + [got + part], got := [])
                 else s.(got := got + part)
    {
      FeedBody(s, part, maximum);
    }
  }

  /** A fragment that brings both the end of the prefix and some body. */
  lemma BothTake(got: seq<Byte>, input: seq<Byte>, k: nat, count: nat, maximum: nat)
    requires |got| < PREFIX && k == PREFIX - |got| && k + count <= |input|
    requires var body := Body(got + input[..k]); 0 < body && PREFIX + body <= maximum && count <= body
    ensures var head := got + input[..k];
            Takes(got, input[..k + count], maximum, head + input[k..k + count], count == Body(head))
  {
    hide Feed;
    var head, part := got + input[..k], input[k..k + count];
    BodyTakes(head, part, maximum);
    forall s: Stream | s.failed.None? && s.got == got
      ensures Feed(s, input[..k + count], maximum)
              == if count == Body(head) then s.(frames := s.frames + [head + part], got := []) else s.(got := head + part)
    {
      FeedPrefix(s, input[..k], maximum);
      FeedAppend(s, input[..k], part, maximum);
      assert input[..k] + part == input[..k + count];
      assert Feed(s.(got := head), part, maximum)
          == if count == Body(head) then s.(frames := s.frames + [head + part], got := []) else s.(got := head + part);
    }
  }

  /** Storage for exactly one frame. The body is allocated only when its
      declared length is known to be acceptable. */
  class FrameBuffer {
    var prefix: seq<Byte>
    var bytes: seq<Byte>
    var used: nat
    const maximum: nat

    predicate Valid()
      reads this
    {
      && |prefix| <= PREFIX && used <= |bytes|
      && (|prefix| < PREFIX ==> bytes == [])
      && (|prefix| == PREFIX ==>
            && PREFIX < |bytes| == PREFIX + UnLE(prefix) <= maximum
            && PREFIX <= used && bytes[..PREFIX] == prefix)
    }

    /** The bytes received of this frame. */
    function Got(): seq<Byte>
      requires Valid()
      reads this
    {
      if |prefix| < PREFIX then prefix else bytes[..used]
    }

    predicate IsComplete()
      requires Valid()
      reads this
    {
      bytes != [] && used == |bytes|
    }

    constructor (maximum: nat)
      ensures Valid() && Got() == [] && !IsComplete() && this.maximum == maximum
    {
      prefix, bytes, used := [], [], 0;
      this.maximum := maximum;
    }

    /** Takes the next fragment's bytes that belong to this frame, refusing the
        declared length before any of its body is stored. Unless the frame was
        already complete, input is never left untouched. */
    method Push(input: seq<Byte>) returns (r: Result<nat, FrameError>)
      requires Valid()
      modifies this
      ensures r.Ok? ==>
                && Valid() && r.value <= |input|
                && (input != [] && !old(IsComplete()) ==> r.value > 0)
                && (!old(IsComplete()) ==> Takes(old(Got()), input[..r.value], maximum, Got(), IsComplete()))
                && (old(IsComplete()) ==> r.value == 0 && Got() == old(Got()) && IsComplete())
      ensures r.Err? ==> Refuses(old(Got()), input, maximum, r.error)
    {
      hide Feed, Takes, Refuses, UnLE;
      ghost var before := Got();
      var consumed: nat := 0;
      if |prefix| < PREFIX {
        var count := if PREFIX - |prefix| <= |input| then PREFIX - |prefix| else |input|;
        prefix := prefix + input[..count];
        consumed := count;
        if |prefix| != PREFIX {
          ShortTakes(before, input[..consumed], maximum);
          return Ok(consumed);
        }
        PrefixRefuses(before, input, consumed, maximum);
        assert prefix[..PREFIX] == prefix;
        var body := UnLE(prefix);
        if body == 0 { return Err(InvalidFrame); }
        if PREFIX + body > maximum { return Err(FrameTooLarge); }
        bytes := prefix + seq(body, _ => 0);
        used := PREFIX;
        assert bytes[..used] == prefix;
      }
      var left := |input| - consumed;
      var count := if |bytes| - used <= left then |bytes| - used else left;
      ghost var head := bytes[..used];
      assert head[..PREFIX] == bytes[..PREFIX] == prefix;
      if |before| < PREFIX {
        BothTake(before, input, consumed, count, maximum);
      } else if used < |bytes| {
        BodyTakes(head, input[consumed..consumed + count], maximum);
        assert input[consumed..consumed + count] == input[..consumed + count];
      }
      bytes := bytes[..used] + input[consumed..consumed + count] + bytes[used + count..];
      assert bytes[..used + count] == head + input[consumed..consumed + count];
      assert bytes[..PREFIX] == prefix;
      used := used + count;
      return Ok(consumed + count);
    }
  }

  /** The receiving side of one stream. */
  class Receiver {
    const maximum: nat
    var input: FrameBuffer
    var frames: seq<seq<Byte>>

    ghost predicate Valid()
      reads this, input
    {
      input.Valid() && input.maximum == maximum && !input.IsComplete()
    }

    function View(): Stream
      requires Valid()
      reads this, input
    {
      Stream(frames, input.Got(), None)
    }

    constructor (maximum: nat)
      ensures Valid() && fresh(input) && View() == Stream([], [], None) && this.maximum == maximum
    {
      this.maximum := maximum;
      input := new FrameBuffer(maximum);
      frames := [];
    }

    /** Consumes one chunk as it was read. The frames delivered are those of
        the byte stream itself, and a chunk always makes progress. */
    method Consume(bytes: seq<Byte>) returns (r: Result<(), FrameError>)
      requires Valid()
      modifies this, input
      ensures r.Ok? ==> Valid() && View() == Feed(old(View()), bytes, maximum) && (input == old(input) || fresh(input))
      ensures r.Err? ==> Feed(old(View()), bytes, maximum).failed == Some(r.error)
      ensures r != Err(NoProgress)
    {
      hide Feed;
      ghost var start := View();
      var offset: nat := 0;
      FeedNothing(start, maximum);
      assert bytes[..0] == [];
      while offset < |bytes|
        invariant offset <= |bytes| && Valid() && (input == old(input) || fresh(input))
        invariant View() == Feed(start, bytes[..offset], maximum)
      {
        ghost var before := View();
        var rest := bytes[offset..];
        assert bytes[..offset] + rest == bytes;
        FeedAppend(start, bytes[..offset], rest, maximum);
        var count := input.Push(rest);
        if count.Err? {
          FeedErrors(before, rest, maximum);
          return Err(count.error);
        }
        if count.value == 0 { return Err(NoProgress); }
        assert bytes[..offset] + rest[..count.value] == bytes[..offset + count.value];
        FeedAppend(start, bytes[..offset], rest[..count.value], maximum);
        offset := offset + count.value;
        if input.IsComplete() {
          frames := frames + [input.Got()];
          input := new FrameBuffer(maximum);
        }
      }
      assert bytes[..offset] == bytes;
      return Ok(());
    }
  }

  /** A stream never fails for lack of progress. */
  lemma {:induction false} FeedErrors(s: Stream, bytes: seq<Byte>, maximum: nat)
    requires s.failed.None?
    ensures Feed(s, bytes, maximum).failed != Some(NoProgress)
  {
    if bytes != [] { FeedErrors(s, bytes[..|bytes|-1], maximum); }
  }

  // ------------------------------------------------------- whole replies

  function Sum(chunks: seq<nat>): nat {
    if chunks == [] then 0 else Sum(chunks[..|chunks|-1]) + chunks[|chunks|-1]
  }

  lemma {:induction false} SumPrefix(chunks: seq<nat>, k: nat)
    requires k <= |chunks|
    ensures Sum(chunks[..k]) <= Sum(chunks)
    decreases |chunks|
  {
    if k < |chunks| {
      SumPrefix(chunks[..|chunks|-1], k);
      assert chunks[..|chunks|-1][..k] == chunks[..k];
    } else {
      assert chunks[..k] == chunks;
    }
  }

  /** The counting writer: adds up the serializer's writes, stopping at the
      first that passes the body ceiling. */
  method Fits(chunks: seq<nat>) returns (fits: bool)
    ensures fits <==> Sum(chunks) <= MAX_BODY
  {
    var length: nat, i := 0, 0;
    while i < |chunks|
      invariant 0 <= i <= |chunks| && length == Sum(chunks[..i]) <= MAX_BODY
    {
      assert chunks[..i + 1][..i] == chunks[..i];
      SumPrefix(chunks, i + 1);
      if chunks[i] > MAX_BODY - length { return false; }
      length := length + chunks[i];
      i := i + 1;
    }
    assert chunks[..i] == chunks;
    return true;
  }

  /** The capped writer: the frame it produces, or nothing past the ceiling.
      It accepts exactly what the counting writer said would fit. */
  method EncodedLength(chunks: seq<nat>, maximum: nat) returns (r: Option<nat>)
    requires PREFIX <= maximum
    ensures r.Some? <==> PREFIX + Sum(chunks) <= maximum
    ensures r.Some? ==> r.value == PREFIX + Sum(chunks)
    ensures maximum == MAX_FRAME ==> (r.Some? <==> Sum(chunks) <= MAX_BODY)
  {
    var length: nat, i := PREFIX, 0;
    while i < |chunks|
      invariant 0 <= i <= |chunks| && length == PREFIX + Sum(chunks[..i]) <= maximum
    {
      assert chunks[..i + 1][..i] == chunks[..i];
      SumPrefix(chunks, i + 1);
      if chunks[i] > maximum - length { return None; }
      length := length + chunks[i];
      i := i + 1;
    }
    assert chunks[..i] == chunks;
    return Some(length);
  }

  /** The serializer's writes for the first `k` items with `OutputLimit`, and
      for all of them with `Complete`. */
  datatype Reply = Reply(count: nat, cut: nat -> seq<nat>, whole: seq<nat>) {
    /** More items serialize to more bytes, and saying `complete` is no
        longer than saying `output_limit`. */
    ghost predicate Growing() {
      && (forall j: nat, k: nat :: j < k <= count ==> Sum(cut(j)) < Sum(cut(k)))
      && Sum(whole) <= Sum(cut(count))
    }
  }

  datatype Prepared = Whole | Cut(count: nat)

  /** Everything if it fits, else the longest whole-item prefix that does. */
  method PrepareComplete(reply: Reply) returns (r: Option<Prepared>)
    requires reply.Growing()
    ensures r == Some(Whole) <==> Sum(reply.whole) <= MAX_BODY
    ensures r.Some? && r.value.Cut? ==>
              && r.value.count < reply.count && Sum(reply.cut(r.value.count)) <= MAX_BODY
              && (forall k: nat :: r.value.count < k <= reply.count ==> Sum(reply.cut(k)) > MAX_BODY)
    ensures r.None? ==> forall k: nat :: k <= reply.count ==> Sum(reply.cut(k)) > MAX_BODY
  {
    var all := Fits(reply.whole);
    if all { return Some(Whole); }
    var low: nat, high: nat := 0, reply.count;
    while low < high
      invariant low <= high <= reply.count
      invariant low > 0 ==> Sum(reply.cut(low)) <= MAX_BODY
      invariant forall k: nat :: high < k <= reply.count ==> Sum(reply.cut(k)) > MAX_BODY
    {
      var middle := low + (high - low + 1) / 2;
      var fits := Fits(reply.cut(middle));
      if fits { low := middle; } else {
        assert forall k: nat :: middle < k <= reply.count ==> Sum(reply.cut(k)) > Sum(reply.cut(middle));
        high := middle - 1;
      }
    }
    var encoded := EncodedLength(reply.cut(low), MAX_FRAME);
    if encoded.None? { return None; }
    return Some(Cut(low));
  }
}
