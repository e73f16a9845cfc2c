/** Length-prefixed messages over a byte stream: `net_push` and `net_pop` of the POSIX queue. */
module Framing {
  import opened Base
  import opened SeqNumbers
  import opened Wire

  const DMTR_HEADER_MAGIC: U32 := 0x1010_2010
  const HEADER_SIZE: nat := 12

  /** A scatter-gather array: its segments, with 32-bit lengths and a 32-bit count. */
  type Message = seq<Bytes>

  predicate Representable(m: Message) {
    |m| < 0x1_0000_0000 && forall i | 0 <= i < |m| :: |m[i]| < 0x1_0000_0000
  }

  /** Bytes of a message after its header: a length and the bytes for each segment. */
  function BodySize(m: Message): nat { if m == [] then 0 else 4 + |m[0]| + BodySize(m[1..]) }

  function Body(m: Message): (r: Bytes)
    requires Representable(m)
    ensures |r| == BodySize(m)
  {
    if m == [] then [] else Put32(|m[0]|) + m[0] + Body(m[1..])
  }

  /** The header stores the body size in 32 bits. */
  function Header(m: Message): (r: Bytes)
    requires Representable(m)
    ensures |r| == HEADER_SIZE
  {
    Put32(DMTR_HEADER_MAGIC) + Put32(BodySize(m) % 0x1_0000_0000) + Put32(|m|)
  }

  function Encode(m: Message): Bytes
    requires Representable(m)
  {
    Header(m) + Body(m)
  }

  /** How a pop ends. `BadSequence` is a wrong magic number, `Closed` the end of the stream,
      `Failed` the error for an empty body, `Overrun` a length that leads out of the buffer. */
  datatype Popped = Popped(message: Message) | BadSequence | Closed | Failed | Overrun | Pending

  /** Walks `n` segments in a buffer. */
  function Segments(b: Bytes, n: nat): (r: Popped)
    ensures r.Popped? || r.Overrun?
    ensures r.Popped? ==> |r.message| == n && BodySize(r.message) <= |b|
  {
    if n == 0 then Popped([])
    else if |b| < 4 || |b| - 4 < Get32(b, 0) then Overrun
    else
      var len := Get32(b, 0);
      var rest := Segments(b[4 + len..], n - 1);
      if rest.Overrun? then Overrun else Popped([b[4..4 + len]] + rest.message)
  }

  /** What a pop makes of a stream that is all there: the answer and the bytes it leaves. */
  function Decode(input: Bytes): (Popped, Bytes) {
    if |input| < HEADER_SIZE then (Closed, [])
    else
      var rest := input[HEADER_SIZE..];
      var size := Get32(input, 4);
      if Get32(input, 0) != DMTR_HEADER_MAGIC then (BadSequence, rest)
      else if size == 0 then (Failed, rest)
      else if |rest| < size then (Closed, [])
      else (Segments(rest[..size], Get32(input, 8)), rest[size..])
  }

  lemma BodySlices(m: Message)
    requires Representable(m) && m != []
    ensures Representable(m[1..]) && |Body(m)| == 4 + |m[0]| + BodySize(m[1..])
    ensures Body(m)[0..4] == Put32(|m[0]|) && Body(m)[4..4 + |m[0]|] == m[0] && Body(m)[4 + |m[0]|..] == Body(m[1..])
  {
    hide Put32;
  }

  lemma {:induction false} SegmentsAt(m: Message, slack: Bytes)
    requires Representable(m)
    ensures Segments(Body(m) + slack, |m|) == Popped(m)
  {
    hide Put32, Get32, Body, BodySize;
    if m != [] {
      BodySlices(m);
      var b := Body(m) + slack;
      assert b[0..4] == Body(m)[0..4] && b[4..4 + |m[0]|] == Body(m)[4..4 + |m[0]|];
      assert b[4 + |m[0]|..] == Body(m[1..]) + slack;
      Reads32(b, 0, |m[0]|);
      SegmentsAt(m[1..], slack);
      assert m == [m[0]] + m[1..];
    }
  }

  lemma HeaderReads(m: Message, rest: Bytes)
    requires Representable(m)
    ensures var b := Encode(m) + rest;
      && |b| >= HEADER_SIZE && Get32(b, 0) == DMTR_HEADER_MAGIC
      && Get32(b, 4) == BodySize(m) % 0x1_0000_0000 && Get32(b, 8) == |m|
      && b[HEADER_SIZE..] == Body(m) + rest
  {
    hide Put32, Get32, Body, BodySize;
    var b := Encode(m) + rest;
    var header := Header(m);
    assert b[0..4] == header[0..4] == Put32(DMTR_HEADER_MAGIC);
    assert b[4..8] == header[4..8] == Put32(BodySize(m) % 0x1_0000_0000);
    assert b[8..12] == header[8..12] == Put32(|m|);
    Reads32(b, 0, DMTR_HEADER_MAGIC);
    Reads32(b, 4, BodySize(m) % 0x1_0000_0000);
    Reads32(b, 8, |m|);
  }

  /** Decoding undoes encoding and stops at the end of the message, exactly for the messages
      that have a segment and whose size fits the header. */
  lemma DecodeEncode(m: Message, rest: Bytes)
    requires Representable(m)
    ensures Decode(Encode(m) + rest) == (Popped(m), rest) <==> m != [] && BodySize(m) < 0x1_0000_0000
  {
    hide Put32, Get32, Encode, Body, BodySize, Segments;
    HeaderReads(m, rest);
    SegmentsAt(m, []);
    EmptyBody(m);
    var body := Body(m) + rest;
    assert body[..BodySize(m)] == Body(m) == Body(m) + [] && body[BodySize(m)..] == rest;
  }

  lemma EmptyBody(m: Message)
    ensures BodySize(m) == 0 <==> m == []
    ensures m == [] ==> Body(m) == []
  {
  }

  lemma {:induction false} SegmentsParsed(b: Bytes, n: nat)
    requires n < 0x1_0000_0000 && Segments(b, n).Popped?
    ensures Representable(Segments(b, n).message) && Body(Segments(b, n).message) <= b
  {
    if n > 0 {
      var len := Get32(b, 0);
      var more := Segments(b[4 + len..], n - 1).message;
      SegmentsParsed(b[4 + len..], n - 1);
      assert Segments(b, n).message == [b[4..4 + len]] + more;
      hide Get32, Segments, Body, Representable;
      ConsBody(b, len, more);
    }
  }

  lemma ConsIs(seg: Bytes, more: Message)
    requires |seg| < 0x1_0000_0000 && |more| + 1 < 0x1_0000_0000 && Representable(more)
    ensures Representable([seg] + more) && Body([seg] + more) == Put32(|seg|) + seg + Body(more)
  {
    assert ([seg] + more)[1..] == more;
  }

  lemma ConsBody(b: Bytes, len: nat, more: Message)
    requires 4 + len <= |b| && Get32(b, 0) == len && |more| + 1 < 0x1_0000_0000
    requires Representable(more) && Body(more) <= b[4 + len..]
    ensures Representable([b[4..4 + len]] + more) && Body([b[4..4 + len]] + more) <= b
  {
    hide Get32, Put32, Body, Representable;
    PutGet32(b, 0);
    ConsIs(b[4..4 + len], more);
    HeadOf(b, 4 + len);
    PrefixAfter(b, 4 + len, b[..4 + len], Body(more));
  }

  lemma HeadOf(b: Bytes, n: nat)
    requires 4 <= n <= |b|
    ensures b[0..4] + b[4..n] == b[..n]
  {
  }

  lemma PrefixAfter(b: Bytes, n: nat, head: Bytes, tail: Bytes)
    requires n <= |b| && head == b[..n] && tail <= b[n..]
    ensures head + tail <= b
  {
    assert b == b[..n] + b[n..];
  }

  /** What a pop accepts, from any peer: a header with the right magic number and a size that is
      not zero and within the input, and as many segments as it says within that size; what is
      left between the last segment and that size is skipped. */
  lemma DecodeExact(input: Bytes, m: Message, rest: Bytes)
    ensures Decode(input) == (Popped(m), rest) <==>
      && |input| >= HEADER_SIZE && Representable(m)
      && Get32(input, 0) == DMTR_HEADER_MAGIC && Get32(input, 8) == |m|
      && 0 < Get32(input, 4) <= |input| - HEADER_SIZE
      && Body(m) <= input[HEADER_SIZE..][..Get32(input, 4)]
      && rest == input[HEADER_SIZE..][Get32(input, 4)..]
  {
    hide Get32, Put32, Segments, Body, Representable;
    if |input| >= HEADER_SIZE && 0 < Get32(input, 4) <= |input| - HEADER_SIZE {
      var body := input[HEADER_SIZE..][..Get32(input, 4)];
      if Segments(body, Get32(input, 8)).Popped? { SegmentsParsed(body, Get32(input, 8)); }
      if Representable(m) && Body(m) <= body {
        SegmentsAt(m, body[|Body(m)|..]);
        assert body == Body(m) + body[|Body(m)|..];
      }
    }
  }

  // ----- Streams of messages -----

  predicate Sendable(ms: seq<Message>) {
    forall i | 0 <= i < |ms| :: Representable(ms[i]) && ms[i] != [] && BodySize(ms[i]) < 0x1_0000_0000
  }

  function EncodeAll(ms: seq<Message>): Bytes
    requires Sendable(ms)
  {
    if ms == [] then [] else Encode(ms[0]) + EncodeAll(ms[1..])
  }

  // ----- Sockets -----

  /** A non-blocking socket: the bytes to come and how each read will behave. A zero in the
      schedule is a read that would block, another number caps the bytes the read returns. */
  class Socket {
    var input: Bytes
    var schedule: seq<nat>

    constructor (input: Bytes, schedule: seq<nat>)
      ensures this.input == input && this.schedule == schedule
    {
      this.input, this.schedule := input, schedule;
    }

    /** At most `want` bytes; none at the end of the stream. */
    method Read(want: nat) returns (again: bool, chunk: Bytes)
      requires schedule != [] && want > 0
      modifies this
      ensures schedule == old(schedule)[1..] && again == (old(schedule)[0] == 0)
      ensures old(input) == chunk + input && |chunk| <= want
      ensures chunk == [] <==> again || old(input) == []
    {
      var cap := schedule[0];
      schedule := schedule[1..];
      again := cap == 0;
      var n := if cap < want then cap else want;
      if |input| < n {
        n := |input|;
      }
      chunk := input[..n];
      input := input[n..];
    }

    /** The loop around `read`: yields on would-block, gives up at the end of the stream. Returns
        exactly the next `n` bytes however the reads split them. */
    method ReadExactly(n: nat) returns (got: Bytes, closed: bool, pending: bool)
      modifies this
      ensures !(closed && pending)
      ensures pending ==> schedule == []
      ensures closed ==> |old(input)| < n && input == []
      ensures !closed && !pending ==> |old(input)| >= n && got == old(input)[..n] && input == old(input)[n..]
    {
      got := [];
      while |got| < n
        invariant |got| <= n && old(input) == got + input
        decreases |schedule|
      {
        if schedule == [] {
          return got, false, true;
        }
        var again, chunk := Read(n - |got|);
        if !again {
          if chunk == [] {
            return got, true, false;
          }
          got := got + chunk;
        }
      }
      closed, pending := false, false;
    }

    /** Pop a message. However the reads split the stream and whenever they would block, a pop
        that ends has decoded the bytes at the front of the stream and left the rest. */
    method NetPop() returns (r: Popped)
      modifies this
      ensures r.Pending? ==> schedule == []
      ensures !r.Pending? ==> (r, input) == Decode(old(input))
    {
      hide Get32, Segments;
      var header, closed, pending := ReadExactly(HEADER_SIZE);
      if pending {
        return Pending;
      }
      if closed {
        return Closed;
      }
      ghost var rest := input;
      GetPrefix(old(input), HEADER_SIZE);
      if Get32(header, 0) != DMTR_HEADER_MAGIC {
        return BadSequence;
      }
      var size := Get32(header, 4);
      var body;
      body, closed, pending := ReadExactly(size);
      if pending {
        return Pending;
      }
      if closed {
        return Closed;
      }
      if size == 0 {
        return Failed;
      }
      r := WalkSegments(body, Get32(header, 8));
    }

    /** Successive pops return the messages that were pushed, in order, as far as they get. */
    method PopAll(ghost ms: seq<Message>, count: nat) returns (got: seq<Message>, pending: bool)
      requires Sendable(ms) && input == EncodeAll(ms) && count <= |ms|
      modifies this
      ensures got <= ms && |got| <= count
      ensures !pending ==> |got| == count && input == EncodeAll(ms[count..])
      ensures pending ==> schedule == []
    {
      hide Encode, Decode;
      got, pending := [], false;
      for i := 0 to count
        invariant got == ms[..i] && input == EncodeAll(ms[i..])
      {
        assert ms[i..][0] == ms[i] && ms[i..][1..] == ms[i + 1..];
        DecodeEncode(ms[i], EncodeAll(ms[i + 1..]));
        var r := NetPop();
        if r.Pending? {
          pending := true;
          return;
        }
        got := got + [r.message];
      }
    }
  }

  lemma GetPrefix(b: Bytes, n: nat)
    requires n <= |b|
    ensures forall i: nat | i + 4 <= n :: Get32(b[..n], i) == Get32(b, i)
  {
    forall i: nat | i + 4 <= n ensures Get32(b[..n], i) == Get32(b, i) {
      assert b[..n][i..i + 4] == b[i..i + 4];
    }
  }

  /** The segment loop of a pop. */
  method WalkSegments(b: Bytes, n: nat) returns (r: Popped)
    ensures r == Segments(b, n)
  {
    hide Get32, Segments;
    var rest, found: seq<Bytes> := b, [];
    NoSegments(b, n);
    for i := 0 to n
      invariant Segments(b, n) == Prefixed(found, Segments(rest, n - i))
    {
      SegmentStep(rest, n - i, found);
      if |rest| < 4 || |rest| - 4 < Get32(rest, 0) {
        return Overrun;
      }
      var len := Get32(rest, 0);
      found := found + [rest[4..4 + len]];
      rest := rest[4 + len..];
    }
    NoSegments(rest, 0);
    r := Popped(found);
  }

  lemma NoSegments(b: Bytes, n: nat)
    ensures Prefixed([], Segments(b, n)) == Segments(b, n)
    ensures n == 0 ==> Segments(b, n) == Popped([])
  {
    if n > 0 {
      var r := Segments(b, n);
      if r.Popped? { assert [] + r.message == r.message; }
    }
  }

  lemma SegmentStep(b: Bytes, n: nat, found: seq<Bytes>)
    requires n > 0
    ensures |b| < 4 || |b| - 4 < Get32(b, 0) ==> Segments(b, n) == Overrun
    ensures |b| >= 4 && |b| - 4 >= Get32(b, 0) ==>
      var len := Get32(b, 0);
      Prefixed(found, Segments(b, n)) == Prefixed(found + [b[4..4 + len]], Segments(b[4 + len..], n - 1))
  {
    hide Get32;
    if |b| >= 4 && |b| - 4 >= Get32(b, 0) {
      var len := Get32(b, 0);
      PrefixedStep(found, b[4..4 + len], Segments(b[4 + len..], n - 1));
    }
  }

  function Prefixed(found: seq<Bytes>, r: Popped): Popped {
    if r.Popped? then Popped(found + r.message) else r
  }

  lemma PrefixedStep(found: seq<Bytes>, seg: Bytes, r: Popped)
    requires r.Popped? || r.Overrun?
    ensures Prefixed(found, if r.Overrun? then Overrun else Popped([seg] + r.message)) == Prefixed(found + [seg], r)
  {
    if r.Popped? {
      assert found + ([seg] + r.message) == found + [seg] + r.message;
    }
  }

  lemma BodyStep(m: Message, i: nat)
    requires Representable(m) && i < |m|
    ensures Representable(m[i..]) && Representable(m[i + 1..])
    ensures Body(m[i..]) == Put32(|m[i]|) + m[i] + Body(m[i + 1..])
    ensures BodySize(m[i..]) == 4 + |m[i]| + BodySize(m[i + 1..])
  {
    hide Put32;
    assert m[i..][0] == m[i] && m[i..][1..] == m[i + 1..];
  }

  /** The loop of `net_push`: fill the vector with a length and the bytes of each segment, then put
      the header in front. Writing the vector whole writes the encoded message. */
  method NetPush(m: Message) returns (iov: seq<Bytes>)
    requires Representable(m)
    ensures |iov| == 2 * |m| + 1 && Flat(iov) == Encode(m)
  {
    hide Put32, Body, BodySize;
    var parts: seq<Bytes> := [];
    var messageBytes := 0;
    for i := 0 to |m|
      invariant |parts| == 2 * i && messageBytes + BodySize(m[i..]) == BodySize(m)
      invariant Flat(parts) + Body(m[i..]) == Body(m)
    {
      BodyStep(m, i);
      FlatSnoc(parts, Put32(|m[i]|));
      FlatSnoc(parts + [Put32(|m[i]|)], m[i]);
      assert Flat(parts) + (Put32(|m[i]|) + m[i] + Body(m[i + 1..])) == Flat(parts) + Put32(|m[i]|) + m[i] + Body(m[i + 1..]);
      parts := parts + [Put32(|m[i]|)] + [m[i]];
      messageBytes := messageBytes + |m[i]| + 4;
    }
    assert m[|m|..] == [];
    EmptyBody([]);
    var header := Put32(DMTR_HEADER_MAGIC) + Put32(messageBytes % 0x1_0000_0000) + Put32(|m|);
    iov := [header] + parts;
    assert iov[1..] == parts;
  }
}
