/**
 * Frames of bytes, each led by the length of its body, and the decoder that
 * puts a stream of them together again from whatever pieces it comes in.
 */
module FrameCodec {
  import opened Basics

  type Byte = x: int | 0 <= x < 256

  const LENGTH_BYTES := 4

  const UINT32 := 0x1_0000_0000

  /** `n` as an unsigned 32 bit number, lowest byte first; higher bits are lost. */
  function LengthBytes(n: nat): (r: seq<Byte>)
    ensures |r| == LENGTH_BYTES
  {
    [n % 256, n / 256 % 256, n / 65536 % 256, n / 16777216 % 256]
  }

  function LengthRead(b: seq<Byte>): (n: nat)
    requires |b| >= LENGTH_BYTES
    ensures n < UINT32
  {
    var b0: int, b1: int, b2: int, b3: int := b[0], b[1], b[2], b[3];
    b0 + 256 * b1 + 65536 * b2 + 16777216 * b3
  }

  /** The body length that `b` announces, once `b` has all of its bytes. */
  function LengthOf(b: seq<Byte>): Option<nat> {
    if |b| < LENGTH_BYTES then None else Some(LengthRead(b))
  }

  function Frame(body: seq<Byte>): seq<Byte> {
    LengthBytes(|body|) + body
  }

  /** Whether `b` starts with a whole frame. */
  predicate HasFrame(b: seq<Byte>) {
    LengthOf(b).Some? && |b| >= LENGTH_BYTES + LengthOf(b).value
  }

  /** The body of the frame `b` starts with. */
  function Body(b: seq<Byte>): seq<Byte>
    requires HasFrame(b)
  {
    b[LENGTH_BYTES..LENGTH_BYTES + LengthOf(b).value]
  }

  /** What is after the frame `b` starts with. */
  function AfterFrame(b: seq<Byte>): (r: seq<Byte>)
    requires HasFrame(b)
    ensures |r| < |b|
  {
    b[LENGTH_BYTES + LengthOf(b).value..]
  }

  /** The bodies of the whole frames at the front of `b`. */
  function Messages(b: seq<Byte>): seq<seq<Byte>>
    decreases |b|
  {
    if HasFrame(b) then [Body(b)] + Messages(AfterFrame(b)) else []
  }

  /** What is after the whole frames at the front of `b`: part of a frame. */
  function Held(b: seq<Byte>): (r: seq<Byte>)
    ensures !HasFrame(r)
    decreases |b|
  {
    if HasFrame(b) then Held(AfterFrame(b)) else b
  }

  function Frames(bodies: seq<seq<Byte>>): seq<Byte> {
    if bodies == [] then [] else Frame(bodies[0]) + Frames(bodies[1..])
  }

  /** What one decoder gives for chunk after chunk, from holding `held`. */
  function Decoded(held: seq<Byte>, chunks: seq<seq<Byte>>): seq<seq<Byte>>
    decreases |chunks|
  {
    if chunks == [] then [] else Messages(held + chunks[0]) + Decoded(Held(held + chunks[0]), chunks[1..])
  }

  /** What it holds after them. */
  function HeldAfter(held: seq<Byte>, chunks: seq<seq<Byte>>): seq<Byte>
    decreases |chunks|
  {
    if chunks == [] then held else HeldAfter(Held(held + chunks[0]), chunks[1..])
  }

  function Stream(chunks: seq<seq<Byte>>): seq<Byte> {
    if chunks == [] then [] else chunks[0] + Stream(chunks[1..])
  }

  // Lengths.

  lemma LengthBytesRead(n: nat, rest: seq<Byte>)
    ensures LengthRead(LengthBytes(n) + rest) == n % UINT32
  {
    assert n == n % 256 + 256 * (n / 256);
    assert n / 256 == n / 256 % 256 + 256 * (n / 65536);
    assert n / 65536 == n / 65536 % 256 + 256 * (n / 16777216);
    assert n / 16777216 == n / 16777216 % 256 + 256 * (n / UINT32);
  }

  lemma LengthReadBytes(b: seq<Byte>)
    requires |b| >= LENGTH_BYTES
    ensures LengthBytes(LengthRead(b)) == b[..LENGTH_BYTES]
  {
    var n := LengthRead(b);
    var b1: int, b2: int, b3: int := b[1], b[2], b[3];
    assert n / 256 == b1 + 256 * b2 + 65536 * b3;
    assert n / 65536 == b2 + 256 * b3;
    assert n / 16777216 == b3;
  }

  // One stream.

  lemma FrameFirst(body: seq<Byte>, rest: seq<Byte>)
    requires |body| < UINT32
    ensures var b := Frame(body) + rest;
            HasFrame(b) && Body(b) == body && AfterFrame(b) == rest
    ensures Messages(Frame(body) + rest) == [body] + Messages(rest)
    ensures Held(Frame(body) + rest) == Held(rest)
  {
    hide LengthBytes, LengthRead;
    var b := Frame(body) + rest;
    assert b == LengthBytes(|body|) + (body + rest);
    LengthBytesRead(|body|, body + rest);
  }

  /** Frames are read back, with what is after them. */
  lemma {:induction false} FramesRead(bodies: seq<seq<Byte>>, rest: seq<Byte>)
    requires forall body :: body in bodies ==> |body| < UINT32
    ensures Messages(Frames(bodies) + rest) == bodies + Messages(rest)
    ensures Held(Frames(bodies) + rest) == Held(rest)
  {
    hide Frame, Messages, Held;
    if bodies == [] {
      assert Frames(bodies) + rest == rest;
    } else {
      var others := Frames(bodies[1..]) + rest;
      assert Frames(bodies) + rest == Frame(bodies[0]) + others;
      FrameFirst(bodies[0], others);
      FramesRead(bodies[1..], rest);
      assert bodies == [bodies[0]] + bodies[1..];
    }
  }

  /** No byte is lost or made up: a stream is the frames of its messages and what is held. */
  lemma {:induction false} BytesKept(b: seq<Byte>)
    ensures Frames(Messages(b)) + Held(b) == b
    decreases |b|
  {
    hide LengthBytes, LengthRead;
    if HasFrame(b) {
      LengthReadBytes(b);
      BytesKept(AfterFrame(b));
      var others := Messages(AfterFrame(b));
      assert ([Body(b)] + others)[1..] == others;
      assert b == b[..LENGTH_BYTES] + Body(b) + AfterFrame(b);
    }
  }

  lemma LongBodyCut(body: seq<Byte>, rest: seq<Byte>)
    requires |body| >= UINT32
    ensures var messages := Messages(Frame(body) + rest); messages != [] && |messages[0]| < |body|
  {
    var b := Frame(body) + rest;
    assert b == LengthBytes(|body|) + (body + rest);
    LengthBytesRead(|body|, body + rest);
  }

  /** Bodies are read back exactly when the length of each has 32 bits. */
  lemma {:induction false} ReadBackExactly(bodies: seq<seq<Byte>>)
    ensures Messages(Frames(bodies)) == bodies <==> forall i :: 0 <= i < |bodies| ==> |bodies[i]| < UINT32
  {
    hide Messages, Frame;
    if bodies == [] {
      NoMessage();
    } else {
      var first, others := bodies[0], bodies[1..];
      ReadBackExactly(others);
      assert bodies == [first] + others;
      if |first| < UINT32 {
        FrameFirst(first, Frames(others));
        assert ([first] + Messages(Frames(others)))[1..] == Messages(Frames(others));
        assert forall i :: 0 <= i < |others| ==> others[i] == bodies[i + 1];
        assert forall i :: 0 < i < |bodies| ==> bodies[i] == others[i - 1];
      } else {
        LongBodyCut(first, Frames(others));
      }
    }
  }

  lemma NoMessage()
    ensures Messages([]) == []
  {
  }

  // Chunks.

  lemma {:induction false} MoreArrives(b: seq<Byte>, chunk: seq<Byte>)
    ensures Messages(b + chunk) == Messages(b) + Messages(Held(b) + chunk)
    ensures Held(b + chunk) == Held(Held(b) + chunk)
    decreases |b|
  {
    if HasFrame(b) {
      assert LengthOf(b + chunk) == LengthOf(b);
      assert Body(b + chunk) == Body(b);
      assert AfterFrame(b + chunk) == AfterFrame(b) + chunk;
      MoreArrives(AfterFrame(b), chunk);
    }
  }

  /** However a stream is cut into chunks, a decoder gives its messages, and holds what is after them. */
  lemma {:induction false} ChunksDoNotMatter(held: seq<Byte>, chunks: seq<seq<Byte>>)
    requires !HasFrame(held)
    ensures Decoded(held, chunks) == Messages(held + Stream(chunks))
    ensures HeldAfter(held, chunks) == Held(held + Stream(chunks))
    decreases |chunks|
  {
    hide HasFrame, LengthOf, Body, AfterFrame;
    if chunks == [] {
      assert held + Stream(chunks) == held;
    } else {
      var b := held + chunks[0];
      ChunksDoNotMatter(Held(b), chunks[1..]);
      MoreArrives(b, Stream(chunks[1..]));
      assert held + Stream(chunks) == b + Stream(chunks[1..]);
    }
  }

  /** However the frames of `bodies` are cut, a decoder gives `bodies` and holds nothing. */
  lemma SentArrive(bodies: seq<seq<Byte>>, chunks: seq<seq<Byte>>)
    requires forall body :: body in bodies ==> |body| < UINT32
    requires Stream(chunks) == Frames(bodies)
    ensures Decoded([], chunks) == bodies && HeldAfter([], chunks) == []
  {
    ChunksDoNotMatter([], chunks);
    assert [] + Stream(chunks) == Frames(bodies) + [];
    FramesRead(bodies, []);
    assert bodies + Messages([]) == bodies;
  }

  // The code, over arrays of bytes.

  method EncodeFrame(body: seq<Byte>) returns (frame: array<Byte>)
    ensures fresh(frame) && frame[..] == Frame(body)
  {
    frame := new Byte[LENGTH_BYTES + |body|](_ => 0);
    frame[0], frame[1] := |body| % 256, |body| / 256 % 256;
    frame[2], frame[3] := |body| / 65536 % 256, |body| / 16777216 % 256;
    for i := 0 to |body|
      invariant frame[..LENGTH_BYTES] == LengthBytes(|body|)
      invariant frame[LENGTH_BYTES..LENGTH_BYTES + i] == body[..i]
    {
      frame[LENGTH_BYTES + i] := body[i];
    }
    assert frame[..] == frame[..LENGTH_BYTES] + frame[LENGTH_BYTES..LENGTH_BYTES + |body|];
  }

  method Joined(first: array<Byte>, second: array<Byte>) returns (both: array<Byte>)
    ensures fresh(both) && both[..] == first[..] + second[..]
  {
    both := new Byte[first.Length + second.Length](_ => 0);
    for i := 0 to first.Length
      invariant both[..i] == first[..i]
    {
      both[i] := first[i];
    }
    for i := 0 to second.Length
      invariant both[..first.Length] == first[..]
      invariant both[first.Length..first.Length + i] == second[..i]
    {
      both[first.Length + i] := second[i];
    }
    assert both[..] == both[..first.Length] + both[first.Length..first.Length + second.Length];
  }

  /** Gives messages as their frames become whole, and holds the bytes left over. */
  class FrameDecoder {
    var buffered: array<Byte>

    constructor ()
      ensures fresh(buffered) && buffered[..] == []
    {
      buffered := new Byte[0](_ => 0);
    }

    /** The bodies of the messages `chunk` completes. */
    method Decode(chunk: array<Byte>) returns (messages: seq<seq<Byte>>)
      modifies this
      ensures fresh(buffered)
      ensures messages == Messages(old(buffered[..]) + old(chunk[..]))
      ensures buffered[..] == Held(old(buffered[..]) + old(chunk[..]))
    {
      messages := [];
      buffered := Joined(buffered, chunk);
      ghost var all := buffered[..];
      while HasFrame(buffered[..])
        invariant fresh(buffered)
        invariant Messages(all) == messages + Messages(buffered[..])
        invariant Held(all) == Held(buffered[..])
        decreases buffered.Length
      {
        ghost var before := buffered[..];
        messages := messages + [Body(buffered[..])];
        var rest := AfterFrame(buffered[..]);
        var left := new Byte[|rest|](i requires 0 <= i < |rest| => rest[i]);
        buffered := left;
        assert buffered[..] == AfterFrame(before);
      }
    }
  }
}
