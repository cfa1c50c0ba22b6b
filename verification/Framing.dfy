/** Length-prefixed frames on a byte stream. */
module Framing {
  import opened ByteStrings
  import opened Sequences
  import opened Wrappers

  /** What `write_frame` puts on the stream. */
  function FrameBytes(body: Bytes): (out: Bytes)
    ensures |out| == 4 + |body|
  {
    BE32(AsU32(|body|)) + body
  }

  /** What a reader finds at the front of the bytes that reach it before the stream ends. */
  datatype Reading = NoHeader | Truncated | Frame(body: Bytes, rest: Bytes)

  function ReadOne(s: Bytes): Reading {
    if |s| < 4 then NoHeader else
    var len := FromBE32(s[..4]);
    if |s| - 4 < len then Truncated else Frame(s[4..4 + len], s[4 + len..])
  }

  /** A written frame reads back, with nothing lost or left over, exactly when its length fits 32 bits. */
  lemma ReadWritten(body: Bytes, rest: Bytes)
    ensures ReadOne(FrameBytes(body) + rest) == Frame(body, rest) <==> |body| < U32_LIMIT
  {
    var s := FrameBytes(body) + rest;
    assert s[..4] == BE32(AsU32(|body|));
    BE32RoundTrip(AsU32(|body|));
    assert s[4..] == body + rest;
    if |body| < U32_LIMIT {
      assert s[4..4 + |body|] == body && s[4 + |body|..] == rest;
    }
  }

  /** The frame layout: the body's length in 32 bits, most significant byte first, and the body. */
  lemma FrameLayout(body: Bytes)
    requires |body| < U32_LIMIT
    ensures var out := FrameBytes(body);
      && |body| == out[0] * 0x100_0000 + out[1] * 0x1_0000 + out[2] * 0x100 + out[3] as int
      && out[4..] == body
  {
    BE32Weights(|body|);
  }

  lemma ThreeParts(s: Bytes, i: nat, j: nat)
    requires i <= j <= |s|
    ensures s == s[..i] + s[i..j] + s[j..]
  {
  }

  lemma WrittenRead(s: Bytes)
    requires ReadOne(s).Frame?
    ensures s == FrameBytes(ReadOne(s).body) + ReadOne(s).rest
    ensures |ReadOne(s).body| < U32_LIMIT
  {
    var len: int := FromBE32(s[..4]);
    BE32Onto(s[..4]);
    ThreeParts(s, 4, 4 + len);
    assert |s[4..4 + len]| == len && AsU32(len) == len;
  }

  /** A proper prefix of one frame never reads as a frame. */
  lemma PartialFrameIsNoFrame(body: Bytes, k: nat)
    requires |body| < U32_LIMIT && k < |FrameBytes(body)|
    ensures !ReadOne(FrameBytes(body)[..k]).Frame?
  {
    if k >= 4 {
      assert FrameBytes(body)[..k][..4] == BE32(AsU32(|body|));
      BE32RoundTrip(AsU32(|body|));
    }
  }

  /** The frames written one after another. */
  function Written(bodies: seq<Bytes>): Bytes {
    if bodies == [] then [] else Written(bodies[..|bodies| - 1]) + FrameBytes(bodies[|bodies| - 1])
  }

  lemma WrittenAppend(bodies: seq<Bytes>, last: Bytes)
    ensures Written(bodies + [last]) == Written(bodies) + FrameBytes(last)
  {
    assert (bodies + [last])[..|bodies|] == bodies;
  }

  lemma {:induction false} WrittenPrepend(first: Bytes, bodies: seq<Bytes>)
    ensures Written([first] + bodies) == FrameBytes(first) + Written(bodies)
  {
    if bodies == [] {
      WrittenAppend([], first);
      assert [first] + bodies == [] + [first];
    } else {
      var front, last := bodies[..|bodies| - 1], bodies[|bodies| - 1];
      WrittenPrepend(first, front);
      WrittenAppend([first] + front, last);
      assert [first] + bodies == ([first] + front) + [last];
      Regroup(FrameBytes(first), Written(front), FrameBytes(last));
    }
  }

  ghost predicate AllFit(bodies: seq<Bytes>) {
    forall b :: b in bodies ==> |b| < U32_LIMIT
  }

  /** A stream cut into its complete frames and what follows the last of them. */
  datatype Cut = Cut(frames: seq<Bytes>, rest: Bytes)

  function Split(s: Bytes): Cut
    decreases |s|
  {
    match ReadOne(s)
    case Frame(body, rest) =>
      var tail := Split(rest);
      Cut([body] + tail.frames, tail.rest)
    case _ => Cut([], s)
  }

  /** Cutting loses nothing and stops only where no complete frame is left. */
  lemma {:induction false} SplitIsMaximal(s: Bytes)
    ensures s == Written(Split(s).frames) + Split(s).rest
    ensures AllFit(Split(s).frames)
    ensures !ReadOne(Split(s).rest).Frame?
    decreases |s|
  {
    var reading := ReadOne(s);
    if reading.Frame? {
      SplitIsMaximal(reading.rest);
      WrittenRead(s);
      WrittenPrepend(reading.body, Split(reading.rest).frames);
    }
  }

  /** What was written frame by frame is what a reader cuts the stream into. */
  lemma {:induction false} SplitWritten(bodies: seq<Bytes>, rest: Bytes)
    requires AllFit(bodies) && !ReadOne(rest).Frame?
    ensures Split(Written(bodies) + rest) == Cut(bodies, rest)
    decreases |bodies|
  {
    if bodies == [] {
      assert Written(bodies) + rest == rest;
    } else {
      var first, more := bodies[0], bodies[1..];
      assert bodies == [first] + more;
      WrittenPrepend(first, more);
      assert Written(bodies) + rest == FrameBytes(first) + (Written(more) + rest);
      ReadWritten(first, Written(more) + rest);
      SplitWritten(more, rest);
    }
  }

  /** As much of `bytes` as a connection with that much room takes. */
  function Taken(bytes: Bytes, room: nat): (t: Bytes)
    ensures |t| <= room && (|bytes| <= room ==> t == bytes)
  {
    if |bytes| <= room then bytes else bytes[..room]
  }

  /** Writing a + b is writing a and then, if all of it went out, b. */
  lemma TakenConcat(a: Bytes, b: Bytes, room: nat)
    ensures Taken(a + b, room) == if |a| <= room then a + Taken(b, room - |a|) else Taken(a, room)
  {
  }

  /**
   One end of a connection. `inbox` holds the bytes still to be read before the peer closes;
   `room` is how many more bytes can be written before the connection breaks.
   */
  class Socket {
    var inbox: Bytes
    var outbox: Bytes
    var room: nat

    constructor (inbox: Bytes, room: nat)
      ensures this.inbox == inbox && outbox == [] && this.room == room
    {
      this.inbox, outbox, this.room := inbox, [], room;
    }

    method ReadExact(n: nat) returns (r: Option<Bytes>)
      modifies this`inbox
      ensures |old(inbox)| >= n ==> r == Some(old(inbox)[..n]) && inbox == old(inbox)[n..]
      ensures |old(inbox)| < n ==> r == None && inbox == []
    {
      if |inbox| < n {
        inbox := [];
        return None;
      }
      r := Some(inbox[..n]);
      inbox := inbox[n..];
    }

    /** Writes everything, or as much as the connection takes before it breaks. */
    method WriteAll(bytes: Bytes) returns (ok: bool)
      modifies this`outbox, this`room
      ensures ok == (|bytes| <= old(room))
      ensures outbox == old(outbox) + Taken(bytes, old(room))
      ensures room == old(room) - |Taken(bytes, old(room))|
    {
      ok := |bytes| <= room;
      var taken := Taken(bytes, room);
      outbox, room := outbox + taken, room - |taken|;
    }

    /** A frame that is not accepted whole leaves a proper prefix of itself behind. */
    method WriteFrame(body: Bytes) returns (ok: bool)
      modifies this`outbox, this`room
      ensures ok == (|FrameBytes(body)| <= old(room))
      ensures outbox == old(outbox) + Taken(FrameBytes(body), old(room))
      ensures room == old(room) - |Taken(FrameBytes(body), old(room))|
    {
      var header := BE32(AsU32(|body|));
      TakenConcat(header, body, room);
      ghost var before := outbox;
      ok := WriteAll(header);
      if ok {
        Regroup(before, header, Taken(body, room));
        ok := WriteAll(body);
      }
    }

    method ReadFrame() returns (r: Option<Bytes>)
      modifies this`inbox
      ensures ReadOne(old(inbox)).Frame? ==>
                r == Some(ReadOne(old(inbox)).body) && inbox == ReadOne(old(inbox)).rest
      ensures !ReadOne(old(inbox)).Frame? ==> r == None && inbox == []
    {
      var lenBuf := ReadExact(4);
      if lenBuf.None? {
        return None;
      }
      var len := FromBE32(lenBuf.value);
      assert |inbox| >= len ==> inbox[..len] == old(inbox)[4..4 + len] && inbox[len..] == old(inbox)[4 + len..];
      r := ReadExact(len);
    }
  }
}
