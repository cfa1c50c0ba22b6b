/** The request protocol on a relay's mailbox port: PULL and DESCRIBE, server and client side. */
module PullProtocol {
  import opened ByteStrings
  import opened Crypto
  import opened Framing
  import opened Mailboxes
  import opened Sequences
  import opened Utf8
  import opened Wrappers

  const PULL_REQUEST: byte := 1
  const DESCRIBE_REQUEST: byte := 2

  // ----- PULL -----

  /** The server's answer: how many cells, then each as a frame. */
  function Response(cells: seq<Bytes>): (out: Bytes)
    ensures |out| >= 4
  {
    BE32(AsU32(|cells|)) + Written(cells)
  }

  /** The response layout: the count in 32 bits, most significant byte first, and the frames in order. */
  lemma ResponseLayout(cells: seq<Bytes>)
    requires |cells| < U32_LIMIT
    ensures var out := Response(cells);
      && |cells| == out[0] * 0x100_0000 + out[1] * 0x1_0000 + out[2] * 0x100 + out[3] as int
      && out[4..] == Written(cells)
  {
    BE32Weights(|cells|);
    assert Response(cells)[..4] == BE32(|cells|);
  }

  /** n frames read off the front of s, or None if it ends too early. */
  function ReadFrames(s: Bytes, n: nat): Option<Cut>
    decreases n
  {
    if n == 0 then Some(Cut([], s)) else
    var first := ReadOne(s);
    if !first.Frame? then None else
    var more := ReadFrames(first.rest, n - 1);
    if more.None? then None else Some(Cut([first.body] + more.value.frames, more.value.rest))
  }

  /** What a client makes of the bytes that reach it before the connection closes. */
  function ParseResponse(s: Bytes): Option<Cut> {
    if |s| < 4 then None else ReadFrames(s[4..], FromBE32(s[..4]))
  }

  ghost predicate ResponseFits(cells: seq<Bytes>) {
    |cells| < U32_LIMIT && AllFit(cells)
  }

  lemma {:induction false} ReadFramesWritten(cells: seq<Bytes>, rest: Bytes)
    requires AllFit(cells)
    ensures ReadFrames(Written(cells) + rest, |cells|) == Some(Cut(cells, rest))
    decreases |cells|
  {
    if cells == [] {
      assert Written(cells) + rest == rest;
    } else {
      var first, more := cells[0], cells[1..];
      assert cells == [first] + more;
      WrittenPrepend(first, more);
      Regroup(FrameBytes(first), Written(more), rest);
      ReadWritten(first, Written(more) + rest);
      ReadFramesWritten(more, rest);
    }
  }

  lemma {:induction false} ReadFramesFit(s: Bytes, n: nat)
    requires ReadFrames(s, n).Some?
    ensures |ReadFrames(s, n).value.frames| == n && AllFit(ReadFrames(s, n).value.frames)
  {
    if n > 0 {
      WrittenRead(s);
      ReadFramesFit(ReadOne(s).rest, n - 1);
    }
  }

  lemma CountThenFrames(n: u32, x: Bytes)
    ensures ParseResponse(BE32(n) + x) == ReadFrames(x, n)
  {
    var s := BE32(n) + x;
    assert s[..4] == BE32(n) && s[4..] == x;
    BE32RoundTrip(n);
  }

  lemma ResponseParts(cells: seq<Bytes>, rest: Bytes)
    ensures ParseResponse(Response(cells) + rest) == ReadFrames(Written(cells) + rest, AsU32(|cells|))
  {
    Regroup(BE32(AsU32(|cells|)), Written(cells), rest);
    CountThenFrames(AsU32(|cells|), Written(cells) + rest);
  }

  /** Cells beyond the 32-bit limits never come back as they were. */
  lemma Misread(s: Bytes, n: u32, cells: seq<Bytes>)
    requires !ResponseFits(cells)
    ensures ReadFrames(s, n).Some? ==> ReadFrames(s, n).value.frames != cells
  {
    if ReadFrames(s, n).Some? {
      ReadFramesFit(s, n);
    }
  }

  lemma CountedRoundTrip(cells: seq<Bytes>, rest: Bytes, n: u32)
    requires n == AsU32(|cells|)
    ensures ReadFrames(Written(cells) + rest, n) == Some(Cut(cells, rest)) <==> ResponseFits(cells)
  {
    if ResponseFits(cells) {
      assert n == |cells|;
      ReadFramesWritten(cells, rest);
    } else {
      Misread(Written(cells) + rest, n, cells);
    }
  }

  /** The client recovers exactly the cells the server wrote, with nothing left over, iff the counts fit 32 bits. */
  lemma PullRoundTrip(cells: seq<Bytes>, rest: Bytes)
    ensures ParseResponse(Response(cells) + rest) == Some(Cut(cells, rest)) <==> ResponseFits(cells)
  {
    ResponseParts(cells, rest);
    CountedRoundTrip(cells, rest, AsU32(|cells|));
  }

  /** Reading n frames of which the first is there takes that one and goes on. */
  lemma FirstThenOthers(first: Bytes, x: Bytes, n: nat)
    requires |first| < U32_LIMIT && n > 0
    ensures ReadFrames(x, n - 1) == None ==> ReadFrames(FrameBytes(first) + x, n) == None
  {
    ReadWritten(first, x);
  }

  lemma {:induction false} CutShortFails(cells: seq<Bytes>, k: nat)
    requires AllFit(cells) && k < |Written(cells)|
    ensures ReadFrames(Written(cells)[..k], |cells|) == None
    decreases |cells|
  {
    if cells != [] {
      var first, more := cells[0], cells[1..];
      assert cells == [first] + more;
      WrittenPrepend(first, more);
      CutConcat(FrameBytes(first), Written(more), k);
      var size := |FrameBytes(first)|;
      if k < size {
        PartialFrameIsNoFrame(first, k);
      } else {
        CutShortFails(more, k - size);
        FirstThenOthers(first, Written(more)[..k - size], |cells|);
      }
    }
  }

  /** A response that is cut short anywhere makes the client fail; it never returns a shorter list. */
  lemma PullNeverTruncates(cells: seq<Bytes>, k: nat)
    requires ResponseFits(cells) && k < |Response(cells)|
    ensures ParseResponse(Response(cells)[..k]) == None
  {
    CountCut(AsU32(|cells|), Written(cells), k);
    if k >= 4 {
      CutFramesFail(cells, AsU32(|cells|), k - 4);
    }
  }

  lemma CutFramesFail(cells: seq<Bytes>, n: u32, k: nat)
    requires AllFit(cells) && n == |cells| && k < |Written(cells)|
    ensures ReadFrames(Written(cells)[..k], n) == None
  {
    CutShortFails(cells, k);
  }

  lemma CountCut(n: u32, x: Bytes, k: nat)
    requires k < 4 + |x|
    ensures ParseResponse((BE32(n) + x)[..k]) == if k < 4 then None else ReadFrames(x[..k - 4], n)
  {
    CutConcat(BE32(n), x, k);
    if k >= 4 {
      CountThenFrames(n, x[..k - 4]);
    }
  }

  /** Client side: the request byte, the count, and that many frames. */
  method Pull(stream: Socket) returns (r: Option<seq<Bytes>>)
    modifies stream
    ensures stream.outbox == old(stream.outbox) + (if old(stream.room) > 0 then [1] else [])
    ensures var parsed := ParseResponse(old(stream.inbox));
      r == if old(stream.room) > 0 && parsed.Some? then Some(parsed.value.frames) else None
  {
    var sent := stream.WriteAll([PULL_REQUEST]);
    if !sent {
      return None;
    }
    ghost var s := stream.inbox;
    var countBuf := stream.ReadExact(4);
    if countBuf.None? {
      return None;
    }
    var count := FromBE32(countBuf.value);
    ghost var all := ReadFrames(stream.inbox, count);
    assert all == ParseResponse(s);
    assert all.Some? ==> [] + all.value.frames == all.value.frames;
    var cells: seq<Bytes> := [];
    for i := 0 to count
      invariant stream.outbox == old(stream.outbox) + [PULL_REQUEST]
      invariant all == Prepend(cells, ReadFrames(stream.inbox, count - i))
    {
      var cell := stream.ReadFrame();
      if cell.None? {
        return None;
      }
      PrependOne(cells, cell.value, ReadFrames(stream.inbox, count - i - 1));
      cells := cells + [cell.value];
    }
    assert all == Some(Cut(cells + [], stream.inbox));
    assert cells + [] == cells;
    r := Some(cells);
  }

  ghost function Prepend(cells: seq<Bytes>, more: Option<Cut>): Option<Cut> {
    if more.None? then None else Some(Cut(cells + more.value.frames, more.value.rest))
  }

  lemma PrependOne(cells: seq<Bytes>, cell: Bytes, more: Option<Cut>)
    ensures Prepend(cells + [cell], more) == Prepend(cells, Prepend([cell], more))
  {
    if more.Some? {
      Regroup(cells, [cell], more.value.frames);
    }
  }

  // ----- DESCRIBE -----

  datatype RelayIdentity = RelayIdentity(id: Text, publicKey: Key, mainAddr: Text)

  function TextBytes(t: Bytes): Bytes {
    BE16(AsU16(|t|)) + t
  }

  function IdentityBytes(d: RelayIdentity): Bytes {
    TextBytes(d.id) + d.publicKey + TextBytes(d.mainAddr)
  }

  /** The identity layout: the id, the key and the address, both strings behind their 16-bit lengths. */
  lemma IdentityLayout(d: RelayIdentity)
    requires |d.id| < U16_LIMIT && |d.mainAddr| < U16_LIMIT
    ensures var out, m, n := IdentityBytes(d), |d.id|, |d.mainAddr|;
      && |out| == 2 + m + 32 + 2 + n
      && m == out[0] * 256 + out[1] as int && out[2..2 + m] == d.id
      && out[2 + m..34 + m] == d.publicKey
      && n == out[34 + m] * 256 + out[35 + m] as int && out[36 + m..] == d.mainAddr
  {
    var out, m := IdentityBytes(d), |d.id|;
    assert out == BE16(m) + d.id + d.publicKey + BE16(|d.mainAddr|) + d.mainAddr;
  }

  /** A length-prefixed string and what follows it. */
  function ReadText(s: Bytes): Option<(Text, Bytes)> {
    if |s| < 2 then None else
    var len := FromBE16(s[..2]);
    if |s| - 2 < len || !IsUtf8(s[2..2 + len]) then None
    else Some((s[2..2 + len], s[2 + len..]))
  }

  function ParseIdentity(s: Bytes): Option<RelayIdentity> {
    var id := ReadText(s);
    if id.None? || |id.value.1| < KEY_SIZE then None else
    var mainAddr := ReadText(id.value.1[KEY_SIZE..]);
    if mainAddr.None? then None
    else Some(RelayIdentity(id.value.0, id.value.1[..KEY_SIZE], mainAddr.value.0))
  }

  lemma ReadTextWritten(t: Text, rest: Bytes)
    ensures ReadText(TextBytes(t) + rest) == Some((t, rest)) <==> |t| < U16_LIMIT
    ensures ReadText(TextBytes(t) + rest).Some? ==> |ReadText(TextBytes(t) + rest).value.0| < U16_LIMIT
  {
    var s := TextBytes(t) + rest;
    assert s[..2] == BE16(AsU16(|t|));
    BE16RoundTrip(AsU16(|t|));
    if |t| < U16_LIMIT {
      assert s[2..2 + |t|] == t && s[2 + |t|..] == rest;
    }
  }

  lemma ReadTextFits(s: Bytes)
    requires ReadText(s).Some?
    ensures |ReadText(s).value.0| < U16_LIMIT
  {
  }

  /** A relay's self-description arrives as it was sent exactly when both strings fit their 16-bit lengths. */
  lemma DescribeRoundTrip(d: RelayIdentity)
    ensures ParseIdentity(IdentityBytes(d)) == Some(d) <==> |d.id| < U16_LIMIT && |d.mainAddr| < U16_LIMIT
  {
    var s := IdentityBytes(d);
    var afterId := d.publicKey + TextBytes(d.mainAddr);
    assert s == TextBytes(d.id) + afterId;
    ReadTextWritten(d.id, afterId);
    if |d.id| < U16_LIMIT {
      assert afterId[..KEY_SIZE] == d.publicKey;
      assert afterId[KEY_SIZE..] == TextBytes(d.mainAddr) + [];
      ReadTextWritten(d.mainAddr, []);
    } else if ReadText(s).Some? {
      ReadTextFits(s);
    }
  }

  /** Reads one length-prefixed string off the stream. */
  method ReadLenPrefixedString(stream: Socket) returns (r: Option<Text>)
    modifies stream`inbox
    ensures var parsed := ReadText(old(stream.inbox));
      && r == (if parsed.Some? then Some(parsed.value.0) else None)
      && (parsed.Some? ==> stream.inbox == parsed.value.1)
  {
    ghost var s := stream.inbox;
    var lenBuf := stream.ReadExact(2);
    if lenBuf.None? {
      return None;
    }
    var len := FromBE16(lenBuf.value);
    assert |s| - 2 >= len ==> s[2..][..len] == s[2..2 + len] && s[2..][len..] == s[2 + len..];
    var buf := stream.ReadExact(len);
    if buf.None? || !IsUtf8(buf.value) {
      return None;
    }
    r := buf;
  }

  /** Client side: the request byte, and the identity the relay sends back. */
  method Describe(stream: Socket) returns (r: Option<RelayIdentity>)
    modifies stream
    ensures stream.outbox == old(stream.outbox) + (if old(stream.room) > 0 then [2] else [])
    ensures r == if old(stream.room) > 0 then ParseIdentity(old(stream.inbox)) else None
  {
    var sent := stream.WriteAll([DESCRIBE_REQUEST]);
    if !sent {
      return None;
    }
    var id := ReadLenPrefixedString(stream);
    if id.None? {
      return None;
    }
    var publicKey := stream.ReadExact(KEY_SIZE);
    if publicKey.None? {
      return None;
    }
    var mainAddr := ReadLenPrefixedString(stream);
    if mainAddr.None? {
      return None;
    }
    r := Some(RelayIdentity(id.value, publicKey.value, mainAddr.value));
  }

  /** `bytes` went out, or as much of it as the connection took. */
  ghost predicate Wrote(before: Bytes, space: nat, bytes: Bytes, stream: Socket, ok: bool)
    reads stream
  {
    && ok == (|bytes| <= space)
    && stream.outbox == before + Taken(bytes, space)
    && stream.room == space - |Taken(bytes, space)|
  }

  method WriteLenPrefixed(stream: Socket, text: Bytes) returns (ok: bool)
    modifies stream`outbox, stream`room
    ensures Wrote(old(stream.outbox), old(stream.room), TextBytes(text), stream, ok)
  {
    var header := BE16(AsU16(|text|));
    TakenConcat(header, text, stream.room);
    ok := stream.WriteAll(header);
    if ok {
      Regroup(old(stream.outbox), header, Taken(text, stream.room));
      ok := stream.WriteAll(text);
    }
  }

  method WriteIdentity(stream: Socket, d: RelayIdentity) returns (ok: bool)
    modifies stream`outbox, stream`room
    ensures Wrote(old(stream.outbox), old(stream.room), IdentityBytes(d), stream, ok)
  {
    ghost var before, space := stream.outbox, stream.room;
    ghost var head, tail := TextBytes(d.id) + d.publicKey, TextBytes(d.mainAddr);
    TakenConcat(TextBytes(d.id), d.publicKey, space);
    TakenConcat(head, tail, space);
    ok := WriteLenPrefixed(stream, d.id);
    if ok {
      Regroup(before, TextBytes(d.id), Taken(d.publicKey, stream.room));
      ok := stream.WriteAll(d.publicKey);
      if ok {
        Regroup(before, head, Taken(tail, stream.room));
        ok := WriteLenPrefixed(stream, d.mainAddr);
      }
    }
  }

  /** What is out after one frame more, and whether anything can follow it. */
  lemma FrameOut(before: Bytes, out: Bytes, frame: Bytes, more: Bytes, space: nat)
    requires |out| <= space
    ensures out + (frame + more) == (out + frame) + more
    ensures (before + out) + Taken(frame, space - |out|) == before + Taken(out + frame, space)
    ensures |out + frame| <= space ==> Taken(out + frame, space) == out + frame
    ensures |out + frame| > space ==> Taken((out + frame) + more, space) == Taken(out + frame, space)
  {
    Regroup(out, frame, more);
    TakenConcat(out, frame, space);
    TakenConcat(out + frame, more, space);
    Regroup(before, out, Taken(frame, space - |out|));
  }

  method WriteResponse(stream: Socket, cells: seq<Bytes>) returns (ok: bool)
    modifies stream`outbox, stream`room
    ensures Wrote(old(stream.outbox), old(stream.room), Response(cells), stream, ok)
  {
    ghost var before, space := stream.outbox, stream.room;
    TakenConcat(BE32(AsU32(|cells|)), Written(cells), space);
    ok := stream.WriteAll(BE32(AsU32(|cells|)));
    if !ok {
      return;
    }
    ghost var out := BE32(AsU32(|cells|));
    for i := 0 to |cells|
      invariant ok && |out| <= space
      invariant out + Written(cells[i..]) == Response(cells)
      invariant stream.outbox == before + out && stream.room == space - |out|
    {
      var frame := FrameBytes(cells[i]);
      ghost var more := Written(cells[i + 1..]);
      assert cells[i..] == [cells[i]] + cells[i + 1..];
      WrittenPrepend(cells[i], cells[i + 1..]);
      FrameOut(before, out, frame, more, space);
      ok := stream.WriteFrame(cells[i]);
      if !ok {
        return;
      }
      out := out + frame;
    }
    assert cells[|cells|..] == [];
    assert out == Response(cells);
  }

  /** Server side: one request, one response. Pulled cells leave the mailbox even if the response breaks off. */
  method HandleRequest(stream: Socket, mailbox: Mailbox, identity: RelayIdentity) returns (ok: bool)
    requires mailbox.Valid()
    modifies stream, mailbox
    ensures mailbox.Valid() && mailbox.pushed == old(mailbox.pushed)
    ensures old(stream.inbox) == [] ==> !ok && stream.outbox == old(stream.outbox) && mailbox.queue == old(mailbox.queue)
    ensures old(stream.inbox) != [] ==>
      var request := old(stream.inbox)[0];
      if request == 1 then
        mailbox.queue == [] && Wrote(old(stream.outbox), old(stream.room), Response(old(mailbox.queue)), stream, ok)
      else
        && mailbox.queue == old(mailbox.queue)
        && Wrote(old(stream.outbox), old(stream.room),
                 if request == 2 then IdentityBytes(identity) else [], stream, ok)
  {
    var request := stream.ReadExact(1);
    if request.None? {
      return false;
    }
    if request.value[0] == PULL_REQUEST {
      var cells := mailbox.Drain();
      ok := WriteResponse(stream, cells);
    } else if request.value[0] == DESCRIBE_REQUEST {
      ok := WriteIdentity(stream, identity);
    } else {
      ok := true;
    }
  }
}
