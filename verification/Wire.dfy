/** The wire format of pkg/message/wire.go: a 12-byte command header followed by framed
    application messages, all integers big-endian.

    The first part gives the format as functions on byte sequences (`Packed`, `Unpack`); the second
    part gives the in-place packer and the parser loop and ties them to those functions. */
module Wire {

  type Byte = x: int | 0 <= x < 256

  type Payload = seq<Byte>

  const CMD_HEADER_SIZE := 12
  const APP_HEADER_SIZE := 12
  const CMD_POST_SEND := 230
  const UINT32_LIMIT := 0x1_0000_0000

  datatype WireError = InvalidBatch | UnknownCommand

  datatype Result<+T> = Ok(value: T) | Err(error: WireError)

  // ---------------------------------------------------------------- big-endian integers

  function Pow256(n: nat): (p: nat)
  {
    if n == 0 then 1 else 256 * Pow256(n - 1)
  }

  /** The `width` low-order bytes of `v`, most significant first; higher bytes are cut off, as
      Go's conversion to a narrower unsigned type does. */
  function BigEndian(v: nat, width: nat): (s: seq<Byte>)
    ensures |s| == width
  {
    if width == 0 then [] else BigEndian(v / 256, width - 1) + [v % 256]
  }

  function BigEndianValue(s: seq<Byte>): (v: nat)
  {
    if s == [] then 0 else 256 * BigEndianValue(s[..|s| - 1]) + s[|s| - 1]
  }

  lemma {:induction false} BigEndianDecodes(v: nat, width: nat)
    requires v < Pow256(width)
    ensures BigEndianValue(BigEndian(v, width)) == v
  {
    if width == 0 {
    } else {
      BigEndianDecodes(v / 256, width - 1);
      assert BigEndian(v, width)[..width - 1] == BigEndian(v / 256, width - 1);
    }
  }

  lemma {:induction false} BigEndianEncodes(s: seq<Byte>)
    ensures BigEndianValue(s) < Pow256(|s|)
    ensures BigEndian(BigEndianValue(s), |s|) == s
  {
    if s == [] {
    } else {
      BigEndianEncodes(s[..|s| - 1]);
    }
  }

  lemma Uint32Width()
    ensures Pow256(4) == UINT32_LIMIT
  {
    assert Pow256(2) == 65536;
  }

  // ---------------------------------------------------------------- format

  function CmdHeader(cmd: nat): (s: seq<Byte>)
    ensures |s| == CMD_HEADER_SIZE
  {
    BigEndian(cmd, 4) + BigEndian(0, 4) + BigEndian(0, 4)
  }

  function AppHeader(timestamp: nat, size: nat): (s: seq<Byte>)
    ensures |s| == APP_HEADER_SIZE
  {
    BigEndian(timestamp, 8) + BigEndian(size, 4)
  }

  function Frame(m: Payload, timestamp: nat): (s: seq<Byte>)
    ensures |s| == APP_HEADER_SIZE + |m|
  {
    AppHeader(timestamp, |m|) + m
  }

  /** Bytes taken by the framed messages, without the command header. */
  function FramedSize(ms: seq<Payload>): (n: nat)
  {
    if ms == [] then 0 else APP_HEADER_SIZE + |ms[0]| + FramedSize(ms[1..])
  }

  function BatchBytes(ms: seq<Payload>): (n: nat)
  {
    CMD_HEADER_SIZE + FramedSize(ms)
  }

  function Frames(ms: seq<Payload>, timestamp: nat): (s: seq<Byte>)
    ensures |s| == FramedSize(ms)
  {
    if ms == [] then [] else Frame(ms[0], timestamp) + Frames(ms[1..], timestamp)
  }

  /** The bytes of a whole batch. */
  function Packed(ms: seq<Payload>, timestamp: nat): (s: seq<Byte>)
    ensures |s| == BatchBytes(ms)
  {
    CmdHeader(CMD_POST_SEND) + Frames(ms, timestamp)
  }

  /** The part of `s` that fits `room` bytes. */
  function Clipped(s: seq<Byte>, room: nat): (r: seq<Byte>)
    ensures |r| == if |s| <= room then |s| else room
  {
    if |s| <= room then s else s[..room]
  }

  /** There is room for every header of the batch, if not for all of the last payload. */
  ghost predicate HeadersFit(ms: seq<Payload>, room: nat)
  {
    if ms == [] then CMD_HEADER_SIZE <= room
    else BatchBytes(ms[..|ms| - 1]) + APP_HEADER_SIZE <= room
  }

  /** What a reader recovers from the bytes that follow the command header. */
  function Parse(b: seq<Byte>): (r: Result<seq<Payload>>)
    decreases |b|
  {
    if b == [] then Ok([])
    else if |b| < APP_HEADER_SIZE then Err(InvalidBatch)
    else
      var size := BigEndianValue(b[8..12]);
      if APP_HEADER_SIZE + size > |b| then Err(InvalidBatch)
      else Prepend([b[APP_HEADER_SIZE..APP_HEADER_SIZE + size]], Parse(b[APP_HEADER_SIZE + size..]))
  }

  function Prepend(ms: seq<Payload>, r: Result<seq<Payload>>): Result<seq<Payload>>
  {
    match r
    case Ok(rest) => Ok(ms + rest)
    case Err(e) => Err(e)
  }

  lemma SubRange(s: seq<Byte>, from: nat, to: nat, i: nat, j: nat)
    requires from <= to <= |s| && i <= j <= to - from
    ensures s[from..to][i..j] == s[from + i..from + j]
  {
    var a, b := s[from..to][i..j], s[from + i..from + j];
    assert |a| == |b|;
    forall k | 0 <= k < |a| ensures a[k] == b[k] {
      assert a[k] == s[from..to][i + k];
    }
  }

  lemma Suffix(s: seq<Byte>, from: nat, i: nat, j: nat)
    requires from <= |s| && i <= j <= |s| - from
    ensures s[from..][i..j] == s[from + i..from + j]
  {
    assert s[from..] == s[from..|s|];
    SubRange(s, from, |s|, i, j);
  }

  lemma PrependNothing(r: Result<seq<Payload>>)
    ensures Prepend([], r) == r
  {
    if r.Ok? {
      assert [] + r.value == r.value;
    }
  }

  lemma PrependTwice(a: seq<Payload>, b: seq<Payload>, r: Result<seq<Payload>>)
    ensures Prepend(a, Prepend(b, r)) == Prepend(a + b, r)
  {
    if r.Ok? {
      assert a + (b + r.value) == (a + b) + r.value;
    }
  }

  /** What a reader recovers from the first `length` bytes of `data`. */
  function Unpack(data: seq<Byte>, length: int): (r: Result<seq<Payload>>)
    requires length <= |data|
  {
    if length < CMD_HEADER_SIZE then Err(InvalidBatch)
    else if BigEndianValue(data[..4]) != CMD_POST_SEND then Err(UnknownCommand)
    else Parse(data[CMD_HEADER_SIZE..length])
  }

  /** Every length fits the 32-bit size field. */
  ghost predicate Representable(ms: seq<Payload>)
  {
    forall i | 0 <= i < |ms| :: |ms[i]| < UINT32_LIMIT
  }

  lemma {:induction false} FramedSizeConcat(a: seq<Payload>, b: seq<Payload>)
    ensures FramedSize(a + b) == FramedSize(a) + FramedSize(b)
  {
    if a == [] {
      assert a + b == b;
    } else {
      FramedSizeConcat(a[1..], b);
      assert (a + b)[1..] == a[1..] + b;
    }
  }

  lemma Regroup(a: seq<Byte>, b: seq<Byte>, c: seq<Byte>)
    ensures a + (b + c) == (a + b) + c
  {
  }

  lemma {:induction false} FramesConcat(a: seq<Payload>, b: seq<Payload>, timestamp: nat)
    ensures Frames(a + b, timestamp) == Frames(a, timestamp) + Frames(b, timestamp)
  {
    hide Frame;
    if a == [] {
      assert a + b == b;
    } else {
      FramesConcat(a[1..], b, timestamp);
      assert (a + b)[1..] == a[1..] + b;
      Regroup(Frame(a[0], timestamp), Frames(a[1..], timestamp), Frames(b, timestamp));
    }
  }

  // ---------------------------------------------------------------- packer and parser

  /** `s` with the bytes from `at` on replaced by `t`. */
  function Splice(s: seq<Byte>, at: nat, t: seq<Byte>): (r: seq<Byte>)
    requires at + |t| <= |s|
    ensures |r| == |s|
  {
    s[..at] + t + s[at + |t|..]
  }

  lemma SpliceTwice(s: seq<Byte>, at: nat, t: seq<Byte>, u: seq<Byte>)
    requires at + |t| + |u| <= |s|
    ensures Splice(Splice(s, at, t), at + |t|, u) == Splice(s, at, t + u)
  {
  }

  method PutBigEndian(buf: array<Byte>, at: nat, width: nat, v: nat)
    requires at + width <= buf.Length
    modifies buf
    ensures buf[..] == Splice(old(buf[..]), at, BigEndian(v, width))
  {
    var rest, i := v, width;
    while i > 0
      invariant 0 <= i <= width
      invariant buf[..at + i] == old(buf[..])[..at + i]
      invariant buf[at + i..at + width] == BigEndian(v, width)[i..]
      invariant BigEndian(rest, i) == BigEndian(v, width)[..i]
      invariant buf[at + width..] == old(buf[..])[at + width..]
    {
      ghost var done := buf[at + i..at + width];
      i := i - 1;
      buf[at + i] := rest % 256;
      assert buf[at + i..at + width] == [rest % 256] + done;
      assert BigEndian(rest, i + 1)[..i] == BigEndian(rest / 256, i);
      assert BigEndian(rest, i + 1)[i] == rest % 256;
      rest := rest / 256;
    }
    assert buf[..] == buf[..at] + buf[at..at + width] + buf[at + width..];
  }

  method EncodeCmdHeader(buf: array<Byte>, at: nat, cmd: nat)
    requires at + CMD_HEADER_SIZE <= buf.Length
    modifies buf
    ensures buf[..] == Splice(old(buf[..]), at, CmdHeader(cmd))
  {
    PutBigEndian(buf, at, 4, cmd);
    PutBigEndian(buf, at + 4, 4, 0);
    PutBigEndian(buf, at + 8, 4, 0);
  }

  method EncodeAppHeader(buf: array<Byte>, at: nat, timestamp: nat, size: nat)
    requires at + APP_HEADER_SIZE <= buf.Length
    modifies buf
    ensures buf[..] == Splice(old(buf[..]), at, AppHeader(timestamp, size))
  {
    PutBigEndian(buf, at, 8, timestamp);
    PutBigEndian(buf, at + 8, 4, size);
  }

  method CopyInto(buf: array<Byte>, at: nat, m: Payload)
    requires at + |m| <= buf.Length
    modifies buf
    ensures buf[..] == Splice(old(buf[..]), at, m)
  {
    for i := 0 to |m|
      invariant buf[..] == Splice(old(buf[..]), at, m[..i])
    {
      buf[at + i] := m[i];
      assert m[..i + 1] == m[..i] + [m[i]];
    }
    assert m[..|m|] == m;
  }

  /** `copy` of the language: what does not fit the rest of the buffer is cut off. */
  method CopyClipped(buf: array<Byte>, at: nat, m: Payload)
    requires at <= buf.Length
    modifies buf
    ensures buf[..] == Splice(old(buf[..]), at, Clipped(m, buf.Length - at))
  {
    CopyInto(buf, at, Clipped(m, buf.Length - at));
  }

  /** Writes the batch at the front of `buf` and leaves every later byte alone. The headers have to
      fit, or the code panics; a last payload that does not fit is cut off, and the length returned is
      then larger than the buffer. */
  method PackBatch(buf: array<Byte>, messages: seq<Payload>, now: nat) returns (n: nat)
    requires HeadersFit(messages, buf.Length)
    modifies buf
    ensures n == BatchBytes(messages)
    ensures buf[..] == Splice(old(buf[..]), 0, Clipped(Packed(messages, now), buf.Length))
  {
    hide Frames, FramedSize, Frame, AppHeader, Splice, Clipped, Packed;
    HeadersRoom(messages, 0, buf.Length);
    EncodeCmdHeader(buf, 0, CMD_POST_SEND);
    var offset := CMD_HEADER_SIZE;
    PackNothing(messages, now, buf.Length);
    for i := 0 to |messages|
      invariant offset == BatchBytes(messages[..i])
      invariant buf[..] == Splice(old(buf[..]), 0, Clipped(Packed(messages[..i], now), buf.Length))
    {
      var m := messages[i];
      HeadersRoom(messages, i, buf.Length);
      PackPrefix(messages, i, now);
      EncodeAppHeader(buf, offset, now, |m|);
      CopyClipped(buf, offset + APP_HEADER_SIZE, m);
      FrameWritten(old(buf[..]), messages, i, now);
      offset := offset + APP_HEADER_SIZE + |m|;
    }
    assert messages[..|messages|] == messages;
    return offset;
  }

  /** There is room for the next header. */
  lemma HeadersRoom(ms: seq<Payload>, i: nat, room: nat)
    requires HeadersFit(ms, room) && i <= |ms|
    ensures CMD_HEADER_SIZE <= room
    ensures i < |ms| ==> BatchBytes(ms[..i]) + APP_HEADER_SIZE <= room
  {
    if i < |ms| {
      var init := ms[..|ms| - 1];
      assert init == init[..i] + init[i..] && init[..i] == ms[..i];
      FramedSizeConcat(init[..i], init[i..]);
    }
  }

  /** Writing the header and then the payload appends the frame. */
  lemma FrameWritten(buf: seq<Byte>, ms: seq<Payload>, i: nat, now: nat)
    requires i < |ms| && BatchBytes(ms[..i]) + APP_HEADER_SIZE <= |buf|
    ensures var (m, at) := (ms[i], BatchBytes(ms[..i]));
      var before := Splice(buf, 0, Clipped(Packed(ms[..i], now), |buf|));
      var header := Splice(before, at, AppHeader(now, |m|));
      Splice(header, at + APP_HEADER_SIZE, Clipped(m, |buf| - at - APP_HEADER_SIZE))
        == Splice(buf, 0, Clipped(Packed(ms[..i + 1], now), |buf|))
  {
    hide Packed, Frames, FramedSize, AppHeader;
    var (m, at) := (ms[i], BatchBytes(ms[..i]));
    var p, h, c := Packed(ms[..i], now), AppHeader(now, |m|), Clipped(m, |buf| - at - APP_HEADER_SIZE);
    PackPrefix(ms, i, now);
    ClippedConcat(p + h, m, |buf|);
    assert p + (h + m) == p + h + m;
    SpliceTwice(buf, 0, p, h);
    SpliceTwice(buf, 0, p + h, c);
  }

  lemma ClippedConcat(a: seq<Byte>, b: seq<Byte>, room: nat)
    requires |a| <= room
    ensures Clipped(a, room) == a && Clipped(a + b, room) == a + Clipped(b, room - |a|)
  {
  }

  lemma PackNothing(ms: seq<Payload>, now: nat, room: nat)
    requires CMD_HEADER_SIZE <= room
    ensures BatchBytes(ms[..0]) == CMD_HEADER_SIZE
    ensures Clipped(Packed(ms[..0], now), room) == CmdHeader(CMD_POST_SEND)
  {
    assert ms[..0] == [];
  }

  lemma PackPrefix(ms: seq<Payload>, i: nat, timestamp: nat)
    requires i < |ms|
    ensures BatchBytes(ms[..i + 1]) == BatchBytes(ms[..i]) + APP_HEADER_SIZE + |ms[i]| <= BatchBytes(ms)
    ensures Packed(ms[..i + 1], timestamp) == Packed(ms[..i], timestamp) + Frame(ms[i], timestamp)
  {
    assert ms[..i + 1] == ms[..i] + [ms[i]];
    assert ms == ms[..i + 1] + ms[i + 1..];
    FramedSizeConcat(ms[..i], [ms[i]]);
    FramedSizeConcat(ms[..i + 1], ms[i + 1..]);
    FramesConcat(ms[..i], [ms[i]], timestamp);
  }

  method PackSingle(buf: array<Byte>, m: Payload, now: nat) returns (n: nat)
    requires CMD_HEADER_SIZE + APP_HEADER_SIZE <= buf.Length
    modifies buf
    ensures n == CMD_HEADER_SIZE + APP_HEADER_SIZE + |m|
    ensures buf[..] == Splice(old(buf[..]), 0, Clipped(Packed([m], now), buf.Length))
  {
    assert [m][..0] == [];
    n := PackBatch(buf, [m], now);
  }

  method BatchSize(messages: seq<Payload>) returns (size: nat)
    ensures size == BatchBytes(messages)
  {
    size := CMD_HEADER_SIZE;
    assert messages[..0] == [];
    for i := 0 to |messages|
      invariant size == BatchBytes(messages[..i])
    {
      PackPrefix(messages, i, 0);
      size := size + APP_HEADER_SIZE + |messages[i]|;
    }
    assert messages[..|messages|] == messages;
  }

  method DecodeCmdHeader(data: seq<Byte>) returns (r: Result<nat>)
    ensures r == if |data| < CMD_HEADER_SIZE then Err(InvalidBatch) else Ok(BigEndianValue(data[..4]))
  {
    if |data| < CMD_HEADER_SIZE {
      return Err(InvalidBatch);
    }
    return Ok(BigEndianValue(data[..4]));
  }

  method DecodeAppHeader(data: seq<Byte>) returns (r: Result<(nat, nat)>)
    ensures r == if |data| < APP_HEADER_SIZE then Err(InvalidBatch)
                 else Ok((BigEndianValue(data[..8]), BigEndianValue(data[8..12])))
  {
    if |data| < APP_HEADER_SIZE {
      return Err(InvalidBatch);
    }
    return Ok((BigEndianValue(data[..8]), BigEndianValue(data[8..12])));
  }

  /** The parser loop. Reads only inside the first `length` bytes: every index is checked against
      `length` before it is used. */
  method UnpackBatch(data: seq<Byte>, length: int) returns (r: Result<seq<Payload>>)
    requires length <= |data|
    ensures r == Unpack(data, length)
  {
    if length < CMD_HEADER_SIZE {
      return Err(InvalidBatch);
    }
    var cmd := DecodeCmdHeader(data);
    if cmd.Err? {
      // A batch of at least `length` bytes always holds a command header.
      assert false;
    }
    if cmd.value != CMD_POST_SEND {
      return Err(UnknownCommand);
    }
    hide Parse, Prepend, BigEndianValue;
    var offset := CMD_HEADER_SIZE;
    var messages: seq<Payload> := [];
    PrependNothing(Parse(data[offset..length]));
    while offset < length
      invariant CMD_HEADER_SIZE <= offset <= length
      invariant Unpack(data, length) == Prepend(messages, Parse(data[offset..length]))
    {
      ParseStep(data, offset, length, messages);
      if offset + APP_HEADER_SIZE > length {
        return Err(InvalidBatch);
      }
      var header := DecodeAppHeader(data[offset..]);
      if header.Err? {
        assert false;
      }
      var size := header.value.1;
      Suffix(data, offset, 8, 12);
      offset := offset + APP_HEADER_SIZE;
      if offset + size > length {
        return Err(InvalidBatch);
      }
      messages := messages + [data[offset..offset + size]];
      offset := offset + size;
    }
    ParseEnd(messages);
    return Ok(messages);
  }

  lemma ParseEnd(ms: seq<Payload>)
    ensures Prepend(ms, Parse([])) == Ok(ms)
  {
    assert ms + [] == ms;
  }

  /** One turn of the parser loop, after the messages `done`. */
  lemma ParseStep(data: seq<Byte>, offset: nat, length: nat, done: seq<Payload>)
    requires offset < length <= |data|
    ensures var r := Prepend(done, Parse(data[offset..length]));
      if offset + APP_HEADER_SIZE > length then r == Err(InvalidBatch)
      else
        var size := BigEndianValue(data[offset + 8..offset + 12]);
        var from := offset + APP_HEADER_SIZE;
        if from + size > length then r == Err(InvalidBatch)
        else r == Prepend(done + [data[from..from + size]], Parse(data[from + size..length]))
  {
    var rest := data[offset..length];
    if |rest| >= APP_HEADER_SIZE {
      SubRange(data, offset, length, 8, 12);
      var size, from := BigEndianValue(rest[8..12]), offset + APP_HEADER_SIZE;
      if from + size <= length {
        SubRange(data, offset, length, APP_HEADER_SIZE, APP_HEADER_SIZE + size);
        assert rest[APP_HEADER_SIZE + size..] == data[from + size..length];
        PrependTwice(done, [data[from..from + size]], Parse(data[from + size..length]));
      }
    }
  }
}
