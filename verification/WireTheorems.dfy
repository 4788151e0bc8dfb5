/** What the codec promises: round trip, behaviour on every truncation, and an exact description of
    the inputs the parser accepts. */
module WireTheorems {
  import opened Wire

  // ---------------------------------------------------------------- one frame

  lemma FrameFields(m: Payload, timestamp: nat, rest: seq<Byte>)
    requires |m| < UINT32_LIMIT
    ensures var b := Frame(m, timestamp) + rest;
      && BigEndianValue(b[8..12]) == |m|
      && b[12..12 + |m|] == m
      && b[12 + |m|..] == rest
  {
    var b := Frame(m, timestamp) + rest;
    assert b[8..12] == BigEndian(|m|, 4);
    Uint32Width();
    BigEndianDecodes(|m|, 4);
  }

  /** Framed messages followed by anything: the parser takes the messages off and goes on with the
      rest. */
  lemma {:induction false} ParseFrames(ms: seq<Payload>, timestamp: nat, rest: seq<Byte>)
    requires Representable(ms)
    ensures Parse(Frames(ms, timestamp) + rest) == Prepend(ms, Parse(rest))
  {
    if ms == [] {
      assert Frames(ms, timestamp) + rest == rest;
      PrependNothing(Parse(rest));
    } else {
      var tail := Frames(ms[1..], timestamp) + rest;
      var b := Frames(ms, timestamp) + rest;
      assert b == Frame(ms[0], timestamp) + tail;
      FrameFields(ms[0], timestamp, tail);
      ParseFrames(ms[1..], timestamp, rest);
      PrependTwice([ms[0]], ms[1..], Parse(rest));
      assert [ms[0]] + ms[1..] == ms;
    }
  }

  lemma PackedHeader(ms: seq<Payload>, timestamp: nat)
    ensures BigEndianValue(Packed(ms, timestamp)[..4]) == CMD_POST_SEND
    ensures Packed(ms, timestamp)[CMD_HEADER_SIZE..] == Frames(ms, timestamp)
  {
    assert Packed(ms, timestamp)[..4] == BigEndian(CMD_POST_SEND, 4);
    Uint32Width();
    BigEndianDecodes(CMD_POST_SEND, 4);
  }

  /** Unpacking a packed batch gives the messages back, whatever follows it in the buffer. */
  lemma RoundTrip(ms: seq<Payload>, timestamp: nat, after: seq<Byte>)
    requires Representable(ms)
    ensures Unpack(Packed(ms, timestamp) + after, BatchBytes(ms)) == Ok(ms)
  {
    var data := Packed(ms, timestamp) + after;
    PackedHeader(ms, timestamp);
    assert data[..4] == Packed(ms, timestamp)[..4];
    assert data[CMD_HEADER_SIZE..BatchBytes(ms)] == Frames(ms, timestamp) + [];
    ParseFrames(ms, timestamp, []);
    assert ms + [] == ms;
  }

  // ---------------------------------------------------------------- single bytes

  /** Four bytes, most significant first. */
  lemma BigEndian4(v: nat)
    ensures BigEndian(v, 4) == [v / 0x100_0000 % 256, v / 0x1_0000 % 256, v / 0x100 % 256, v % 256]
  {
    var a, b, c := v / 256, v / 256 / 256, v / 256 / 256 / 256;
    assert b == v / 0x1_0000 && c == v / 0x100_0000;
    assert BigEndian(c, 1) == [c % 256];
    assert BigEndian(b, 2) == [c % 256, b % 256];
    assert BigEndian(a, 3) == [c % 256, b % 256, a % 256];
  }

  /** The upper four bytes of eight come first, then the lower four. */
  lemma BigEndian8(v: nat)
    ensures BigEndian(v, 8) == BigEndian(v / UINT32_LIMIT, 4) + BigEndian(v, 4)
  {
    var a, b, c, d := v / 256, v / 256 / 256, v / 256 / 256 / 256, v / 256 / 256 / 256 / 256;
    assert d == v / UINT32_LIMIT;
    assert BigEndian(c, 5) == BigEndian(d, 4) + [c % 256] && BigEndian(c, 1) == [c % 256];
    assert BigEndian(b, 6) == BigEndian(d, 4) + ([c % 256] + [b % 256]) && BigEndian(b, 2) == [c % 256] + [b % 256];
    assert BigEndian(a, 7) == BigEndian(d, 4) + (BigEndian(b, 2) + [a % 256]);
  }

  /** The command header byte by byte: the type, most significant byte first, and zeros. */
  lemma HeaderBytes(ms: seq<Payload>, timestamp: nat)
    ensures Packed(ms, timestamp)[..CMD_HEADER_SIZE] == [0, 0, 0, 230, 0, 0, 0, 0, 0, 0, 0, 0]
  {
    BigEndian4(CMD_POST_SEND);
    BigEndian4(0);
  }

  /** Each message of a batch sits where the sizes before it say: the packing time in eight bytes and its
      length in four, both most significant byte first, and its payload. */
  lemma MessageBytes(ms: seq<Payload>, timestamp: nat, i: nat)
    requires i < |ms| && Representable(ms) && timestamp < UINT32_LIMIT * UINT32_LIMIT
    ensures BatchBytes(ms[..i]) + APP_HEADER_SIZE + |ms[i]| <= BatchBytes(ms)
    ensures var (p, o, n) := (Packed(ms, timestamp), BatchBytes(ms[..i]), |ms[i]|);
      && p[o..o + 4] == BigEndian(timestamp / UINT32_LIMIT, 4) && p[o + 4..o + 8] == BigEndian(timestamp, 4)
      && p[o + 8..o + 12] == [n / 0x100_0000, n / 0x1_0000 % 256, n / 0x100 % 256, n % 256]
      && p[o + 12..o + 12 + n] == ms[i]
      && BigEndianValue(p[o..o + 8]) == timestamp
  {
    hide Packed, Frame, FramedSize, BigEndian, BigEndianValue;
    var p, o, n := Packed(ms, timestamp), BatchBytes(ms[..i]), |ms[i]|;
    FrameAt(ms, timestamp, i);
    FrameBytes(ms[i], timestamp);
    var end := o + APP_HEADER_SIZE + n;
    SubRange(p, o, end, 0, 4);
    SubRange(p, o, end, 4, 8);
    SubRange(p, o, end, 0, 8);
    SubRange(p, o, end, 8, 12);
    SubRange(p, o, end, 12, 12 + n);
  }

  lemma FrameAt(ms: seq<Payload>, timestamp: nat, i: nat)
    requires i < |ms|
    ensures var (o, n) := (BatchBytes(ms[..i]), |ms[i]|);
      && o + APP_HEADER_SIZE + n <= BatchBytes(ms)
      && Packed(ms, timestamp)[o..o + APP_HEADER_SIZE + n] == Frame(ms[i], timestamp)
  {
    hide Packed, Frames, Frame, FramedSize;
    PackPrefix(ms, i, timestamp);
    PackedSplit(ms, timestamp, i + 1);
    Middle(Packed(ms[..i], timestamp), Frame(ms[i], timestamp), Frames(ms[i + 1..], timestamp));
  }

  lemma PackedSplit(ms: seq<Payload>, timestamp: nat, i: nat)
    requires i <= |ms|
    ensures Packed(ms, timestamp) == Packed(ms[..i], timestamp) + Frames(ms[i..], timestamp)
  {
    hide Frames, FramedSize;
    assert ms == ms[..i] + ms[i..];
    FramesConcat(ms[..i], ms[i..], timestamp);
    Regroup(CmdHeader(CMD_POST_SEND), Frames(ms[..i], timestamp), Frames(ms[i..], timestamp));
  }

  lemma Middle(a: seq<Byte>, b: seq<Byte>, c: seq<Byte>)
    ensures (a + b + c)[|a|..|a| + |b|] == b
  {
  }

  lemma FrameBytes(m: Payload, timestamp: nat)
    requires |m| < UINT32_LIMIT && timestamp < UINT32_LIMIT * UINT32_LIMIT
    ensures var (f, n) := (Frame(m, timestamp), |m|);
      && f[..4] == BigEndian(timestamp / UINT32_LIMIT, 4) && f[4..8] == BigEndian(timestamp, 4)
      && f[8..12] == [n / 0x100_0000, n / 0x1_0000 % 256, n / 0x100 % 256, n % 256]
      && f[12..12 + n] == m && BigEndianValue(f[..8]) == timestamp
  {
    hide Frame, BigEndian, BigEndianValue;
    FrameParts(m, timestamp);
    TimestampBytes(timestamp);
    LengthBytes(|m|);
    var f := Frame(m, timestamp);
    assert f[..4] == f[..8][..4] && f[4..8] == f[..8][4..];
  }

  lemma FrameParts(m: Payload, timestamp: nat)
    ensures var f := Frame(m, timestamp);
      f[..8] == BigEndian(timestamp, 8) && f[8..12] == BigEndian(|m|, 4) && f[12..12 + |m|] == m
  {
    hide BigEndian;
  }

  lemma TimestampBytes(timestamp: nat)
    requires timestamp < UINT32_LIMIT * UINT32_LIMIT
    ensures var b := BigEndian(timestamp, 8);
      && b[..4] == BigEndian(timestamp / UINT32_LIMIT, 4) && b[4..] == BigEndian(timestamp, 4)
      && BigEndianValue(b) == timestamp
  {
    hide BigEndian, BigEndianValue;
    BigEndian8(timestamp);
    Uint64Width();
    BigEndianDecodes(timestamp, 8);
  }

  lemma LengthBytes(n: nat)
    requires n < UINT32_LIMIT
    ensures BigEndian(n, 4) == [n / 0x100_0000, n / 0x1_0000 % 256, n / 0x100 % 256, n % 256]
  {
    BigEndian4(n);
  }

  lemma Uint64Width()
    ensures Pow256(8) == UINT32_LIMIT * UINT32_LIMIT
  {
    Uint32Width();
    assert Pow256(5) == 256 * UINT32_LIMIT;
    assert Pow256(6) == 256 * 256 * UINT32_LIMIT;
    assert Pow256(7) == 256 * 256 * 256 * UINT32_LIMIT;
  }

  // ---------------------------------------------------------------- truncation

  /** The first `l` bytes of the framed messages parse exactly when `l` is a message boundary. */
  lemma {:induction false} ParseTruncatedFrames(ms: seq<Payload>, timestamp: nat, l: nat)
    requires Representable(ms) && l <= FramedSize(ms)
    ensures forall k | 0 <= k <= |ms| ::
      FramedSize(ms[..k]) == l ==> Parse(Frames(ms, timestamp)[..l]) == Ok(ms[..k])
    ensures (forall k | 0 <= k <= |ms| :: FramedSize(ms[..k]) != l)
      ==> Parse(Frames(ms, timestamp)[..l]) == Err(InvalidBatch)
  {
    var b := Frames(ms, timestamp)[..l];
    if l == 0 {
      forall k | 0 <= k <= |ms| && FramedSize(ms[..k]) == 0 ensures ms[..k] == [] {
      }
      assert FramedSize(ms[..0]) == 0;
    } else {
      var m, rest := ms[0], Frames(ms[1..], timestamp);
      FrameFields(m, timestamp, rest);
      var whole := Frame(m, timestamp) + rest;
      assert forall k | 1 <= k <= |ms| :: ms[..k] == [m] + ms[1..][..k - 1];
      assert forall k | 1 <= k <= |ms| ::
        FramedSize(ms[..k]) == APP_HEADER_SIZE + |m| + FramedSize(ms[1..][..k - 1]);
      if l >= APP_HEADER_SIZE {
        assert b[8..12] == whole[8..12];
      }
      if l >= APP_HEADER_SIZE + |m| {
        var l' := l - APP_HEADER_SIZE - |m|;
        assert b[12..12 + |m|] == m;
        assert b[12 + |m|..] == rest[..l'];
        ParseTruncatedFrames(ms[1..], timestamp, l');
        forall k | 0 <= k <= |ms| && FramedSize(ms[..k]) == l
          ensures Parse(b) == Ok(ms[..k])
        {
          assert k > 0;
          assert FramedSize(ms[1..][..k - 1]) == l';
        }
        if forall k | 0 <= k <= |ms| :: FramedSize(ms[..k]) != l {
          forall k | 0 <= k <= |ms[1..]| ensures FramedSize(ms[1..][..k]) != l' {
            assert FramedSize(ms[..k + 1]) != l;
          }
        }
      }
    }
  }

  /** For every length up to the packed size, the truncated batch unpacks iff the cut is a message
      boundary, and then to exactly the messages before it; every other cut is an invalid batch. */
  lemma Truncation(ms: seq<Payload>, timestamp: nat, l: nat)
    requires Representable(ms) && l <= BatchBytes(ms)
    ensures forall k | 0 <= k <= |ms| ::
      BatchBytes(ms[..k]) == l ==> Unpack(Packed(ms, timestamp), l) == Ok(ms[..k])
    ensures (forall k | 0 <= k <= |ms| :: BatchBytes(ms[..k]) != l)
      ==> Unpack(Packed(ms, timestamp), l) == Err(InvalidBatch)
  {
    if l >= CMD_HEADER_SIZE {
      var l' := l - CMD_HEADER_SIZE;
      PackedHeader(ms, timestamp);
      assert Packed(ms, timestamp)[CMD_HEADER_SIZE..l] == Frames(ms, timestamp)[..l'];
      ParseTruncatedFrames(ms, timestamp, l');
      if forall k | 0 <= k <= |ms| :: BatchBytes(ms[..k]) != l {
        forall k | 0 <= k <= |ms| ensures FramedSize(ms[..k]) != l' {
          assert BatchBytes(ms[..k]) != l;
        }
      }
    }
  }

  /** A batch cut off at the end of a buffer unpacks to its messages iff it was not cut, and otherwise
      to fewer of them or to none. */
  lemma ClippedUnpacks(ms: seq<Payload>, timestamp: nat, room: nat)
    requires Representable(ms) && ms != []
    ensures var c := Clipped(Packed(ms, timestamp), room);
      var r := Unpack(c, |c|);
      && (r == Ok(ms) <==> BatchBytes(ms) <= room)
      && (r.Ok? ==> |r.value| <= |ms|) && (r.Ok? && |r.value| == |ms| ==> r.value == ms)
  {
    var p := Packed(ms, timestamp);
    var c := Clipped(p, room);
    Truncation(ms, timestamp, |c|);
    if BatchBytes(ms) <= room {
      assert ms[..|ms|] == ms;
    } else {
      CutUnpacks(p, room);
      assert ms[..|ms|] == ms;
      assert forall k | 0 <= k <= |ms| :: |ms[..k]| == k;
    }
  }

  lemma CutUnpacks(data: seq<Byte>, length: nat)
    requires length <= |data|
    ensures Unpack(data[..length], length) == Unpack(data, length)
  {
    if length >= CMD_HEADER_SIZE {
      assert data[..length][..4] == data[..4];
      assert data[..length][CMD_HEADER_SIZE..length] == data[CMD_HEADER_SIZE..length];
    }
  }

  // ---------------------------------------------------------------- arbitrary input

  /** The grammar of the part after the command header, independent of the parser: each message is
      eight free bytes, its length in four bytes, and its payload. */
  ghost predicate IsFramed(b: seq<Byte>, ms: seq<Payload>)
    decreases |ms|
  {
    if ms == [] then b == []
    else
      && APP_HEADER_SIZE + |ms[0]| <= |b|
      && |ms[0]| < UINT32_LIMIT
      && b[8..12] == BigEndian(|ms[0]|, 4)
      && b[12..12 + |ms[0]|] == ms[0]
      && IsFramed(b[12 + |ms[0]|..], ms[1..])
  }

  lemma {:induction false} ParseIsGrammar(b: seq<Byte>, ms: seq<Payload>)
    ensures Parse(b) == Ok(ms) <==> IsFramed(b, ms)
    decreases |b|
  {
    if |b| < APP_HEADER_SIZE {
    } else {
      var size := BigEndianValue(b[8..12]);
      BigEndianEncodes(b[8..12]);
      Uint32Width();
      if ms != [] && |ms[0]| < UINT32_LIMIT {
        BigEndianDecodes(|ms[0]|, 4);
      }
      if APP_HEADER_SIZE + size <= |b| {
        var tail := b[12 + size..];
        if ms != [] {
          ParseIsGrammar(tail, ms[1..]);
          if Parse(b) == Ok(ms) {
            assert [b[12..12 + size]] + Parse(tail).value == ms;
            assert ms[0] == b[12..12 + size];
            assert ms[1..] == Parse(tail).value;
          }
          if IsFramed(b, ms) {
            assert [ms[0]] + ms[1..] == ms;
          }
        }
      }
    }
  }

  lemma {:induction false} ParseFailsOneWay(b: seq<Byte>)
    ensures Parse(b).Err? ==> Parse(b).error == InvalidBatch
    decreases |b|
  {
    if |b| < APP_HEADER_SIZE {
    } else {
      var size := BigEndianValue(b[8..12]);
      if APP_HEADER_SIZE + size <= |b| {
        ParseFailsOneWay(b[12 + size..]);
      }
    }
  }

  /** The parser accepts `length` bytes as `ms` iff they are a command header of type PostSend and
      framed messages; it reports an unknown command iff a whole header holds another type. */
  lemma ParserExact(data: seq<Byte>, length: int, ms: seq<Payload>)
    requires length <= |data|
    ensures Unpack(data, length) == Ok(ms) <==>
      && CMD_HEADER_SIZE <= length
      && data[..4] == BigEndian(CMD_POST_SEND, 4)
      && IsFramed(data[CMD_HEADER_SIZE..length], ms)
    ensures Unpack(data, length) == Err(UnknownCommand) <==>
      CMD_HEADER_SIZE <= length && data[..4] != BigEndian(CMD_POST_SEND, 4)
  {
    if CMD_HEADER_SIZE <= length {
      BigEndianEncodes(data[..4]);
      Uint32Width();
      BigEndianDecodes(CMD_POST_SEND, 4);
      ParseIsGrammar(data[CMD_HEADER_SIZE..length], ms);
      ParseFailsOneWay(data[CMD_HEADER_SIZE..length]);
    }
  }

  /** All of `b` is a batch of exactly these messages, by the grammar. */
  ghost predicate IsBatch(b: seq<Byte>, ms: seq<Payload>)
  {
    CMD_HEADER_SIZE <= |b| && b[..4] == BigEndian(CMD_POST_SEND, 4) && IsFramed(b[CMD_HEADER_SIZE..], ms)
  }

  lemma UnpacksIffBatch(b: seq<Byte>, ms: seq<Payload>)
    ensures Unpack(b, |b|) == Ok(ms) <==> IsBatch(b, ms)
  {
    ParserExact(b, |b|, ms);
    if CMD_HEADER_SIZE <= |b| {
      assert b[CMD_HEADER_SIZE..|b|] == b[CMD_HEADER_SIZE..];
    }
  }

  /** What the packer writes is a batch of its messages, and of no others. */
  lemma PackedIsBatch(ms: seq<Payload>, timestamp: nat)
    requires Representable(ms)
    ensures IsBatch(Packed(ms, timestamp), ms)
    ensures forall other :: IsBatch(Packed(ms, timestamp), other) ==> other == ms
  {
    var p := Packed(ms, timestamp);
    RoundTrip(ms, timestamp, []);
    assert p + [] == p;
    UnpacksIffBatch(p, ms);
    forall other ensures IsBatch(p, other) ==> other == ms {
      UnpacksIffBatch(p, other);
    }
  }

  /** Byte `i` of a batch is not determined by its messages: a reserved byte of the command header
      or a byte of some message's timestamp. */
  ghost predicate FreeByte(ms: seq<Payload>, i: int)
  {
    4 <= i < CMD_HEADER_SIZE || TimestampByte(ms, i - CMD_HEADER_SIZE)
  }

  /** Offset `i` of the framed messages lies in the timestamp of one of them. */
  ghost predicate TimestampByte(ms: seq<Payload>, i: int)
  {
    exists k | 0 <= k < |ms| :: FramedSize(ms[..k]) <= i < FramedSize(ms[..k]) + 8
  }

  lemma {:induction false} GrammarFixesBytes(b: seq<Byte>, ms: seq<Payload>, timestamp: nat)
    requires IsFramed(b, ms)
    ensures |b| == FramedSize(ms)
    ensures forall i | 0 <= i < |b| :: b[i] == Frames(ms, timestamp)[i] || TimestampByte(ms, i)
    decreases |ms|
  {
    if ms == [] {
    } else {
      var m := ms[0];
      var n := APP_HEADER_SIZE + |m|;
      GrammarFixesBytes(b[n..], ms[1..], timestamp);
      forall i | 0 <= i < |b|
        ensures b[i] == Frames(ms, timestamp)[i] || TimestampByte(ms, i)
      {
        if i < 8 {
          assert FramedSize(ms[..0]) == 0;
        } else if i < 12 {
          assert b[i] == b[8..12][i - 8];
        } else if i < n {
          assert b[i] == b[12..12 + |m|][i - 12];
        } else if b[n..][i - n] != Frames(ms[1..], timestamp)[i - n] {
          var k :| 0 <= k < |ms[1..]| && FramedSize(ms[1..][..k]) <= i - n < FramedSize(ms[1..][..k]) + 8;
          assert ms[..k + 1] == [m] + ms[1..][..k];
          assert FramedSize(ms[..k + 1]) == n + FramedSize(ms[1..][..k]);
        }
      }
    }
  }

  /** An accepted input has exactly the packed size of its messages, and packing them again
      reproduces it except for reserved and timestamp bytes. */
  lemma Repack(data: seq<Byte>, length: int, ms: seq<Payload>, timestamp: nat)
    requires length <= |data| && Unpack(data, length) == Ok(ms)
    ensures length == BatchBytes(ms)
    ensures forall i | 0 <= i < length :: data[i] == Packed(ms, timestamp)[i] || FreeByte(ms, i)
  {
    ParserExact(data, length, ms);
    var b := data[CMD_HEADER_SIZE..length];
    GrammarFixesBytes(b, ms, timestamp);
    forall i | 0 <= i < length ensures data[i] == Packed(ms, timestamp)[i] || FreeByte(ms, i) {
      if i < 4 {
        assert data[i] == data[..4][i];
      } else if i >= CMD_HEADER_SIZE && b[i - 12] != Frames(ms, timestamp)[i - 12] {
        assert TimestampByte(ms, i - 12);
      }
    }
  }
}
