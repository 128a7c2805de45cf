/** WebSocket frames of the probe server (research/cdpfree-probe.ts): the text encoder,
    the incremental parser and the receive buffer. Formats per RFC 6455 sections 5.2 and 5.3.

    A byte is an integer below 256: `b & 0x0f` is b % 16, `b & 0x80` tests b >= 128
    and `b & 0x7f` is b % 128. */
module WebSocketFrames {
  import opened Common

  type Byte = b: int | 0 <= b < 256
  type Bytes = seq<Byte>

  datatype Frame = Frame(opcode: int, payload: Bytes)
  datatype Parsed = Parsed(frames: seq<Frame>, rest: Bytes)

  const TEXT := 1
  const CLOSE := 8
  const PING := 9
  const PONG := 10

  // ---- big-endian integers ----

  function Pow256(n: nat): nat {
    if n == 0 then 1 else 256 * Pow256(n - 1)
  }

  /** writeUInt16BE and writeBigUInt64BE, for n = 2 and n = 8. */
  function WriteBE(n: nat, value: nat): (r: Bytes)
    ensures |r| == n
  {
    if n == 0 then [] else WriteBE(n - 1, value / 256) + [value % 256]
  }

  function ReadBE(s: Bytes): nat {
    if s == [] then 0 else 256 * ReadBE(s[..|s| - 1]) + s[|s| - 1]
  }

  lemma {:induction false} ReadWrite(n: nat, value: nat)
    requires value < Pow256(n)
    ensures ReadBE(WriteBE(n, value)) == value
  {
    if n > 0 {
      ReadWrite(n - 1, value / 256);
      assert WriteBE(n, value)[..n - 1] == WriteBE(n - 1, value / 256);
    }
  }

  /** The first byte is the most significant one. */
  lemma {:induction false} BigEndian(first: Byte, s: Bytes)
    ensures ReadBE([first] + s) == first * Pow256(|s|) + ReadBE(s)
    decreases |s|
  {
    if s == [] {
      assert [first][..0] == [];
    } else {
      var front, last := s[..|s| - 1], s[|s| - 1];
      BigEndian(first, front);
      assert ([first] + s)[..|s|] == [first] + front;
      assert first * Pow256(|s|) == 256 * (first * Pow256(|front|));
    }
  }

  // ---- masking ----

  /** Bitwise exclusive or of the low n bits. */
  function Xor(x: nat, y: nat, n: nat): nat {
    if n == 0 then 0 else 2 * Xor(x / 2, y / 2, n - 1) + (x % 2 + y % 2) % 2
  }

  function Pow2(n: nat): nat {
    if n == 0 then 1 else 2 * Pow2(n - 1)
  }

  lemma XorDigits(half: nat, bit: nat, y: nat, n: nat)
    requires bit < 2
    ensures Xor(2 * half + bit, y, n + 1) == 2 * Xor(half, y / 2, n) + (bit + y % 2) % 2
  {
    assert (2 * half + bit) / 2 == half && (2 * half + bit) % 2 == bit;
  }

  lemma ParityTwice(a: nat, b: nat)
    requires a < 2 && b < 2
    ensures ((a + b) % 2 + b) % 2 == a
  {
  }

  lemma Halves(x: nat)
    ensures x == 2 * (x / 2) + x % 2
  {
  }

  lemma XorStep(x: nat, y: nat, n: nat)
    ensures Xor(x, y, n + 1) == 2 * Xor(x / 2, y / 2, n) + (x % 2 + y % 2) % 2
  {
  }

  lemma {:induction false} XorTwice(x: nat, y: nat, n: nat)
    requires x < Pow2(n)
    ensures Xor(x, y, n) < Pow2(n) && Xor(Xor(x, y, n), y, n) == x
  {
    if n > 0 {
      var p, half, bit := Pow2(n - 1), Xor(x / 2, y / 2, n - 1), (x % 2 + y % 2) % 2;
      assert Pow2(n) == 2 * p;
      hide *;
      Halves(x);
      XorTwice(x / 2, y / 2, n - 1);
      XorStep(x, y, n - 1);
      XorDigits(half, bit, y, n - 1);
      ParityTwice(x % 2, y % 2);
    }
  }

  /** Bit i of a number. */
  function Bit(x: nat, i: nat): nat {
    if i == 0 then x % 2 else Bit(x / 2, i - 1)
  }

  /** Each bit tells whether the bits of the operands differ. */
  lemma {:induction false} XorBits(x: nat, y: nat, n: nat, i: nat)
    requires i < n
    ensures Bit(Xor(x, y, n), i) == if Bit(x, i) != Bit(y, i) then 1 else 0
    decreases i
  {
    var half, bit := Xor(x / 2, y / 2, n - 1), (x % 2 + y % 2) % 2;
    assert (2 * half + bit) / 2 == half && (2 * half + bit) % 2 == bit;
    if i > 0 { XorBits(x / 2, y / 2, n - 1, i - 1); }
  }

  function XorByte(x: Byte, y: Byte): (r: Byte)
    ensures XorBack(r, y) == x
  {
    assert Pow2(8) == 256;
    XorTwice(x, y, 8);
    Xor(x, y, 8)
  }

  ghost function XorBack(x: int, y: Byte): int {
    if 0 <= x then Xor(x, y, 8) else -1
  }

  /** Octet i of the data is combined with octet i mod 4 of the key (section 5.3). */
  function Masked(payload: Bytes, key: Bytes): (r: Bytes)
    requires |key| == 4
    ensures |r| == |payload| && forall i :: 0 <= i < |r| ==> r[i] == XorByte(payload[i], key[i % 4])
  {
    seq(|payload|, i requires 0 <= i < |payload| => XorByte(payload[i], key[i % 4]))
  }

  /** Masking twice with one key restores the data. */
  lemma MaskTwice(payload: Bytes, key: Bytes)
    requires |key| == 4
    ensures Masked(Masked(payload, key), key) == payload
  {
    forall i | 0 <= i < |payload| ensures Masked(Masked(payload, key), key)[i] == payload[i] {
      assert Masked(payload, key)[i] == XorByte(payload[i], key[i % 4]);
    }
  }

  // ---- one frame ----

  /** Where a frame's payload lies, if all of the frame has arrived. */
  datatype Extent = Extent(opcode: int, masked: bool, start: nat, length: nat)

  /** The second byte and the extended length: position after them, and the payload length. */
  function LengthField(b: Bytes): Option<(nat, nat)> {
    if |b| < 2 then None
    else
      var short := b[1] % 128;
      if short == 126 then
        if 4 > |b| then None else Some((4, ReadBE(b[2..4])))
      else if short == 127 then
        if 10 > |b| then None else Some((10, ReadBE(b[2..10])))
      else Some((2, short))
  }

  function FindFrame(b: Bytes): (r: Option<Extent>)
    ensures r.Some? ==> 2 <= r.value.start && r.value.start + r.value.length <= |b|
    ensures r.Some? && r.value.masked ==> 6 <= r.value.start
  {
    var field := LengthField(b);
    if field.None? then None
    else
      var (cursor, length) := field.value;
      var masked := b[1] >= 128;
      var maskLength := if masked then 4 else 0;
      if cursor + maskLength + length > |b| then None
      else Some(Extent(b[0] % 16, masked, cursor + maskLength, length))
  }

  function FrameIn(b: Bytes, e: Extent): Frame
    requires e.start + e.length <= |b| && (e.masked ==> 4 <= e.start)
  {
    var payload := b[e.start..e.start + e.length];
    Frame(e.opcode, if e.masked then Masked(payload, b[e.start - 4..e.start]) else payload)
  }

  // ---- the parser ----

  /** Take complete frames off the front until what is left is incomplete. */
  function Parse(b: Bytes): Parsed
    decreases |b|
  {
    match FindFrame(b)
    case None => Parsed([], b)
    case Some(e) =>
      var rest := Parse(b[e.start + e.length..]);
      Parsed([FrameIn(b, e)] + rest.frames, rest.rest)
  }

  /** frames are those of buffer[..offset], and parsing goes on at offset. */
  ghost predicate ParsedUpTo(buffer: Bytes, offset: nat, frames: seq<Frame>) {
    && offset <= |buffer|
    && Parse(buffer) == Parsed(frames + Parse(buffer[offset..]).frames, Parse(buffer[offset..]).rest)
  }

  lemma ParseStart(buffer: Bytes)
    ensures ParsedUpTo(buffer, 0, [])
  {
    assert buffer[0..] == buffer;
  }

  lemma ParseStep(buffer: Bytes, offset: nat, frames: seq<Frame>, e: Extent)
    requires ParsedUpTo(buffer, offset, frames) && FindFrame(buffer[offset..]) == Some(e)
    ensures ParsedUpTo(buffer, offset + e.start + e.length, frames + [FrameIn(buffer[offset..], e)])
  {
    hide FindFrame, FrameIn;
    ParseFirst(buffer[offset..], e);
    hide Parse;
    var next := offset + e.start + e.length;
    assert buffer[offset..][e.start + e.length..] == buffer[next..];
    var f, more := FrameIn(buffer[offset..], e), Parse(buffer[next..]).frames;
    assert frames + ([f] + more) == frames + [f] + more;
  }

  lemma ParseEnd(buffer: Bytes, offset: nat, frames: seq<Frame>)
    requires ParsedUpTo(buffer, offset, frames) && FindFrame(buffer[offset..]).None?
    ensures Parse(buffer) == Parsed(frames, buffer[offset..])
  {
  }

  /** The header at `offset`, read in place; None when the header or the payload is cut off. */
  method ReadHeader(buffer: Bytes, offset: nat) returns (r: Option<Extent>)
    requires offset <= |buffer|
    ensures r == FindFrame(buffer[offset..])
  {
    ghost var b := buffer[offset..];
    if offset + 2 > |buffer| { return None; }
    var opcode := buffer[offset] % 16;
    var masked := buffer[offset + 1] >= 128;
    var length: nat := buffer[offset + 1] % 128;
    var cursor := offset + 2;
    if length == 126 {
      if cursor + 2 > |buffer| { return None; }
      assert buffer[cursor..cursor + 2] == b[2..4];
      length := ReadBE(buffer[cursor..cursor + 2]);
      cursor := cursor + 2;
    } else if length == 127 {
      if cursor + 8 > |buffer| { return None; }
      assert buffer[cursor..cursor + 8] == b[2..10];
      length := ReadBE(buffer[cursor..cursor + 8]);
      cursor := cursor + 8;
    }
    var maskLength := if masked then 4 else 0;
    if cursor + maskLength + length > |buffer| { return None; }
    return Some(Extent(opcode, masked, cursor + maskLength - offset, length));
  }

  lemma SliceOfRest(buffer: Bytes, offset: nat, from: nat, to: nat)
    requires from <= to && offset + to <= |buffer|
    ensures buffer[offset..][from..to] == buffer[offset + from..offset + to]
  {
  }

  lemma FoundInside(b: Bytes, e: Extent)
    requires FindFrame(b) == Some(e)
    ensures e.start + e.length <= |b| && (e.masked ==> 4 <= e.start)
  {
    hide LengthField;
  }

  lemma FrameInPlace(buffer: Bytes, offset: nat, e: Extent)
    requires offset <= |buffer| && FindFrame(buffer[offset..]) == Some(e)
    ensures offset + e.start + e.length <= |buffer| && (e.masked ==> 4 <= e.start)
    ensures var start := offset + e.start;
      var payload := buffer[start..start + e.length];
      FrameIn(buffer[offset..], e)
        == Frame(e.opcode, if e.masked then Masked(payload, buffer[start - 4..start]) else payload)
  {
    hide LengthField, Masked, ReadBE;
    FoundInside(buffer[offset..], e);
    hide FindFrame;
    var start := offset + e.start;
    SliceOfRest(buffer, offset, e.start, e.start + e.length);
    if e.masked { SliceOfRest(buffer, offset, e.start - 4, e.start); }
  }

  method ParseFrames(buffer: Bytes) returns (frames: seq<Frame>, rest: Bytes)
    ensures Parsed(frames, rest) == Parse(buffer)
  {
    hide *;
    frames := [];
    var offset := 0;
    ParseStart(buffer);
    var found := ReadHeader(buffer, offset);
    while found.Some?
      invariant 0 <= offset <= |buffer| && found == FindFrame(buffer[offset..])
      invariant ParsedUpTo(buffer, offset, frames)
      decreases |buffer| - offset
    {
      var e := found.value;
      FrameInPlace(buffer, offset, e);
      ParseStep(buffer, offset, frames, e);
      var start := offset + e.start;
      var payload := buffer[start..start + e.length];
      if e.masked {
        payload := Unmask(payload, buffer[start - 4..start]);
      }
      frames := frames + [Frame(e.opcode, payload)];
      offset := start + e.length;
      found := ReadHeader(buffer, offset);
    }
    ParseEnd(buffer, offset, frames);
    rest := buffer[offset..];
  }

  method Unmask(payload: Bytes, key: Bytes) returns (unmasked: Bytes)
    requires |key| == 4
    ensures unmasked == Masked(payload, key)
  {
    unmasked := [];
    for i := 0 to |payload|
      invariant |unmasked| == i && forall j :: 0 <= j < i ==> unmasked[j] == XorByte(payload[j], key[j % 4])
    {
      unmasked := unmasked + [XorByte(payload[i], key[i % 4])];
    }
  }

  // ---- chunking ----

  lemma SliceOfStart(a: Bytes, b: Bytes, from: nat, to: nat)
    requires from <= to <= |a|
    ensures (a + b)[from..to] == a[from..to]
  {
  }

  lemma LengthFieldStays(a: Bytes, b: Bytes)
    requires LengthField(a).Some?
    ensures LengthField(a + b) == LengthField(a)
  {
    hide ReadBE;
    assert (a + b)[1] == a[1];
    if a[1] % 128 == 126 { SliceOfStart(a, b, 2, 4); }
    if a[1] % 128 == 127 { SliceOfStart(a, b, 2, 10); }
  }

  lemma FoundStays(a: Bytes, b: Bytes)
    requires FindFrame(a).Some?
    ensures FindFrame(a + b) == FindFrame(a)
  {
    LengthFieldStays(a, b);
    LengthNeedsTwo(a);
    hide LengthField;
    assert (a + b)[0] == a[0] && (a + b)[1] == a[1];
  }

  lemma LengthNeedsTwo(b: Bytes)
    requires LengthField(b).Some?
    ensures |b| >= 2
  {
  }

  /** Bytes that arrive later do not change a frame that was complete. */
  lemma CompleteStaysComplete(a: Bytes, b: Bytes)
    requires FindFrame(a).Some?
    ensures FindFrame(a + b) == FindFrame(a) && FrameIn(a + b, FindFrame(a).value) == FrameIn(a, FindFrame(a).value)
  {
    hide LengthField, Masked;
    var e := FindFrame(a).value;
    FoundStays(a, b);
    FoundInside(a, e);
    hide FindFrame;
    SliceOfStart(a, b, e.start, e.start + e.length);
    if e.masked { SliceOfStart(a, b, e.start - 4, e.start); }
  }

  lemma ParseNone(b: Bytes)
    requires FindFrame(b).None?
    ensures Parse(b) == Parsed([], b)
  {
  }

  lemma ParseFirst(b: Bytes, e: Extent)
    requires FindFrame(b) == Some(e)
    ensures Parse(b) == Parsed([FrameIn(b, e)] + Parse(b[e.start + e.length..]).frames, Parse(b[e.start + e.length..]).rest)
  {
    hide FindFrame, FrameIn;
  }

  /** Parsing does not depend on how the bytes are cut into chunks. */
  lemma {:induction false} ChunkingIsIrrelevant(a: Bytes, b: Bytes)
    ensures Parse(a + b) == Parsed(Parse(a).frames + Parse(Parse(a).rest + b).frames, Parse(Parse(a).rest + b).rest)
    decreases |a|
  {
    hide *;
    if FindFrame(a).None? {
      ParseNone(a);
    } else {
      var e := FindFrame(a).value;
      var n := e.start + e.length;
      CompleteStaysComplete(a, b);
      ParseFirst(a, e);
      ParseFirst(a + b, e);
      ChunkingIsIrrelevant(a[n..], b);
      assert (a + b)[n..] == a[n..] + b;
      var f, xs, ys := FrameIn(a, e), Parse(a[n..]).frames, Parse(Parse(a[n..]).rest + b).frames;
      assert [f] + (xs + ys) == [f] + xs + ys;
    }
  }

  /** A parse leaves no complete frame behind. */
  lemma {:induction false} RestIsIncomplete(b: Bytes)
    ensures FindFrame(Parse(b).rest).None?
    decreases |b|
  {
    match FindFrame(b)
    case None =>
    case Some(e) => RestIsIncomplete(b[e.start + e.length..]);
  }

  // ---- encoding and round trips ----

  /** The wire form of a final frame (section 5.2), masked when a key is given. */
  function Wire(opcode: nat, payload: Bytes, key: Option<Bytes>): Bytes
    requires opcode < 16 && (key.Some? ==> |key.value| == 4)
  {
    var mask := if key.Some? then 128 else 0;
    var n := |payload|;
    [128 + opcode]
    + (if n < 126 then [mask + n]
       else if n < 65536 then [mask + 126] + WriteBE(2, n)
       else [mask + 127] + WriteBE(8, n))
    + if key.Some? then key.value + Masked(payload, key.value) else payload
  }

  const MAX_LENGTH := 0x1_0000_0000_0000_0000

  lemma PowersOf256()
    ensures Pow256(2) == 65536 && Pow256(8) == MAX_LENGTH
  {
    assert Pow256(4) == 256 * 256 * Pow256(2);
    assert Pow256(6) == 256 * 256 * Pow256(4);
    assert Pow256(8) == 256 * 256 * Pow256(6);
  }

  method EncodeText(payload: Bytes) returns (r: Bytes)
    requires |payload| < MAX_LENGTH
    ensures r == Wire(TEXT, payload, None)
    ensures var n := |payload|;
      && |r| >= 2 && r[0] == 0x81
      && (n < 126 ==> r[1..] == [n] + payload)
      && (126 <= n < 65536 ==> |r| == 4 + n && r[1] == 126 && ReadBE(r[2..4]) == n && r[4..] == payload)
      && (65536 <= n ==> |r| == 10 + n && r[1] == 127 && ReadBE(r[2..10]) == n && r[10..] == payload)
  {
    var length := |payload|;
    var header: Bytes;
    if length < 126 {
      header := [0x81, length];
    } else if length < 65536 {
      header := [0x81, 126] + WriteBE(2, length);
    } else {
      header := [0x81, 127] + WriteBE(8, length);
    }
    r := header + payload;
    PowersOf256();
    if 126 <= length < 65536 {
      ReadWrite(2, length);
      assert r[2..4] == WriteBE(2, length);
    } else if 65536 <= length {
      ReadWrite(8, length);
      assert r[2..10] == WriteBE(8, length);
    }
  }

  /** Size of the header of a wire form, mask key included. */
  function HeaderSize(n: nat, masked: bool): nat {
    (if n < 126 then 2 else if n < 65536 then 4 else 10) + if masked then 4 else 0
  }

  lemma WireHeader(opcode: nat, payload: Bytes, key: Option<Bytes>, rest: Bytes)
    requires opcode < 16 && (key.Some? ==> |key.value| == 4)
    ensures var b, n := Wire(opcode, payload, key) + rest, |payload|;
      && |b| >= 2 && b[1] == (if key.Some? then 128 else 0) + (if n < 126 then n else if n < 65536 then 126 else 127)
      && (126 <= n < 65536 ==> |b| >= 4 && b[2..4] == WriteBE(2, n))
      && (65536 <= n ==> |b| >= 10 && b[2..10] == WriteBE(8, n))
  {
    hide Masked, ReadBE, WriteBE;
    var b, n := Wire(opcode, payload, key) + rest, |payload|;
    if 126 <= n < 65536 { assert b[2..4] == WriteBE(2, n); }
    if 65536 <= n { assert b[2..10] == WriteBE(8, n); }
  }

  lemma LengthFieldOfWire(opcode: nat, payload: Bytes, key: Option<Bytes>, rest: Bytes)
    requires opcode < 16 && (key.Some? ==> |key.value| == 4) && |payload| < MAX_LENGTH
    ensures LengthField(Wire(opcode, payload, key) + rest)
      == Some((HeaderSize(|payload|, key.Some?) - (if key.Some? then 4 else 0), |payload|))
  {
    hide Masked, ReadBE, WriteBE;
    var b, n := Wire(opcode, payload, key) + rest, |payload|;
    PowersOf256();
    WireHeader(opcode, payload, key, rest);
    hide Wire;
    if 126 <= n < 65536 {
      ReadWrite(2, n);
    } else if 65536 <= n {
      ReadWrite(8, n);
    }
  }

  /** Any payload of any length class parses back, whatever follows it on the wire. */
  lemma WireParses(opcode: nat, payload: Bytes, key: Option<Bytes>, rest: Bytes)
    requires opcode < 16 && (key.Some? ==> |key.value| == 4) && |payload| < MAX_LENGTH
    ensures var w := Wire(opcode, payload, key);
      var e := Extent(opcode, key.Some?, HeaderSize(|payload|, key.Some?), |payload|);
      && e.start + e.length == |w|
      && FindFrame(w + rest) == Some(e) && FrameIn(w + rest, e) == Frame(opcode, payload)
  {
    var b := Wire(opcode, payload, key) + rest;
    var start := HeaderSize(|payload|, key.Some?);
    LengthFieldOfWire(opcode, payload, key, rest);
    if key.Some? {
      assert b[start - 4..start] == key.value;
      assert b[start..start + |payload|] == Masked(payload, key.value);
      MaskTwice(payload, key.value);
    } else {
      assert b[start..start + |payload|] == payload;
    }
  }

  datatype Message = Message(opcode: nat, payload: Bytes, key: Option<Bytes>)

  ghost predicate Sendable(ms: seq<Message>) {
    forall m :: m in ms ==> m.opcode < 16 && (m.key.Some? ==> |m.key.value| == 4) && |m.payload| < MAX_LENGTH
  }

  ghost function Send(ms: seq<Message>): Bytes
    requires Sendable(ms)
  {
    if ms == [] then [] else Wire(ms[0].opcode, ms[0].payload, ms[0].key) + Send(ms[1..])
  }

  ghost function FramesOf(ms: seq<Message>): seq<Frame> {
    seq(|ms|, i requires 0 <= i < |ms| => Frame(ms[i].opcode, ms[i].payload))
  }

  /** Encoded messages followed by an incomplete frame parse back to the messages and that remainder. */
  lemma {:induction false} ParseInvertsSend(ms: seq<Message>, rest: Bytes)
    requires Sendable(ms) && FindFrame(rest).None?
    ensures Parse(Send(ms) + rest) == Parsed(FramesOf(ms), rest)
    decreases |ms|
  {
    hide FindFrame, FrameIn, Wire, Parse;
    if ms == [] {
      assert Send(ms) + rest == rest;
      ParseNone(rest);
    } else {
      var m := ms[0];
      var w := Wire(m.opcode, m.payload, m.key);
      var after := Send(ms[1..]) + rest;
      WireParses(m.opcode, m.payload, m.key, after);
      assert Send(ms) + rest == w + after;
      assert (w + after)[|w|..] == after;
      ParseFirst(w + after, FindFrame(w + after).value);
      ParseInvertsSend(ms[1..], rest);
      assert [Frame(m.opcode, m.payload)] + FramesOf(ms[1..]) == FramesOf(ms);
    }
  }

  // ---- the receive buffer ----

  datatype Action = EndSocket | WritePong(bytes: Bytes) | Deliver(text: Bytes)

  /** The reply to a ping: its length byte is truncated to eight bits. */
  function Pong(payload: Bytes): Bytes {
    [0x8a, |payload| % 256] + payload
  }

  function Response(f: Frame): (r: seq<Action>)
    ensures f.opcode == 0x8 ==> r == [EndSocket]
    ensures f.opcode == 0x9 ==> |r| == 1 && r[0].WritePong? && |r[0].bytes| == |f.payload| + 2
    ensures f.opcode == 0x9 ==> r[0].bytes[0] == 0x8a && r[0].bytes[2..] == f.payload
    ensures f.opcode == 0x1 ==> r == [Deliver(f.payload)]
    ensures f.opcode !in {0x1, 0x8, 0x9} ==> r == []
  {
    if f.opcode == CLOSE then [EndSocket]
    else if f.opcode == PING then [WritePong(Pong(f.payload))]
    else if f.opcode == TEXT then [Deliver(f.payload)]
    else []
  }

  function Responses(frames: seq<Frame>): seq<Action> {
    if frames == [] then [] else Responses(frames[..|frames| - 1]) + Response(frames[|frames| - 1])
  }

  class Connection {
    var buffer: Bytes
    ghost var received: Bytes
    ghost var frames: seq<Frame>

    /** Frames and buffer are what one parse of all bytes received so far would give. */
    ghost predicate Valid()
      reads this
    {
      Parse(received) == Parsed(frames, buffer)
    }

    constructor ()
      ensures Valid() && received == [] && frames == []
    {
      buffer, received, frames := [], [], [];
    }

    method OnData(chunk: Bytes) returns (actions: seq<Action>)
      requires Valid()
      modifies this
      ensures Valid() && received == old(received) + chunk && old(frames) <= frames
      ensures actions == Responses(frames[|old(frames)|..])
    {
      ChunkingIsIrrelevant(received, chunk);
      buffer := buffer + chunk;
      var parsed, rest := ParseFrames(buffer);
      buffer := rest;
      received, frames := received + chunk, frames + parsed;
      assert frames[|old(frames)|..] == parsed;
      actions := Respond(parsed);
    }
  }

  method Respond(frames: seq<Frame>) returns (actions: seq<Action>)
    ensures actions == Responses(frames)
  {
    actions := [];
    for i := 0 to |frames|
      invariant actions == Responses(frames[..i])
    {
      assert frames[..i + 1][..i] == frames[..i];
      actions := actions + Response(frames[i]);
    }
    assert frames[..|frames|] == frames;
  }

  /** The pong of the probe is a well-formed pong with the ping's payload exactly up to
      125 bytes, the limit section 5.5 puts on control frames; above, its length byte is wrong. */
  lemma PongParsesIffShort(payload: Bytes)
    ensures Parse(Pong(payload)) == Parsed([Frame(PONG, payload)], []) <==> |payload| <= 125
  {
    var b := Pong(payload);
    if |payload| <= 125 {
      assert b == Wire(PONG, payload, None);
      WireParses(PONG, payload, None, []);
      assert b + [] == b;
      ParseFirst(b, FindFrame(b).value);
      assert b[|b|..] == [];
    } else if FindFrame(b).None? {
      ParseNone(b);
    } else {
      var e := FindFrame(b).value;
      ParseFirst(b, e);
      assert |FrameIn(b, e).payload| == e.length;
      assert e.start == 2 ==> e.length <= 125;
      assert Parse(b).frames[0] == FrameIn(b, e);
      assert FrameIn(b, e) != Frame(PONG, payload);
    }
  }
}
