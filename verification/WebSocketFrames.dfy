/** WebSocket frames (section 5.2 of RFC 6455) and the messages they carry (section 5.4). */
module WebSocketFrames {
  import opened Wrappers

  type byte = b: int | 0 <= b < 256

  datatype Message = Message(payload: seq<byte>, binary: bool)

  /** How the length is written. */
  datatype Form = Seven | Sixteen | SixtyFour

  datatype Frame = Frame(fin: bool, opcode: byte, form: Form, mask: Option<seq<byte>>, payload: seq<byte>)

  /** The opcodes as the connection names them; what is proved of frames is said in the numbers of section 5.2. */
  const CONTINUATION: byte := 0
  const TEXT: byte := 1
  const BINARY: byte := 2
  const CLOSE: byte := 8
  const PING: byte := 9
  const PONG: byte := 10

  predicate Writable(f: Frame) {
    && f.opcode < 16
    && (f.form.Seven? ==> |f.payload| < 126)
    && (f.form.Sixteen? ==> |f.payload| < 0x1_0000)
    && |f.payload| < 0x1_0000_0000_0000_0000
    && (f.mask.Some? ==> |f.mask.value| == 4)
  }

  // ---------------------------------------------------------------------------------------------
  // Numbers as bytes

  /** The big-endian bytes of a number. */
  function BigEndian(n: nat, count: nat): (r: seq<byte>)
    ensures |r| == count
  {
    if count == 0 then [] else BigEndian(n / 256, count - 1) + [n % 256]
  }

  function Value(bytes: seq<byte>): nat {
    if bytes == [] then 0 else Value(bytes[..|bytes| - 1]) * 256 + bytes[|bytes| - 1]
  }

  function Power256(k: nat): (r: nat)
    ensures r > 0
  {
    if k == 0 then 1 else 256 * Power256(k - 1)
  }

  lemma {:induction false} BigEndianBack(n: nat, count: nat)
    requires n < Power256(count)
    ensures Value(BigEndian(n, count)) == n
    decreases count
  {
    if count > 0 {
      BigEndianBack(n / 256, count - 1);
      var b := BigEndian(n, count);
      assert b[..|b| - 1] == BigEndian(n / 256, count - 1);
    }
  }

  lemma Powers()
    ensures Power256(2) == 0x1_0000 && Power256(8) == 0x1_0000_0000_0000_0000
  {
    assert Power256(2) == 0x1_0000;
    assert Power256(4) == 0x1_0000_0000;
    assert Power256(6) == 0x1_0000_0000_0000;
  }

  // ---------------------------------------------------------------------------------------------
  // Writing frames

  /** Exclusive or, bit by bit. */
  function Xor(a: nat, b: nat): (r: nat)
    ensures forall n: nat :: a < Power2(n) && b < Power2(n) ==> r < Power2(n)
    decreases a + b
  {
    if a == 0 && b == 0 then 0
    else
      var r := 2 * Xor(a / 2, b / 2) + (if a % 2 == b % 2 then 0 else 1);
      XorBound(a, b, r);
      r
  }

  function Power2(n: nat): (r: nat)
    ensures r > 0
  {
    if n == 0 then 1 else 2 * Power2(n - 1)
  }

  lemma XorBound(a: nat, b: nat, r: nat)
    requires a > 0 || b > 0
    requires forall n: nat :: a / 2 < Power2(n) && b / 2 < Power2(n) ==> r / 2 < Power2(n)
    ensures forall n: nat :: a < Power2(n) && b < Power2(n) ==> r < Power2(n)
  {
    forall n: nat | a < Power2(n) && b < Power2(n) ensures r < Power2(n) {
      assert Power2(n) == 2 * Power2(n - 1);
      assert a / 2 < Power2(n - 1) && b / 2 < Power2(n - 1);
    }
  }

  /** Bit `k` of a number. */
  predicate Bit(n: nat, k: nat) {
    if k == 0 then n % 2 == 1 else Bit(n / 2, k - 1)
  }

  /** A bit is set exactly where the two bits differ. */
  lemma {:induction false} XorBits(a: nat, b: nat, k: nat)
    ensures Bit(Xor(a, b), k) <==> Bit(a, k) != Bit(b, k)
    decreases k
  {
    if a == 0 && b == 0 {
      ZeroBits(k);
    } else {
      var r := Xor(a, b);
      assert r / 2 == Xor(a / 2, b / 2) && r % 2 == if a % 2 == b % 2 then 0 else 1;
      if k > 0 { XorBits(a / 2, b / 2, k - 1); }
    }
  }

  lemma {:induction false} ZeroBits(k: nat)
    ensures !Bit(0, k)
  {
    if k > 0 { ZeroBits(k - 1); }
  }

  lemma {:induction false} XorTwice(a: nat, b: nat)
    ensures Xor(Xor(a, b), b) == a
    decreases a + b
  {
    if a > 0 || b > 0 {
      XorTwice(a / 2, b / 2);
      var r := Xor(a, b);
      assert r / 2 == Xor(a / 2, b / 2) && r % 2 == if a % 2 == b % 2 then 0 else 1;
    }
  }

  function XorByte(a: byte, b: byte): byte {
    assert Power2(8) == 256 by { assert Power2(4) == 16; }
    Xor(a, b)
  }

  /** Masking is its own inverse. */
  function Masked(payload: seq<byte>, key: seq<byte>): (r: seq<byte>)
    requires |key| == 4
    ensures |r| == |payload|
  {
    seq(|payload|, i requires 0 <= i < |payload| => XorByte(payload[i], key[i % 4]))
  }

  lemma MaskedTwice(payload: seq<byte>, key: seq<byte>)
    requires |key| == 4
    ensures Masked(Masked(payload, key), key) == payload
  {
    hide Xor;
    forall i | 0 <= i < |payload| ensures Masked(Masked(payload, key), key)[i] == payload[i] {
      XorTwice(payload[i], key[i % 4]);
    }
  }

  function ShortLength(f: Form, size: nat): (r: byte)
    requires f.Seven? ==> size < 126
    ensures r < 128
  {
    match f
    case Seven => size
    case Sixteen => 126
    case SixtyFour => 127
  }

  function LengthBytes(f: Form, size: nat): seq<byte> {
    match f
    case Seven => []
    case Sixteen => BigEndian(size, 2)
    case SixtyFour => BigEndian(size, 8)
  }

  function FirstByte(fin: bool, opcode: byte): byte
    requires opcode < 16
  {
    if fin then 0x80 + opcode else opcode
  }

  function SecondByte(masked: bool, seven: byte): byte
    requires seven < 128
  {
    if masked then 0x80 + seven else seven
  }

  function Encode(f: Frame): seq<byte>
    requires Writable(f)
  {
    [FirstByte(f.fin, f.opcode), SecondByte(f.mask.Some?, ShortLength(f.form, |f.payload|))]
    + (LengthBytes(f.form, |f.payload|)
       + ((if f.mask.Some? then f.mask.value else [])
          + (if f.mask.Some? then Masked(f.payload, f.mask.value) else f.payload)))
  }

  function EncodeAll(frames: seq<Frame>): seq<byte>
    requires forall f :: f in frames ==> Writable(f)
  {
    if frames == [] then [] else Encode(frames[0]) + EncodeAll(frames[1..])
  }

  /** `build_header`: a final frame without a mask, its length in the shortest form. */
  function BuildHeader(opcode: byte, size: nat): seq<byte>
    requires opcode < 16
  {
    if size < 126 then [0x80 + opcode, size]
    else if size < 0x1_0000 then [0x80 + opcode, 126] + BigEndian(size, 2)
    else [0x80 + opcode, 127] + BigEndian(size, 8)
  }

  function ShortestForm(size: nat): Form {
    if size < 126 then Seven else if size < 0x1_0000 then Sixteen else SixtyFour
  }

  function Sent(opcode: byte, payload: seq<byte>): Frame {
    Frame(true, opcode, ShortestForm(|payload|), None, payload)
  }

  // ---------------------------------------------------------------------------------------------
  // Byte order

  /** The bytes of a number in the memory of a little-endian host. */
  function LittleEndian(n: nat, count: nat): (r: seq<byte>)
    ensures |r| == count
  {
    if count == 0 then [] else [n % 256] + LittleEndian(n / 256, count - 1)
  }

  function LittleValue(bytes: seq<byte>): nat {
    if bytes == [] then 0 else bytes[0] + 256 * LittleValue(bytes[1..])
  }

  lemma {:induction false} LittleBack(bytes: seq<byte>)
    ensures LittleEndian(LittleValue(bytes), |bytes|) == bytes
    decreases |bytes|
  {
    if bytes != [] {
      LittleBack(bytes[1..]);
      LowestByte(bytes[0], LittleValue(bytes[1..]));
      assert bytes == [bytes[0]] + bytes[1..];
    }
  }

  lemma LowestByte(b: byte, v: nat)
    ensures (b + 256 * v) % 256 == b && (b + 256 * v) / 256 == v
  {
  }

  lemma {:induction false} LittleAppend(a: seq<byte>, b: seq<byte>)
    ensures LittleValue(a + b) == LittleValue(a) + Power256(|a|) * LittleValue(b)
    decreases |a|
  {
    if a == [] {
      assert a + b == b;
    } else {
      assert (a + b)[0] == a[0] && (a + b)[1..] == a[1..] + b;
      LittleAppend(a[1..], b);
      TimesPower(a, LittleValue(b));
    }
  }

  lemma TimesPower(a: seq<byte>, v: nat)
    requires a != []
    ensures Power256(|a|) * v == 256 * (Power256(|a| - 1) * v)
  {
    assert Power256(|a|) == 256 * Power256(|a| - 1);
  }

  /** `htonl` and `htons` on a little-endian host: the number whose memory is the big-endian form. */
  function HostToNet(n: nat, count: nat): nat {
    LittleValue(BigEndian(n, count))
  }

  lemma {:induction false} BigEndianSplit(top: nat, bottom: nat, high: nat, low: nat)
    requires bottom < Power256(low)
    ensures BigEndian(top * Power256(low) + bottom, high + low) == BigEndian(top, high) + BigEndian(bottom, low)
    decreases low
  {
    if low == 0 {
      assert BigEndian(top, high) + [] == BigEndian(top, high);
    } else {
      var p, n := Power256(low - 1), top * Power256(low) + bottom;
      BigEndianSplit(top, bottom / 256, high, low - 1);
      LastByte(top, p, bottom);
      assert BigEndian(n, high + low) == BigEndian(n / 256, high + (low - 1)) + [n % 256];
    }
  }

  lemma LastByte(top: nat, p: nat, bottom: nat)
    ensures (top * (256 * p) + bottom) / 256 == top * p + bottom / 256
    ensures (top * (256 * p) + bottom) % 256 == bottom % 256
  {
    var x := top * p;
    assert top * (256 * p) == 256 * x;
  }

  /** The 64-bit length is written by swapping its halves and the bytes in each of them: in memory that is the
      big-endian form. */
  lemma SwappedHalves(size: nat)
    requires size < 0x1_0000_0000_0000_0000
    ensures var n := HostToNet(size % 0x1_0000_0000, 4) * 0x1_0000_0000 + HostToNet(size / 0x1_0000_0000, 4);
            LittleEndian(n, 8) == BigEndian(size, 8)
  {
    var high, low := BigEndian(size / 0x1_0000_0000, 4), BigEndian(size % 0x1_0000_0000, 4);
    FourBytes();
    BigEndianSplit(size / 0x1_0000_0000, size % 0x1_0000_0000, 4, 4);
    LittleAppend(high, low);
    LittleBack(high + low);
  }

  lemma FourBytes()
    ensures Power256(4) == 0x1_0000_0000
  {
    assert Power256(2) == 0x1_0000;
  }

  /** A 16-bit length is swapped whole. */
  lemma SwappedShort(size: nat)
    ensures LittleEndian(HostToNet(size, 2), 2) == BigEndian(size, 2)
  {
    LittleBack(BigEndian(size, 2));
  }

  /** The mask, the shifts and the alternation of that conversion, on 64 bits. */
  lemma HalfBits(x: bv64, y: bv64)
    ensures x & 0xFFFF_FFFF == x % 0x1_0000_0000 && x >> 32 == x / 0x1_0000_0000
    ensures x < 0x1_0000_0000 && y < 0x1_0000_0000 ==> (x << 32) | y == x * 0x1_0000_0000 + y
  {
  }

  /** The masks of the two header bytes, in network order. */
  lemma HeaderBits(h: bv16)
    ensures h & 0x8000 == 0x8000 <==> h / 256 >= 128
    ensures (h & 0x0f00) >> 8 == h / 256 % 16
    ensures h & 0x80 == 0x80 <==> h % 256 >= 128
    ensures h & 0x7f == h % 256 % 128
  {
  }

  /** What is written for a message is a frame. */
  lemma HeaderIsFrame(opcode: byte, payload: seq<byte>)
    requires opcode < 16 && |payload| < 0x1_0000_0000_0000_0000
    ensures Writable(Sent(opcode, payload))
    ensures BuildHeader(opcode, |payload|) + payload == Encode(Sent(opcode, payload))
  {
    hide BigEndian;
    assert [] + payload == payload;
  }

  // ---------------------------------------------------------------------------------------------
  // Messages

  /** A ping (9) or a pong (10). */
  predicate IsControl(f: Frame) {
    f.opcode == 9 || f.opcode == 10
  }

  /** The data frames are those of the messages in order: text (1) or binary (2), and more of it (0); `open` is what
      has been sent of a message. */
  ghost predicate Carries(frames: seq<Frame>, messages: seq<Message>, open: Option<Message>)
    decreases |frames|, 0
  {
    if frames == [] then messages == [] && open.None?
    else
      var f, rest := frames[0], frames[1..];
      if IsControl(f) then Carries(rest, messages, open)
      else if open.None? then
        (f.opcode == 1 || f.opcode == 2)
        && Completes(f, rest, messages, Message(f.payload, f.opcode == 2))
      else
        f.opcode == 0
        && Completes(f, rest, messages, Message(open.value.payload + f.payload, open.value.binary))
  }

  ghost predicate Completes(f: Frame, rest: seq<Frame>, messages: seq<Message>, m: Message)
    decreases |rest|, 1
  {
    if f.fin then messages != [] && messages[0] == m && Carries(rest, messages[1..], None)
    else Carries(rest, messages, Some(m))
  }

  function Joined(parts: seq<seq<byte>>): seq<byte> {
    if parts == [] then [] else parts[0] + Joined(parts[1..])
  }

  /** A message cut into parts; `first` is the opcode of the first frame. */
  function FramesOf(parts: seq<seq<byte>>, first: byte, mask: Option<seq<byte>>): seq<Frame> {
    if parts == [] then []
    else [Frame(|parts| == 1, first, SixtyFour, mask, parts[0])] + FramesOf(parts[1..], 0, mask)
  }

  /** One data frame in front of others. */
  lemma FrameBefore(f: Frame, rest: seq<Frame>, messages: seq<Message>, open: Option<Message>)
    requires if open.None? then f.opcode == 1 || f.opcode == 2 else f.opcode == 0
    ensures var m := if open.None? then Message(f.payload, f.opcode == 2)
                     else Message(open.value.payload + f.payload, open.value.binary);
            && (f.fin && Carries(rest, messages, None) ==> Carries([f] + rest, [m] + messages, open))
            && (!f.fin && Carries(rest, messages, Some(m)) ==> Carries([f] + rest, messages, open))
  {
    var m := if open.None? then Message(f.payload, f.opcode == 2)
             else Message(open.value.payload + f.payload, open.value.binary);
    assert ([f] + rest)[1..] == rest && ([m] + messages)[1..] == messages;
  }

  /** However a message is cut, its frames carry it, and more frames carry what they carried before. */
  lemma {:induction false} CutCarries(parts: seq<seq<byte>>, binary: bool, mask: Option<seq<byte>>,
                                      more: seq<Frame>, messages: seq<Message>)
    requires parts != [] && Carries(more, messages, None)
    ensures Carries(FramesOf(parts, if binary then 2 else 1, mask) + more,
                    [Message(Joined(parts), binary)] + messages, None)
  {
    hide Carries, Joined;
    var f := Frame(|parts| == 1, if binary then 2 else 1, SixtyFour, mask, parts[0]);
    var rest := FramesOf(parts[1..], 0, mask);
    assert FramesOf(parts, f.opcode, mask) + more == [f] + (rest + more);
    JoinedFirst(parts);
    if |parts| == 1 {
      assert parts[1..] == [] && rest + more == more;
      FrameBefore(f, more, messages, None);
    } else {
      RestCarries(parts[1..], parts[0], binary, mask, more, messages);
      FrameBefore(f, rest + more, [Message(Joined(parts), binary)] + messages, None);
    }
  }

  lemma JoinedFirst(parts: seq<seq<byte>>)
    requires parts != []
    ensures Joined(parts) == parts[0] + Joined(parts[1..])
    ensures |parts| == 1 ==> Joined(parts) == parts[0]
  {
  }

  lemma {:induction false} RestCarries(parts: seq<seq<byte>>, sofar: seq<byte>, binary: bool, mask: Option<seq<byte>>,
                                       more: seq<Frame>, messages: seq<Message>)
    requires parts != [] && Carries(more, messages, None)
    ensures Carries(FramesOf(parts, 0, mask) + more,
                    [Message(sofar + Joined(parts), binary)] + messages, Some(Message(sofar, binary)))
    decreases |parts|
  {
    hide Carries, Joined;
    var f := Frame(|parts| == 1, 0, SixtyFour, mask, parts[0]);
    var rest := FramesOf(parts[1..], 0, mask);
    assert FramesOf(parts, 0, mask) + more == [f] + (rest + more);
    JoinedFirst(parts);
    var open := Some(Message(sofar, binary));
    if |parts| == 1 {
      assert parts[1..] == [] && rest + more == more;
      FrameBefore(f, more, messages, open);
    } else {
      assert sofar + (parts[0] + Joined(parts[1..])) == sofar + parts[0] + Joined(parts[1..]);
      RestCarries(parts[1..], sofar + parts[0], binary, mask, more, messages);
      FrameBefore(f, rest + more, [Message(sofar + Joined(parts), binary)] + messages, open);
    }
  }
}
