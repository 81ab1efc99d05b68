/** `Connection`: the reader's five states, and the stream of frames it reads in arbitrary pieces. */
module WebSocketReader {
  import opened Wrappers
  import opened WebSocketFrames

  datatype ReadState = MiniHeader | Len16 | Len64 | Mask | Payload

  /** What is known of the frame that is being read. */
  datatype Reader = Reader(state: ReadState, fin: bool, opcode: byte, hasMask: bool, mask: seq<byte>, remaining: nat,
                           fragment: seq<byte>)

  /** The message being put together, what the handlers have been given, and what has been written. */
  datatype Peer = Peer(message: seq<byte>, binary: bool, delivered: seq<Message>, pongReceived: bool,
                       sentClose: bool, recvClose: bool, closeCalled: bool, closeCalls: seq<seq<byte>>,
                       written: seq<byte>)

  datatype Conn = Conn(r: Reader, p: Peer, maxPayload: nat, closed: bool)

  const BUFFER_SIZE := 4096
  const NO_MASK: seq<byte> := [0, 0, 0, 0]

  predicate Sound(r: Reader) {
    r.opcode < 16 && |r.mask| == 4
  }

  // ---------------------------------------------------------------------------------------------
  // Frames

  function Deliver(p: Peer, fin: bool, message: seq<byte>, binary: bool): Peer {
    if fin then p.(delivered := p.delivered + [Message(message, binary)], message := [], binary := binary)
    else p.(message := message, binary := binary)
  }

  /** A close frame is answered with one, unless one has been sent. */
  function HandleClose(p: Peer, payload: seq<byte>): Peer {
    var d := if p.closeCalled then p.(recvClose := true)
             else p.(recvClose := true, closeCalled := true, closeCalls := p.closeCalls + [payload]);
    if p.sentClose then d else d.(sentClose := true, written := p.written + BuildHeader(CLOSE, |payload|) + payload)
  }

  /** `handle_fragment` once the mask is off. */
  function HandleOpcode(p: Peer, fin: bool, opcode: byte, payload: seq<byte>): Peer {
    if opcode == CONTINUATION then Deliver(p, fin, p.message + payload, p.binary)
    else if opcode == TEXT then Deliver(p, fin, p.message + payload, false)
    else if opcode == BINARY then Deliver(p, fin, p.message + payload, true)
    else if opcode == CLOSE then HandleClose(p, payload)
    else if opcode == PING then p.(written := p.written + BuildHeader(PONG, |payload|) + payload)
    else if opcode == PONG then p.(pongReceived := true)
    else p
  }

  function Unmasked(r: Reader): seq<byte>
    requires Sound(r)
  {
    if r.hasMask then Masked(r.fragment, r.mask) else r.fragment
  }

  // ---------------------------------------------------------------------------------------------
  // Reads

  /** The mask is read only where there is one, and only for a payload that is not too long. */
  function AfterLength(c: Conn, r: Reader): Conn {
    if r.remaining > c.maxPayload then c.(r := r.(state := Mask), closed := true)
    else c.(r := r.(state := if r.hasMask then Mask else Payload))
  }

  /** What a completed read can bring: the header reads bring what they ask for, a payload read at least one
      byte if one is missing. */
  predicate Fits(c: Conn, data: seq<byte>) {
    && !c.closed
    && match c.r.state
       case MiniHeader => |data| == 2
       case Len16 => |data| == 2
       case Len64 => |data| == 8
       case Mask => |data| == 4
       case Payload => |data| <= c.r.remaining && |data| <= BUFFER_SIZE && (c.r.remaining > 0 ==> |data| > 0)
  }

  function HeaderOf(r: Reader, first: byte, second: byte): (h: Reader)
    ensures Sound(h)
  {
    Reader(if second % 0x80 == 127 then Len64 else if second % 0x80 == 126 then Len16 else Mask,
           first >= 0x80, first % 16, second >= 0x80, NO_MASK, second % 0x80, r.fragment)
  }

  /** The frame is complete; when both sides have closed nothing more is read. */
  function FrameRead(c: Conn, r: Reader): (d: Conn)
    requires Sound(r)
    ensures Sound(d.r)
  {
    var p := HandleOpcode(c.p, r.fin, r.opcode, Unmasked(r));
    Conn(r.(state := MiniHeader, fragment := []), p, c.maxPayload, c.closed || (p.sentClose && p.recvClose))
  }

  function Next(c: Conn, data: seq<byte>): (d: Conn)
    requires Sound(c.r) && Fits(c, data)
    ensures Sound(d.r)
  {
    match c.r.state
    case MiniHeader =>
      var h := HeaderOf(c.r, data[0], data[1]);
      if h.state.Mask? then AfterLength(c, h) else c.(r := h)
    case Len16 => AfterLength(c, c.r.(remaining := Value(data)))
    case Len64 => AfterLength(c, c.r.(remaining := Value(data)))
    case Mask => c.(r := c.r.(mask := data, state := Payload))
    case Payload =>
      var r := c.r.(fragment := c.r.fragment + data, remaining := c.r.remaining - |data|);
      if r.remaining > 0 then c.(r := r) else FrameRead(c, r)
  }

  /** A schedule of completed reads. */
  predicate AllFit(c: Conn, pieces: seq<seq<byte>>)
    requires Sound(c.r)
    decreases |pieces|
  {
    pieces == [] || (Fits(c, pieces[0]) && AllFit(Next(c, pieces[0]), pieces[1..]))
  }

  function Run(c: Conn, pieces: seq<seq<byte>>): (d: Conn)
    requires Sound(c.r) && AllFit(c, pieces)
    ensures Sound(d.r)
    decreases |pieces|
  {
    if pieces == [] then c else Run(Next(c, pieces[0]), pieces[1..])
  }

  // ---------------------------------------------------------------------------------------------
  // One frame

  /** Between two frames. */
  predicate Ready(c: Conn) {
    c.r.state.MiniHeader? && c.r.fragment == [] && !c.closed && Sound(c.r)
  }

  lemma FirstPiece(c: Conn, pieces: seq<seq<byte>>, want: seq<byte>, rest: seq<byte>)
    requires Sound(c.r) && AllFit(c, pieces) && pieces != [] && Joined(pieces) == want + rest
    requires forall d :: Fits(c, d) ==> |d| == |want|
    ensures pieces[0] == want && Joined(pieces[1..]) == rest && Fits(c, want) && AllFit(Next(c, want), pieces[1..])
    ensures Run(c, pieces) == Run(Next(c, want), pieces[1..])
  {
    hide Next;
    assert Fits(c, pieces[0]);
    assert Joined(pieces) == pieces[0] + Joined(pieces[1..]);
    assert pieces[0] == (want + rest)[..|want|] == want;
    assert Joined(pieces[1..]) == (want + rest)[|want|..] == rest;
  }

  /** The payload arrives in pieces of any size. */
  lemma {:induction false} PayloadRead(c: Conn, pieces: seq<seq<byte>>, want: seq<byte>, rest: seq<byte>) returns (n: nat)
    requires Sound(c.r) && c.r.state.Payload? && c.r.remaining == |want|
    requires AllFit(c, pieces) && Joined(pieces) == want + rest && Run(c, pieces).r.state.MiniHeader?
    ensures 0 < n <= |pieces| && Joined(pieces[n..]) == rest
    ensures var d := FrameRead(c, c.r.(fragment := c.r.fragment + want, remaining := 0));
            AllFit(d, pieces[n..]) && Run(c, pieces) == Run(d, pieces[n..])
    decreases |pieces|
  {
    hide FrameRead;
    assert pieces != [];
    var p := pieces[0];
    assert Fits(c, p) && Joined(pieces) == p + Joined(pieces[1..]);
    Front(p, Joined(pieces[1..]), want, rest);
    if |p| == |want| {
      assert want[|p|..] + rest == rest && p == want;
      assert Next(c, p) == FrameRead(c, c.r.(fragment := c.r.fragment + want, remaining := 0));
      n := 1;
    } else {
      var d := Next(c, p);
      assert d == c.(r := c.r.(fragment := c.r.fragment + p, remaining := c.r.remaining - |p|));
      n := PayloadRead(d, pieces[1..], want[|p|..], rest);
      assert c.r.fragment + want == c.r.fragment + p + want[|p|..];
      SameFrame(c, d, d.r.(fragment := d.r.fragment + want[|p|..], remaining := 0));
      assert pieces[1..][n..] == pieces[n + 1..];
      n := n + 1;
    }
  }

  lemma SameFrame(c: Conn, d: Conn, r: Reader)
    requires c.p == d.p && c.maxPayload == d.maxPayload && c.closed == d.closed && Sound(r)
    ensures FrameRead(c, r) == FrameRead(d, r)
  {
    hide HandleOpcode, Unmasked;
  }

  lemma Front(p: seq<byte>, more: seq<byte>, want: seq<byte>, rest: seq<byte>)
    requires p + more == want + rest && |p| <= |want|
    ensures p == want[..|p|] && more == want[|p|..] + rest
  {
    assert p == (p + more)[..|p|] == (want + rest)[..|p|];
    assert more == (p + more)[|p|..] == (want + rest)[|p|..];
  }

  /** The reader when the header of a frame has been read. */
  function AtPayload(f: Frame): Reader
    requires Writable(f)
  {
    Reader(Payload, f.fin, f.opcode, f.mask.Some?, if f.mask.Some? then f.mask.value else NO_MASK, |f.payload|, [])
  }

  /** The reader when the length is known. */
  function AtMask(f: Frame): Reader
    requires Writable(f)
  {
    AtPayload(f).(mask := NO_MASK, state := if f.mask.Some? then Mask else Payload)
  }

  function Body(f: Frame): seq<byte>
    requires Writable(f)
  {
    if f.mask.Some? then Masked(f.payload, f.mask.value) else f.payload
  }

  function Key(f: Frame): seq<byte> {
    if f.mask.Some? then f.mask.value else []
  }

  function Header(f: Frame): seq<byte>
    requires Writable(f)
  {
    [FirstByte(f.fin, f.opcode), SecondByte(f.mask.Some?, ShortLength(f.form, |f.payload|))]
  }

  lemma EncodeParts(f: Frame, rest: seq<byte>)
    requires Writable(f)
    ensures Encode(f) + rest == Header(f) + (LengthBytes(f.form, |f.payload|) + (Key(f) + (Body(f) + rest)))
  {
    hide LengthBytes, Masked;
    var a, b, c, d := Header(f), LengthBytes(f.form, |f.payload|), Key(f), Body(f);
    assert a + (b + (c + d)) + rest == a + (b + (c + (d + rest)));
  }

  /** The reads of the header, up to where the payload begins. */
  lemma HeaderRead(c: Conn, f: Frame, pieces: seq<seq<byte>>, rest: seq<byte>) returns (n: nat)
    requires Ready(c) && Writable(f) && |f.payload| <= c.maxPayload
    requires AllFit(c, pieces) && Joined(pieces) == Encode(f) + rest && Run(c, pieces).r.state.MiniHeader?
    ensures 0 < n <= |pieces|
    ensures var d := c.(r := AtPayload(f));
            && Sound(d.r) && AllFit(d, pieces[n..]) && Run(c, pieces) == Run(d, pieces[n..])
            && Joined(pieces[n..]) == Body(f) + rest
  {
    hide Run, AllFit, Joined, Masked, LengthBytes, Fits, BigEndian, Encode, Next, Header;
    EncodeParts(f, rest);
    var lengths := LengthBytes(f.form, |f.payload|);
    assert |Header(f)| == 2 by { HeaderLength(f); }
    MorePieces(pieces, Header(f), lengths + (Key(f) + (Body(f) + rest)));
    TwoFit(c);
    FirstPiece(c, pieces, Header(f), lengths + (Key(f) + (Body(f) + rest)));
    HeaderBytes(c, f);
    var k := LengthRead(Next(c, Header(f)), f, pieces[1..], Key(f) + (Body(f) + rest));
    assert pieces[1..][k..] == pieces[k + 1..];
    n := k + 1;
    MaskRead(c.(r := AtMask(f)), f, pieces[n..], rest);
    if f.mask.Some? {
      assert pieces[n..][1..] == pieces[n + 1..];
      n := n + 1;
    }
  }

  lemma HeaderLength(f: Frame)
    requires Writable(f)
    ensures |Header(f)| == 2
  {
  }

  /** The mask, if there is one. */
  lemma MaskRead(c: Conn, f: Frame, pieces: seq<seq<byte>>, rest: seq<byte>)
    requires Writable(f) && c.r == AtMask(f) && Sound(c.r) && !c.closed
    requires AllFit(c, pieces) && Joined(pieces) == Key(f) + (Body(f) + rest) && Run(c, pieces).r.state.MiniHeader?
    ensures var d := c.(r := AtPayload(f));
            var k := if f.mask.Some? then 1 else 0;
            && k <= |pieces| && Sound(d.r) && AllFit(d, pieces[k..]) && Run(c, pieces) == Run(d, pieces[k..])
            && Joined(pieces[k..]) == Body(f) + rest
  {
    hide Run, AllFit, Joined, Masked, Fits, Body;
    if f.mask.Some? {
      StillRunning(c, pieces);
      FourFit(c);
      FirstPiece(c, pieces, Key(f), Body(f) + rest);
    } else {
      assert Key(f) + (Body(f) + rest) == Body(f) + rest;
      assert pieces[0..] == pieces;
    }
  }

  lemma MorePieces(pieces: seq<seq<byte>>, want: seq<byte>, rest: seq<byte>)
    requires Joined(pieces) == want + rest && |want| == 2
    ensures pieces != []
  {
  }

  lemma StillRunning(c: Conn, pieces: seq<seq<byte>>)
    requires Sound(c.r) && AllFit(c, pieces) && Run(c, pieces).r.state.MiniHeader? && !c.r.state.MiniHeader?
    ensures pieces != []
  {
  }

  lemma TwoFit(c: Conn)
    requires c.r.state.MiniHeader? || c.r.state.Len16?
    ensures forall d :: Fits(c, d) ==> |d| == 2
  {
  }

  lemma EightFit(c: Conn)
    requires c.r.state.Len64?
    ensures forall d :: Fits(c, d) ==> |d| == 8
  {
  }

  lemma FourFit(c: Conn)
    requires c.r.state.Mask?
    ensures forall d :: Fits(c, d) ==> |d| == 4
  {
  }

  /** What the two header bytes tell. */
  lemma HeaderBytes(c: Conn, f: Frame)
    requires Ready(c) && Writable(f) && |f.payload| <= c.maxPayload && Fits(c, Header(f))
    ensures Next(c, Header(f)) ==
            match f.form
            case Seven => c.(r := AtMask(f))
            case Sixteen => c.(r := AtMask(f).(remaining := 126, state := Len16))
            case SixtyFour => c.(r := AtMask(f).(remaining := 127, state := Len64))
  {
    var first, second := FirstByte(f.fin, f.opcode), SecondByte(f.mask.Some?, ShortLength(f.form, |f.payload|));
    assert second % 0x80 == ShortLength(f.form, |f.payload|);
    assert (second >= 0x80) == f.mask.Some?;
    assert first % 16 == f.opcode && (first >= 0x80) == f.fin;
  }

  /** The extended length, if there is one. */
  lemma LengthRead(c: Conn, f: Frame, pieces: seq<seq<byte>>, rest: seq<byte>) returns (k: nat)
    requires Writable(f) && |f.payload| <= c.maxPayload && !c.closed && Sound(c.r)
    requires c.r == match f.form
                    case Seven => AtMask(f)
                    case Sixteen => AtMask(f).(remaining := 126, state := Len16)
                    case SixtyFour => AtMask(f).(remaining := 127, state := Len64)
    requires AllFit(c, pieces) && Joined(pieces) == LengthBytes(f.form, |f.payload|) + rest
    requires Run(c, pieces).r.state.MiniHeader?
    ensures var d := c.(r := AtMask(f));
            && Sound(d.r) && k <= |pieces| && AllFit(d, pieces[k..]) && Run(c, pieces) == Run(d, pieces[k..])
            && Joined(pieces[k..]) == rest
  {
    hide Run, AllFit, Joined, Fits, BigEndian, Value;
    if f.form.Seven? {
      assert LengthBytes(f.form, |f.payload|) + rest == rest;
      assert pieces[0..] == pieces;
      k := 0;
    } else {
      var lengths := LengthBytes(f.form, |f.payload|);
      StillRunning(c, pieces);
      if f.form.Sixteen? { TwoFit(c); } else { EightFit(c); }
      FirstPiece(c, pieces, lengths, rest);
      Powers();
      BigEndianBack(|f.payload|, |lengths|);
      k := 1;
    }
  }

  /** A frame, however its payload is cut into pieces, is handled with the payload it was made of. */
  lemma OneFrame(c: Conn, f: Frame, pieces: seq<seq<byte>>, rest: seq<byte>) returns (d: Conn, n: nat)
    requires Ready(c) && Writable(f) && |f.payload| <= c.maxPayload
    requires AllFit(c, pieces) && Joined(pieces) == Encode(f) + rest && Run(c, pieces).r.state.MiniHeader?
    ensures d.p == HandleOpcode(c.p, f.fin, f.opcode, f.payload) && d.maxPayload == c.maxPayload
    ensures d.closed == (d.p.sentClose && d.p.recvClose) && d.r.state.MiniHeader? && d.r.fragment == [] && Sound(d.r)
    ensures n <= |pieces| && AllFit(d, pieces[n..]) && Run(c, pieces) == Run(d, pieces[n..]) && Joined(pieces[n..]) == rest
  {
    hide Run, AllFit, Joined, Masked, Fits, Encode, HandleOpcode;
    var k := HeaderRead(c, f, pieces, rest);
    var c1 := c.(r := AtPayload(f));
    n := PayloadRead(c1, pieces[k..], Body(f), rest);
    assert pieces[k..][n..] == pieces[k + n..];
    n := k + n;
    var r := c1.r.(fragment := [] + Body(f), remaining := 0);
    d := FrameRead(c1, r);
    assert [] + Body(f) == Body(f);
    if f.mask.Some? { MaskedTwice(f.payload, f.mask.value); }
  }

  // ---------------------------------------------------------------------------------------------
  // A stream of frames

  predicate Awaiting(p: Peer, open: Option<Message>) {
    if open.None? then p.message == [] else p.message == open.value.payload && p.binary == open.value.binary
  }

  /** Text and binary messages cut into frames, masked or not, with pings and pongs in between, in pieces of any
      size: exactly those messages are handed over, in order, and nothing else of the connection changes but the
      pongs that are written. */
  lemma {:induction false} StreamRead(c: Conn, frames: seq<Frame>, messages: seq<Message>, open: Option<Message>,
                                      pieces: seq<seq<byte>>)
    requires Ready(c) && Awaiting(c.p, open) && !(c.p.sentClose && c.p.recvClose)
    requires forall f :: f in frames ==> Writable(f) && |f.payload| <= c.maxPayload
    requires Carries(frames, messages, open)
    requires AllFit(c, pieces) && Joined(pieces) == EncodeAll(frames) && Run(c, pieces).r.state.MiniHeader?
    ensures var d := Run(c, pieces);
            && d.p.delivered == c.p.delivered + messages && d.p.message == [] && !d.closed
            && d.p.written == c.p.written + Pongs(frames)
            && d.p.pongReceived == (c.p.pongReceived || exists k :: 0 <= k < |frames| && frames[k].opcode == 10)
    decreases |frames|
  {
    hide Run, AllFit, Encode, Carries, Completes, HandleOpcode, Fits, Pongs;
    if frames == [] {
      NothingLeft(c, pieces);
      NothingCarried(messages, open);
      assert c.p.delivered + [] == c.p.delivered && c.p.written + [] == c.p.written;
    } else {
      var f := frames[0];
      var d, n := OneFrame(c, f, pieces, EncodeAll(frames[1..]));
      var messages1, open1, done := CarriedFirst(frames, messages, open, c.p);
      KeepsClose(c.p, f);
      StreamRead(d, frames[1..], messages1, open1, pieces[n..]);
      assert c.p.delivered + messages == c.p.delivered + done + messages1;
      PongsFirst(frames, c.p);
      assert c.p.written + Pongs(frames) == HandleOpcode(c.p, f.fin, f.opcode, f.payload).written + Pongs(frames[1..]);
      PongSeen(c.p, frames);
    }
  }

  /** A pong (10) is remembered. */
  lemma PongSeen(p: Peer, frames: seq<Frame>)
    requires frames != []
    ensures var (f, rest) := (frames[0], frames[1..]);
            (HandleOpcode(p, f.fin, f.opcode, f.payload).pongReceived || exists k :: 0 <= k < |rest| && rest[k].opcode == 10)
            <==> (p.pongReceived || exists k :: 0 <= k < |frames| && frames[k].opcode == 10)
  {
    hide BuildHeader;
    var rest := frames[1..];
    if k :| 0 <= k < |rest| && rest[k].opcode == 10 { assert frames[k + 1].opcode == 10; }
    if k :| 0 <= k < |frames| && frames[k].opcode == 10 {
      if k > 0 { assert rest[k - 1].opcode == 10; }
    }
  }

  /** What the reader answers: a ping (9) with a pong (10) that has the same payload. */
  function Pongs(frames: seq<Frame>): seq<byte> {
    if frames == [] then []
    else (if frames[0].opcode == 9 then BuildHeader(10, |frames[0].payload|) + frames[0].payload else [])
         + Pongs(frames[1..])
  }

  lemma PongsFirst(frames: seq<Frame>, p: Peer)
    requires frames != [] && frames[0].opcode != 8
    ensures p.written + Pongs(frames)
         == HandleOpcode(p, frames[0].fin, frames[0].opcode, frames[0].payload).written + Pongs(frames[1..])
  {
    hide BuildHeader;
    var f := frames[0];
    var first := if f.opcode == 9 then BuildHeader(10, |f.payload|) + f.payload else [];
    assert p.written + (first + Pongs(frames[1..])) == p.written + first + Pongs(frames[1..]);
    if f.opcode == 9 {
      assert p.written + first == p.written + BuildHeader(10, |f.payload|) + f.payload;
    } else {
      assert p.written + first == p.written;
    }
  }

  lemma NothingCarried(messages: seq<Message>, open: Option<Message>)
    requires Carries([], messages, open)
    ensures messages == [] && open == None
  {
  }

  /** At the end of the stream no read has anything to bring. */
  lemma NothingLeft(c: Conn, pieces: seq<seq<byte>>)
    requires Ready(c) && AllFit(c, pieces) && Joined(pieces) == []
    ensures pieces == [] && Run(c, pieces) == c && Pongs([]) == []
  {
  }

  lemma KeepsClose(p: Peer, f: Frame)
    requires f.opcode != 8
    ensures var q := HandleOpcode(p, f.fin, f.opcode, f.payload);
            q.sentClose == p.sentClose && q.recvClose == p.recvClose
  {
  }

  /** What handling the first frame does to what is being awaited. */
  lemma CarriedFirst(frames: seq<Frame>, messages: seq<Message>, open: Option<Message>, p: Peer)
    returns (messages1: seq<Message>, open1: Option<Message>, done: seq<Message>)
    requires frames != [] && Carries(frames, messages, open) && Awaiting(p, open)
    ensures var f := frames[0];
            var q := HandleOpcode(p, f.fin, f.opcode, f.payload);
            && f.opcode != 8
            && Carries(frames[1..], messages1, open1) && Awaiting(q, open1)
            && messages == done + messages1 && q.delivered == p.delivered + done
  {
    hide BuildHeader;
    var f := frames[0];
    messages1, open1, done := messages, open, [];
    if !IsControl(f) {
      var m := if open.None? then Message(f.payload, f.opcode == 2)
               else Message(open.value.payload + f.payload, open.value.binary);
      assert p.message + f.payload == m.payload by { if open.None? { assert [] + f.payload == f.payload; } }
      if f.fin {
        messages1, open1, done := messages[1..], None, [m];
        assert messages == [m] + messages[1..];
      } else {
        open1 := Some(m);
      }
    }
    if done == [] { assert p.delivered + [] == p.delivered && [] + messages == messages; }
  }

  /** What one side sends the other is handed over: the header that is written is the one that is read, for every
      length of 64 bits. */
  lemma SendReceive(c: Conn, payload: seq<byte>, binary: bool, pieces: seq<seq<byte>>)
    requires Ready(c) && c.p.message == [] && !(c.p.sentClose && c.p.recvClose)
    requires |payload| <= c.maxPayload < 0x1_0000_0000_0000_0000
    requires AllFit(c, pieces) && Run(c, pieces).r.state.MiniHeader?
    requires Joined(pieces) == BuildHeader(if binary then 2 else 1, |payload|) + payload
    ensures Run(c, pieces).p.delivered == c.p.delivered + [Message(payload, binary)]
  {
    hide Encode, BuildHeader, Run, AllFit, Joined;
    var f := Sent(if binary then 2 else 1, payload);
    HeaderIsFrame(f.opcode, payload);
    assert [f][1..] == [] && Encode(f) + [] == Encode(f);
    assert EncodeAll([f]) == Encode(f) + EncodeAll([]);
    assert Carries([], [], None);
    assert [Message(payload, binary)] + [] == [Message(payload, binary)];
    FrameBefore(f, [], [], None);
    assert [f] + [] == [f];
    StreamRead(c, [f], [Message(payload, binary)], None, pieces);
  }

  /** A close frame (8) closes the connection.  It is answered with one that carries the same payload, unless one
      has been sent before, and the close handler runs with it, unless it has run before. */
  lemma CloseAnswered(c: Conn, f: Frame, pieces: seq<seq<byte>>)
    requires Ready(c) && Writable(f) && f.opcode == 8 && |f.payload| <= c.maxPayload
    requires AllFit(c, pieces) && Joined(pieces) == Encode(f) && Run(c, pieces).r.state.MiniHeader?
    ensures var d := Run(c, pieces);
            && d.closed && d.p.delivered == c.p.delivered
            && d.p.closeCalls == (if c.p.closeCalled then c.p.closeCalls else c.p.closeCalls + [f.payload])
            && d.p.written == (if c.p.sentClose then c.p.written else c.p.written + BuildHeader(8, |f.payload|) + f.payload)
  {
    hide Encode, BuildHeader;
    assert Encode(f) + [] == Encode(f);
    var d, n := OneFrame(c, f, pieces, []);
    ClosedStops(d, pieces[n..]);
  }

  /** A frame whose length is over the limit closes the connection before its payload is read; no handler sees it. */
  lemma TooLong(c: Conn, f: Frame, pieces: seq<seq<byte>>)
    requires Ready(c) && Writable(f) && |f.payload| > c.maxPayload
    requires AllFit(c, pieces) && Joined(pieces) == Header(f) + LengthBytes(f.form, |f.payload|)
    ensures Run(c, pieces).closed && Run(c, pieces).p == c.p
  {
    hide Run, AllFit, Joined, Fits, BigEndian, Value, Header;
    var lengths := LengthBytes(f.form, |f.payload|);
    HeaderLength(f);
    MorePieces(pieces, Header(f), lengths);
    TwoFit(c);
    FirstPiece(c, pieces, Header(f), lengths);
    var d := Next(c, Header(f));
    LongHeader(c, f);
    if f.form.Seven? {
      ClosedStops(d, pieces[1..]);
    } else {
      MoreLength(pieces[1..], lengths);
      if f.form.Sixteen? { TwoFit(d); } else { EightFit(d); }
      assert lengths + [] == lengths;
      FirstPiece(d, pieces[1..], lengths, []);
      Powers();
      BigEndianBack(|f.payload|, |lengths|);
      ClosedStops(Next(d, lengths), pieces[1..][1..]);
    }
  }

  lemma MoreLength(pieces: seq<seq<byte>>, lengths: seq<byte>)
    requires Joined(pieces) == lengths && lengths != []
    ensures pieces != []
  {
  }

  lemma LongHeader(c: Conn, f: Frame)
    requires Ready(c) && Writable(f) && |f.payload| > c.maxPayload && Fits(c, Header(f))
    ensures var d := Next(c, Header(f));
            && d.p == c.p && d.maxPayload == c.maxPayload
            && (f.form.Seven? ==> d.closed) && (!f.form.Seven? ==> !d.closed)
            && (f.form.Sixteen? ==> d.r.state.Len16?) && (f.form.SixtyFour? ==> d.r.state.Len64?)
  {
    var second := SecondByte(f.mask.Some?, ShortLength(f.form, |f.payload|));
    assert second % 0x80 == ShortLength(f.form, |f.payload|);
  }

  lemma ClosedStops(c: Conn, pieces: seq<seq<byte>>)
    requires Sound(c.r) && c.closed && AllFit(c, pieces)
    ensures pieces == [] && Run(c, pieces) == c
  {
  }
}
