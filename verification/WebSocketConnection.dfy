/** The connection object: `do_read`'s completion handlers and `handle_fragment`. */
module WebSocketConnection {
  import opened WebSocketFrames
  import opened WebSocketReader

  class Connection {
    var state: ReadState
    var fin: bool
    var opcode: byte
    var hasMask: bool
    var mask: seq<byte>
    var remaining: nat
    var fragment: seq<byte>
    var peer: Peer
    const maxPayload: nat
    var closed: bool

    constructor (maxPayload: nat)
      ensures Ready(Value()) && peer == Peer([], false, [], false, false, false, false, [], [])
      ensures this.maxPayload == maxPayload
    {
      state, fin, opcode, hasMask, mask, remaining, fragment := MiniHeader, false, 0, false, NO_MASK, 0, [];
      peer := Peer([], false, [], false, false, false, false, [], []);
      this.maxPayload := maxPayload;
      closed := false;
    }

    function Frame(): Reader
      reads this
    {
      Reader(state, fin, opcode, hasMask, mask, remaining, fragment)
    }

    function Value(): Conn
      reads this
    {
      Conn(Frame(), peer, maxPayload, closed)
    }

    /** A read has completed with these bytes. */
    method OnRead(data: seq<byte>)
      requires Sound(Frame()) && Fits(Value(), data)
      modifies this
      ensures Value() == Next(old(Value()), data)
    {
      hide HandleOpcode, Masked, WebSocketFrames.Value;
      match state {
        case MiniHeader =>
          fin, opcode, hasMask, mask := data[0] >= 0x80, data[0] % 16, data[1] >= 0x80, NO_MASK;
          remaining := data[1] % 0x80;
          if remaining == 127 {
            state := Len64;
          } else if remaining == 126 {
            state := Len16;
          } else {
            BeginMask();
          }
        case Len16 =>
          remaining := WebSocketFrames.Value(data);
          BeginMask();
        case Len64 =>
          remaining := WebSocketFrames.Value(data);
          BeginMask();
        case Mask =>
          mask := data;
          state := Payload;
        case Payload =>
          fragment := fragment + data;
          remaining := remaining - |data|;
          if remaining == 0 {
            HandleFragment();
            state := MiniHeader;
            if peer.sentClose && peer.recvClose { closed := true; }
          }
      }
    }

    /** `do_read` in the state `Mask`. */
    method BeginMask()
      modifies this
      ensures Value() == AfterLength(old(Value()), old(Frame()))
    {
      state := Mask;
      if remaining > maxPayload {
        closed := true;
      } else if !hasMask {
        state := Payload;
      }
    }

    /** `handle_fragment` */
    method HandleFragment()
      requires Sound(Frame())
      modifies this
      ensures Frame() == old(Frame()).(fragment := []) && closed == old(closed)
      ensures peer == HandleOpcode(old(peer), fin, opcode, Unmasked(old(Frame())))
    {
      if hasMask { UnmaskFragment(); }
      if opcode == CONTINUATION {
        Append(peer.binary);
      } else if opcode == TEXT {
        Append(false);
      } else if opcode == BINARY {
        Append(true);
      } else if opcode == CLOSE {
        ReceiveClose();
      } else if opcode == PING {
        peer := peer.(written := peer.written + BuildHeader(PONG, |fragment|) + fragment);
      } else if opcode == PONG {
        peer := peer.(pongReceived := true);
      }
      fragment := [];
    }

    method UnmaskFragment()
      requires |mask| == 4
      modifies this`fragment
      ensures fragment == Masked(old(fragment), mask)
    {
      hide Xor;
      ghost var f := fragment;
      var i := 0;
      while i < |fragment|
        invariant i <= |fragment| == |f|
        invariant forall k :: 0 <= k < i ==> fragment[k] == XorByte(f[k], mask[k % 4])
        invariant forall k :: i <= k < |f| ==> fragment[k] == f[k]
      {
        fragment := fragment[i := XorByte(fragment[i], mask[i % 4])];
        i := i + 1;
      }
    }

    /** The fragment joins the message, which is handed over at the last frame. */
    method Append(binary: bool)
      modifies this`peer
      ensures peer == Deliver(old(peer), fin, old(peer).message + fragment, binary)
    {
      peer := peer.(binary := binary, message := peer.message + fragment);
      if fin {
        peer := peer.(delivered := peer.delivered + [Message(peer.message, peer.binary)]);
        peer := peer.(message := []);
      }
    }

    method ReceiveClose()
      modifies this`peer
      ensures peer == HandleClose(old(peer), fragment)
    {
      peer := peer.(recvClose := true);
      if !peer.closeCalled { peer := peer.(closeCalled := true, closeCalls := peer.closeCalls + [fragment]); }
      if !peer.sentClose {
        peer := peer.(sentClose := true, written := peer.written + BuildHeader(CLOSE, |fragment|) + fragment);
      }
    }
  }
}
