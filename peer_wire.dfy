/** The peer wire protocol of `PeerConnection` (src/core/peer.py): the
    handshake, the length-prefixed messages it sends, and the receive loop
    that decodes what the peer sends and hands every block to the piece
    manager.

    The socket is modelled as a fully buffered stream (`Reader`): `read(n)`
    returns the next min(n, available) bytes; once the buffer is drained it
    returns nothing, or, on a connection the peer has reset, raises
    ConnectionError.  The writer is the sequence of bytes written so far. */
module PeerWire {
  import opened Wrappers
  import opened Bytes
  import Pieces

  const CHOKE: byte := 0
  const UNCHOKE: byte := 1
  const INTERESTED: byte := 2
  const NOT_INTERESTED: byte := 3
  const HAVE: byte := 4
  const BITFIELD: byte := 5
  const REQUEST: byte := 6
  const PIECE: byte := 7
  const CANCEL: byte := 8
  const PORT: byte := 9
  const MESSAGE_LENGTH: nat := 4

  /** `b'\x13BitTorrent protocol'`: the name's length, then the name. */
  const HANDSHAKE: seq<byte> := [19] + Ascii("BitTorrent protocol")

  // ===== Handshake =====

  /** `_handshake`'s message: protocol string, eight reserved zero bytes,
      the info hash, the encoded peer id. */
  function Handshake(infoHash: seq<byte>, peerId: seq<byte>): (h: seq<byte>)
    ensures |h| == 28 + |infoHash| + |peerId|
    ensures h[..20] == HANDSHAKE && h[20..28] == Zeros(8)
    ensures h[28..28 + |infoHash|] == infoHash && h[28 + |infoHash|..] == peerId
  {
    HANDSHAKE + Zeros(8) + infoHash + peerId
  }

  /** `_handshake`'s checks of the peer's reply: 68 bytes, the protocol
      string first, our info hash at bytes 28..48. */
  function CheckHandshake(response: seq<byte>, infoHash: seq<byte>): (r: Result<()>)
    ensures r.Ok? <==> |response| == 68 && response[..20] == HANDSHAKE && response[28..48] == infoHash
    ensures r.Raise? ==> r.exc.ConnectionError?
  {
    if |response| != 68 then Raise(ConnectionError("Invalid handshake length"))
    else if response[..20] != HANDSHAKE then Raise(ConnectionError("Invalid handshake protocol"))
    else if response[28..48] != infoHash then Raise(ConnectionError("Invalid info hash"))
    else Ok(())
  }

  /** A peer that answers with our own handshake is accepted exactly when
      the info hash and the peer id are 20 bytes each; an info hash of any
      other length is never accepted. */
  lemma OwnHandshakeAccepted(infoHash: seq<byte>, peerId: seq<byte>)
    ensures CheckHandshake(Handshake(infoHash, peerId), infoHash).Ok? <==> |infoHash| == 20 && |peerId| == 20
  {
    var h := Handshake(infoHash, peerId);
    if |h| == 68 && |infoHash| != 20 {
      assert |h[28..48]| != |infoHash|;
    }
  }

  // ===== The stream =====

  /** What the peer has sent and not yet been read, and whether the
      connection is reset once that is drained. */
  datatype Reader = Reader(buffer: seq<byte>, reset: bool)

  const RESET: Exc := ConnectionError("Connection reset by peer")

  /** `reader.read(n)`: n == 0 reads nothing; n < 0 reads to the end of the
      stream; n > 0 reads what is there, at most n bytes. */
  function Read(r: Reader, n: int): (res: Result<(seq<byte>, Reader)>)
    ensures res.Ok? ==> res.value.0 + res.value.1.buffer == r.buffer && res.value.1.reset == r.reset
    ensures res.Ok? && n >= 0 ==> |res.value.0| == Pieces.Min(n, |r.buffer|)
    ensures res.Raise? <==> r.reset && n != 0 && (n < 0 || r.buffer == [])
    ensures res.Raise? ==> res.exc == RESET
  {
    if n == 0 then Ok(([], r))
    else if n < 0 then (if r.reset then Raise(RESET) else Ok((r.buffer, r.(buffer := []))))
    else if r.buffer == [] then (if r.reset then Raise(RESET) else Ok(([], r)))
    else
      var k := Pieces.Min(n, |r.buffer|);
      Ok((r.buffer[..k], r.(buffer := r.buffer[k..])))
  }

  /** Reading exactly the length of what is next yields just that. */
  lemma ReadExact(x: seq<byte>, rest: seq<byte>, reset: bool)
    ensures Read(Reader(x + rest, reset), |x|) == Ok((x, Reader(rest, reset)))
  {
    if |x| > 0 {
      assert (x + rest)[..|x|] == x && (x + rest)[|x|..] == rest;
    } else {
      assert x + rest == rest;
    }
  }

  /** `_read_message_length`: 0 when nothing could be read, struct.error
      for one to three bytes. */
  function ReadMessageLength(r: Reader): (res: Result<(nat, Reader)>)
    ensures res.Ok? ==> res.value.1.reset == r.reset && |res.value.1.buffer| <= |r.buffer|
    ensures res.Ok? && res.value.0 == 0 && r.buffer != [] ==> |res.value.1.buffer| < |r.buffer|
  {
    match Read(r, MESSAGE_LENGTH)
    case Raise(e) => Raise(e)
    case Ok((data, r')) =>
      if data == [] then Ok((0, r'))
      else if |data| != 4 then Raise(StructError)
      else Ok((FromBigEndian(data), r'))
  }

  /** `_read_message_id`: -1 when nothing could be read. */
  function ReadMessageId(r: Reader): (res: Result<(int, Reader)>)
    ensures res.Ok? ==> -1 <= res.value.0 < 256 && res.value.1.reset == r.reset && |res.value.1.buffer| <= |r.buffer|
  {
    match Read(r, 1)
    case Raise(e) => Raise(e)
    case Ok((data, r')) => if data == [] then Ok((-1, r')) else Ok((data[0] as int, r'))
  }

  /** `struct.unpack('!I', await self.reader.read(4))[0]`. */
  function ReadU32Field(r: Reader): (res: Result<(u32, Reader)>)
    ensures res.Ok? ==> res.value.1.reset == r.reset && |res.value.1.buffer| == |r.buffer| - 4
  {
    match Read(r, 4)
    case Raise(e) => Raise(e)
    case Ok((data, r')) => if |data| != 4 then Raise(StructError) else Ok((ReadU32(data), r'))
  }

  // ===== Bitfields =====

  /** `byte >> (7 - i) & 1`: bit i of a byte, most significant first. */
  function Bit(b: byte, i: nat): (bit: int)
    requires i < 8
    ensures bit == 0 || bit == 1
  {
    (b / Weight(i)) % 2
  }

  /** 2^(7 - i). */
  function Weight(i: nat): (w: nat)
    requires i < 8
    ensures w == Pieces.Pow2(7 - i)
  {
    assert Pieces.Pow2(1) == 2 && Pieces.Pow2(2) == 4 && Pieces.Pow2(3) == 8 && Pieces.Pow2(4) == 16;
    assert Pieces.Pow2(5) == 32 && Pieces.Pow2(6) == 64 && Pieces.Pow2(7) == 128;
    if i == 0 then 128 else if i == 1 then 64 else if i == 2 then 32 else if i == 3 then 16
    else if i == 4 then 8 else if i == 5 then 4 else if i == 6 then 2 else 1
  }

  /** The eight bits of a byte, most significant first. */
  function ByteBits(b: byte): (bits: seq<int>)
    ensures |bits| == 8
  {
    [b / 128 % 2, b / 64 % 2, b / 32 % 2, b / 16 % 2, b / 8 % 2, b / 4 % 2, b / 2 % 2, b % 2]
  }

  lemma ByteBitsAre(b: byte)
    ensures forall k :: 0 <= k < 8 ==> ByteBits(b)[k] == Bit(b, k)
  {
  }

  /** `_parse_bitfield`: eight bits per byte, most significant first. */
  function ParseBitfield(bs: seq<byte>): (bits: seq<int>)
    ensures |bits| == 8 * |bs|
  {
    if bs == [] then [] else ByteBits(bs[0]) + ParseBitfield(bs[1..])
  }

  /** Bit j of the list is bit j % 8 of byte j / 8. */
  lemma {:induction false} ParseBitfieldBits(bs: seq<byte>)
    ensures forall j :: 0 <= j < 8 * |bs| ==> ParseBitfield(bs)[j] == Bit(bs[j / 8], j % 8)
  {
    if bs != [] {
      ParseBitfieldBits(bs[1..]);
      ByteBitsAre(bs[0]);
      forall j | 0 <= j < 8 * |bs| ensures ParseBitfield(bs)[j] == Bit(bs[j / 8], j % 8) {
        if j >= 8 {
          assert ParseBitfield(bs)[j] == ParseBitfield(bs[1..])[j - 8];
          assert (j - 8) / 8 == j / 8 - 1 && (j - 8) % 8 == j % 8;
        }
      }
    }
  }

  /** The byte whose bits, most significant first, are `bits`. */
  function PackBits(bits: seq<int>): int
  {
    if bits == [] then 0 else 2 * PackBits(bits[..|bits| - 1]) + bits[|bits| - 1]
  }

  /** The top n bits of a byte: `b >> (8 - n)`. */
  function Top(b: byte, n: nat): (t: nat)
    requires n <= 8
    ensures n == 8 ==> t == b
  {
    if n == 0 then 0 else if n == 1 then b / 128 else if n == 2 then b / 64 else if n == 3 then b / 32
    else if n == 4 then b / 16 else if n == 5 then b / 8 else if n == 6 then b / 4 else if n == 7 then b / 2
    else b
  }

  /** One more bit: shifting by one less appends bit n - 1. */
  lemma TopStep(b: byte, n: nat)
    requires 0 < n <= 8
    ensures Top(b, n) / 2 == Top(b, n - 1) && Top(b, n) % 2 == ByteBits(b)[n - 1]
  {
  }

  /** The first n bits of a byte are the byte shifted right by 8 - n. */
  lemma {:induction false} PackByteBitsPrefix(b: byte, n: nat)
    requires n <= 8
    ensures PackBits(ByteBits(b)[..n]) == Top(b, n)
  {
    if n > 0 {
      PackByteBitsPrefix(b, n - 1);
      assert ByteBits(b)[..n][..n - 1] == ByteBits(b)[..n - 1];
      TopStep(b, n);
    }
  }

  /** The inverse of `_parse_bitfield`: the bytes a peer packs its bits into. */
  function PackBitfield(bits: seq<int>): seq<int>
    requires |bits| % 8 == 0
  {
    if bits == [] then [] else [PackBits(bits[..8])] + PackBitfield(bits[8..])
  }

  /** Packing the parsed bits gives back the bitfield bytes. */
  lemma {:induction false} PackParseBitfield(bs: seq<byte>)
    ensures PackBitfield(ParseBitfield(bs)) == bs
  {
    if bs != [] {
      var bits := ParseBitfield(bs);
      assert bits[..8] == ByteBits(bs[0]) && bits[8..] == ParseBitfield(bs[1..]);
      PackByteBitsPrefix(bs[0], 8);
      assert ByteBits(bs[0])[..8] == ByteBits(bs[0]);
      PackParseBitfield(bs[1..]);
    }
  }

  function Sum(s: seq<int>): int
  {
    if s == [] then 0 else Sum(s[..|s| - 1]) + s[|s| - 1]
  }

  lemma {:induction false} SumConcat(a: seq<int>, b: seq<int>)
    ensures Sum(a + b) == Sum(a) + Sum(b)
  {
    if b != [] {
      SumConcat(a, b[..|b| - 1]);
      assert (a + b)[..|a + b| - 1] == a + b[..|b| - 1];
    } else {
      assert a + b == a;
    }
  }

  /** The first n bits of a byte hold as many ones as b >> (8 - n). */
  lemma {:induction false} SumByteBitsPrefix(b: byte, n: nat)
    requires n <= 8
    ensures Sum(ByteBits(b)[..n]) == Pieces.BitCount(Top(b, n))
  {
    if n > 0 {
      SumByteBitsPrefix(b, n - 1);
      assert ByteBits(b)[..n][..n - 1] == ByteBits(b)[..n - 1];
      TopStep(b, n);
    }
  }

  /** The parsed bitfield has as many ones as `update_peer_progress` counts
      set bits in the same bytes. */
  lemma {:induction false} ParseBitfieldOnes(bs: seq<byte>)
    ensures Sum(ParseBitfield(bs)) == Pieces.Popcount(bs)
  {
    if bs != [] {
      SumConcat(ByteBits(bs[0]), ParseBitfield(bs[1..]));
      SumByteBitsPrefix(bs[0], 8);
      assert ByteBits(bs[0])[..8] == ByteBits(bs[0]);
      ParseBitfieldOnes(bs[1..]);
    }
  }

  // ===== Messages =====

  /** A length-prefixed message: the length of id and payload, the id, the payload. */
  function Frame(id: byte, payload: seq<byte>): (m: seq<byte>)
    requires 1 + |payload| < 0x1_0000_0000
    ensures |m| == 5 + |payload| && m[..4] == U32(1 + |payload|) && m[4] == id && m[5..] == payload
  {
    U32(1 + |payload|) + [id] + payload
  }

  /** The messages a peer can send. */
  datatype PeerMsg =
    | KeepAlive
    | Choke
    | Unchoke
    | Interested
    | NotInterested
    | Have(index: u32)
    | BitfieldMsg(bits: seq<byte>)
    | Request(index: u32, begin: u32, length: u32)
    | PieceMsg(index: u32, begin: u32, block: seq<byte>)
    | Cancel(index: u32, begin: u32, length: u32)
    | Port(port: u16)

  /** The id of a message with one. */
  function Id(m: PeerMsg): byte
    requires !m.KeepAlive?
  {
    match m
    case Choke => CHOKE
    case Unchoke => UNCHOKE
    case Interested => INTERESTED
    case NotInterested => NOT_INTERESTED
    case Have(_) => HAVE
    case BitfieldMsg(_) => BITFIELD
    case Request(_, _, _) => REQUEST
    case PieceMsg(_, _, _) => PIECE
    case Cancel(_, _, _) => CANCEL
    case Port(_) => PORT
  }

  /** What follows the id. */
  function Payload(m: PeerMsg): seq<byte>
  {
    match m
    case Have(i) => U32(i)
    case BitfieldMsg(bits) => bits
    case Request(i, b, l) => U32(i) + U32(b) + U32(l)
    case PieceMsg(i, b, block) => U32(i) + U32(b) + block
    case Cancel(i, b, l) => U32(i) + U32(b) + U32(l)
    case Port(p) => U16(p)
    case _ => []
  }

  /** Its length prefix fits in four bytes. */
  predicate Sized(m: PeerMsg)
  {
    1 + |Payload(m)| < 0x1_0000_0000
  }

  /** The bytes of a message on the wire. */
  function Encode(m: PeerMsg): seq<byte>
    requires Sized(m)
  {
    if m.KeepAlive? then U32(0) else Frame(Id(m), Payload(m))
  }

  /** `struct.pack('!IBI', 5, HAVE, piece_index)`: struct.error for an
      index outside the unsigned 32-bit range. */
  function EncodeHave(pieceIndex: int): (r: Result<seq<byte>>)
    ensures r.Raise? <==> !(0 <= pieceIndex < 0x1_0000_0000)
    ensures r.Raise? ==> r.exc == StructError
    ensures r.Ok? ==> r.value == Encode(Have(pieceIndex))
  {
    if 0 <= pieceIndex < 0x1_0000_0000 then Ok(Frame(HAVE, U32(pieceIndex))) else Raise(StructError)
  }

  predicate IsU32(x: int)
  {
    0 <= x < 0x1_0000_0000
  }

  /** `struct.pack('!IBIII', 13, REQUEST, ...)`: struct.error when any field
      is outside the unsigned 32-bit range. */
  function EncodeRequest(pieceIndex: int, blockOffset: int, blockLength: int): (r: Result<seq<byte>>)
    ensures r.Raise? <==> !(IsU32(pieceIndex) && IsU32(blockOffset) && IsU32(blockLength))
    ensures r.Raise? ==> r.exc == StructError
    ensures r.Ok? ==> r.value == Encode(Request(pieceIndex, blockOffset, blockLength)) && |r.value| == 17
  {
    if IsU32(pieceIndex) && IsU32(blockOffset) && IsU32(blockLength) then
      Ok(Frame(REQUEST, U32(pieceIndex) + U32(blockOffset) + U32(blockLength)))
    else Raise(StructError)
  }

  // ===== Decoding =====

  /** What `receive_messages` keeps about the remote side. */
  datatype Remote = Remote(bitfield: seq<int>, peerChoked: bool, peerInterested: bool)

  /** A block handed to `piece_manager.block_received`. */
  type Event = Pieces.Arrival

  /** One pass of the loop of `receive_messages`: the new remote state, the
      rest of the stream and the block received, if any; or the connection
      was lost (ConnectionError, caught); or another exception escaped. */
  datatype Step = Next(remote: Remote, rest: Reader, event: Option<Event>) | Lost | Fail(exc: Exc)

  function Caught(e: Exc): Step
  {
    if e.ConnectionError? then Lost else Fail(e)
  }

  /** HAVE: set the announced piece's bit; IndexError past the end. */
  function OnHave(f: Remote, r: Reader): (s: Step)
    ensures s.Next? ==> s.rest.reset == r.reset && |s.rest.buffer| <= |r.buffer|
  {
    match ReadU32Field(r)
    case Raise(e) => Caught(e)
    case Ok((i, r1)) =>
      if i < |f.bitfield| then Next(f.(bitfield := f.bitfield[i := 1]), r1, None) else Fail(IndexError)
  }

  /** PIECE: index, offset, then the rest of the message is the block. */
  function OnPiece(f: Remote, length: nat, r: Reader): (s: Step)
    ensures s.Next? ==> s.rest.reset == r.reset && |s.rest.buffer| <= |r.buffer|
  {
    match ReadU32Field(r)
    case Raise(e) => Caught(e)
    case Ok((i, r1)) =>
      match ReadU32Field(r1)
      case Raise(e) => Caught(e)
      case Ok((offset, r2)) =>
        match Read(r2, length - 9)
        case Raise(e) => Caught(e)
        case Ok((data, r3)) => Next(f, r3, Some(Pieces.Arrival(i, offset, data)))
  }

  /** BITFIELD: the peer's bitfield replaces ours. */
  function OnBitfield(f: Remote, length: nat, r: Reader): (s: Step)
    ensures s.Next? ==> s.rest.reset == r.reset && |s.rest.buffer| <= |r.buffer|
  {
    match Read(r, length - 1)
    case Raise(e) => Caught(e)
    case Ok((data, r1)) => Next(f.(bitfield := ParseBitfield(data)), r1, None)
  }

  /** Any other message is read and dropped. */
  function OnOther(f: Remote, length: nat, r: Reader): (s: Step)
    ensures s.Next? ==> s.rest.reset == r.reset && |s.rest.buffer| <= |r.buffer|
  {
    match Read(r, length - 1)
    case Raise(e) => Caught(e)
    case Ok((_, r1)) => Next(f, r1, None)
  }

  /** The branch on the message id, after the length and the id were read. */
  function Dispatch(f: Remote, length: nat, id: int, r: Reader): (s: Step)
    ensures s.Next? ==> s.rest.reset == r.reset && |s.rest.buffer| <= |r.buffer|
  {
    if id == CHOKE as int then Next(f.(peerChoked := true), r, None)
    else if id == UNCHOKE as int then Next(f.(peerChoked := false), r, None)
    else if id == INTERESTED as int then Next(f.(peerInterested := true), r, None)
    else if id == NOT_INTERESTED as int then Next(f.(peerInterested := false), r, None)
    else if id == HAVE as int then OnHave(f, r)
    else if id == PIECE as int then OnPiece(f, length, r)
    else if id == BITFIELD as int then OnBitfield(f, length, r)
    else OnOther(f, length, r)
  }

  /** One pass of the loop: read the length (0 means keep-alive), then the
      id, then dispatch. */
  function StepOnce(f: Remote, r: Reader): (s: Step)
    ensures s.Next? && (r.buffer != [] || r.reset) ==> s.rest.reset == r.reset && |s.rest.buffer| < |r.buffer|
  {
    match ReadMessageLength(r)
    case Raise(e) => Caught(e)
    case Ok((length, r1)) =>
      if length == 0 then Next(f, r1, None)
      else
        match ReadMessageId(r1)
        case Raise(e) => Caught(e)
        case Ok((id, r2)) => Dispatch(f, length, id, r2)
  }

  /** How `receive_messages` ends: it was not connected; the connection was
      lost; the stream ran dry, after which the source reads empty
      keep-alives forever; or an exception escaped. */
  datatype Outcome = NotConnected | Disconnected | Stalled | Raised(exc: Exc)

  /** The whole loop of `receive_messages` from a connected state: how it
      ends, the final remote state and the blocks handed on, in order. */
  function Run(f: Remote, r: Reader): (Outcome, Remote, seq<Event>)
    decreases |r.buffer|, if r.reset then 1 else 0
  {
    if r.buffer == [] && !r.reset then (Stalled, f, [])
    else
      match StepOnce(f, r)
      case Lost => (Disconnected, f, [])
      case Fail(e) => (Raised(e), f, [])
      case Next(f', r', ev) =>
        var (o, f'', evs) := Run(f', r');
        (o, f'', Events(ev) + evs)
  }

  function Events(ev: Option<Event>): seq<Event>
  {
    if ev.Some? then [ev.value] else []
  }

  /** A run preceded by blocks handed on before it. */
  function Prepend(evs: seq<Event>, run: (Outcome, Remote, seq<Event>)): (Outcome, Remote, seq<Event>)
  {
    (run.0, run.1, evs + run.2)
  }

  /** One pass of the loop, then the rest of the run. */
  lemma RunNext(f: Remote, r: Reader)
    requires r.buffer != [] || r.reset
    requires StepOnce(f, r).Next?
    ensures var s := StepOnce(f, r);
      Run(f, r) == Prepend(Events(s.event), Run(s.remote, s.rest))
  {
  }

  /** A run seen part way: after one more pass, the blocks of that pass
      join those already handed on. */
  lemma RunPass(f0: Remote, r0: Reader, done: seq<Event>, f: Remote, r: Reader)
    requires r.buffer != [] || r.reset
    requires StepOnce(f, r).Next?
    requires Run(f0, r0) == Prepend(done, Run(f, r))
    ensures var s := StepOnce(f, r);
      Run(f0, r0) == Prepend(done + Events(s.event), Run(s.remote, s.rest))
  {
    var s := StepOnce(f, r);
    RunNext(f, r);
    var rest := Run(s.remote, s.rest);
    assert done + (Events(s.event) + rest.2) == (done + Events(s.event)) + rest.2;
  }

  // ===== Decoding what was encoded =====

  /** What receiving a message does to the remote state and which block it
      hands on; None when it raises IndexError (a HAVE past the end of the
      bitfield). */
  function Expected(f: Remote, m: PeerMsg): Option<(Remote, Option<Event>)>
  {
    match m
    case KeepAlive => Some((f, None))
    case Choke => Some((f.(peerChoked := true), None))
    case Unchoke => Some((f.(peerChoked := false), None))
    case Interested => Some((f.(peerInterested := true), None))
    case NotInterested => Some((f.(peerInterested := false), None))
    case Have(i) => if i < |f.bitfield| then Some((f.(bitfield := f.bitfield[i := 1]), None)) else None
    case BitfieldMsg(bits) => Some((f.(bitfield := ParseBitfield(bits)), None))
    case PieceMsg(i, b, block) => Some((f, Some(Pieces.Arrival(i, b, block))))
    case _ => Some((f, None))
  }

  function EncodeAll(ms: seq<PeerMsg>): seq<byte>
    requires forall m :: m in ms ==> Sized(m)
  {
    if ms == [] then [] else Encode(ms[0]) + EncodeAll(ms[1..])
  }

  /** Receiving the messages one after the other. */
  function ExpectedAll(f: Remote, ms: seq<PeerMsg>, reset: bool): (Outcome, Remote, seq<Event>)
    decreases |ms|
  {
    if ms == [] then (if reset then Disconnected else Stalled, f, [])
    else
      match Expected(f, ms[0])
      case None => (Raised(IndexError), f, [])
      case Some((f', ev)) =>
        var (o, f'', evs) := ExpectedAll(f', ms[1..], reset);
        (o, f'', Events(ev) + evs)
  }

  // ===== Connecting =====

  /** `_receive_bitfield`: a keep-alive leaves the bitfield as it was; any
      message other than BITFIELD raises ConnectionError. */
  function ReceiveBitfield(r: Reader, bitfield: seq<int>): Result<(seq<int>, Reader)>
  {
    match ReadMessageLength(r)
    case Raise(e) => Raise(e)
    case Ok((length, r1)) =>
      if length == 0 then Ok((bitfield, r1))
      else
        match ReadMessageId(r1)
        case Raise(e) => Raise(e)
        case Ok((id, r2)) =>
          if id != BITFIELD as int then Raise(ConnectionError("Expected bitfield"))
          else
            match Read(r2, length - 1)
            case Raise(e) => Raise(e)
            case Ok((data, r3)) => Ok((ParseBitfield(data), r3))
  }

  /** `connect` after the connection is open: read and check the 68-byte
      handshake reply, then receive the bitfield. */
  function Greet(r: Reader, infoHash: seq<byte>, bitfield: seq<int>): Result<(seq<int>, Reader)>
  {
    match Read(r, 68)
    case Raise(e) => Raise(e)
    case Ok((response, r1)) =>
      match CheckHandshake(response, infoHash)
      case Raise(e) => Raise(e)
      case Ok(_) => ReceiveBitfield(r1, bitfield)
  }
}
