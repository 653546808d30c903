/** Decoding what was encoded: the receive loop of `PeerConnection`
    (src/core/peer.py) reads every message a peer encodes exactly as it was
    meant, and `connect` accepts exactly a correct handshake reply followed
    by a BITFIELD message. */
module PeerDecoding {
  import opened Wrappers
  import opened Bytes
  import opened PeerWire
  import Pieces

  lemma ReadU32Exact(x: u32, rest: seq<byte>, reset: bool)
    ensures ReadU32Field(Reader(U32(x) + rest, reset)) == Ok((x, Reader(rest, reset)))
  {
    ReadExact(U32(x), rest, reset);
  }

  /** The length prefix of a frame is read as its length. */
  lemma LengthOfFrame(id: byte, payload: seq<byte>, rest: seq<byte>, reset: bool)
    requires 1 + |payload| < 0x1_0000_0000
    ensures ReadMessageLength(Reader(Frame(id, payload) + rest, reset)) == Ok((1 + |payload|, Reader([id] + (payload + rest), reset)))
  {
    var len := U32(1 + |payload|);
    assert Frame(id, payload) + rest == len + ([id] + (payload + rest));
    ReadExact(len, [id] + (payload + rest), reset);
  }

  lemma IdOfFrame(id: byte, tail: seq<byte>, reset: bool)
    ensures ReadMessageId(Reader([id] + tail, reset)) == Ok((id as int, Reader(tail, reset)))
  {
    ReadExact([id], tail, reset);
  }

  /** A frame is read as its length, then its id, and the dispatch starts
      at its payload. */
  lemma StepFrame(f: Remote, id: byte, payload: seq<byte>, rest: seq<byte>, reset: bool)
    requires 1 + |payload| < 0x1_0000_0000
    ensures StepOnce(f, Reader(Frame(id, payload) + rest, reset)) == Dispatch(f, 1 + |payload|, id, Reader(payload + rest, reset))
  {
    LengthOfFrame(id, payload, rest, reset);
    IdOfFrame(id, payload + rest, reset);
  }

  lemma StepHave(f: Remote, i: u32, rest: seq<byte>, reset: bool)
    ensures StepOnce(f, Reader(Encode(Have(i)) + rest, reset)) ==
      if i < |f.bitfield| then Next(f.(bitfield := f.bitfield[i := 1]), Reader(rest, reset), None) else Fail(IndexError)
  {
    StepFrame(f, HAVE, U32(i), rest, reset);
    ReadU32Exact(i, rest, reset);
  }

  lemma StepBitfield(f: Remote, bits: seq<byte>, rest: seq<byte>, reset: bool)
    requires 1 + |bits| < 0x1_0000_0000
    ensures var s := StepOnce(f, Reader(Frame(BITFIELD, bits) + rest, reset));
      s.Next? && s.remote == f.(bitfield := ParseBitfield(bits)) && s.rest == Reader(rest, reset) && s.event == None
  {
    StepBitfieldFrame(f, bits, rest, reset);
    OnBitfieldExact(f, bits, rest, reset);
  }

  lemma StepBitfieldFrame(f: Remote, bits: seq<byte>, rest: seq<byte>, reset: bool)
    requires 1 + |bits| < 0x1_0000_0000
    ensures StepOnce(f, Reader(Frame(BITFIELD, bits) + rest, reset)) == OnBitfield(f, 1 + |bits|, Reader(bits + rest, reset))
  {
    StepFrame(f, BITFIELD, bits, rest, reset);
  }

  lemma OnBitfieldExact(f: Remote, bits: seq<byte>, rest: seq<byte>, reset: bool)
    ensures var s := OnBitfield(f, 1 + |bits|, Reader(bits + rest, reset));
      s.Next? && s.remote == f.(bitfield := ParseBitfield(bits)) && s.rest == Reader(rest, reset) && s.event == None
  {
    ReadExact(bits, rest, reset);
  }

  /** REQUEST, CANCEL and PORT are read whole and ignored. */
  lemma StepIgnored(f: Remote, id: byte, payload: seq<byte>, rest: seq<byte>, reset: bool)
    requires id == REQUEST || id == CANCEL || id == PORT
    requires 1 + |payload| < 0x1_0000_0000
    ensures StepOnce(f, Reader(Frame(id, payload) + rest, reset)) == Next(f, Reader(rest, reset), None)
  {
    StepFrame(f, id, payload, rest, reset);
    ReadExact(payload, rest, reset);
  }

  /** `StepIgnored` for an encoded REQUEST, CANCEL or PORT message. */
  lemma StepIgnoredMsg(f: Remote, m: PeerMsg, rest: seq<byte>, reset: bool)
    requires (m.Request? || m.Cancel? || m.Port?) && Sized(m)
    ensures StepOnce(f, Reader(Encode(m) + rest, reset)) == Next(f, Reader(rest, reset), None)
  {
    assert Encode(m) == Frame(Id(m), Payload(m));
    StepIgnored(f, Id(m), Payload(m), rest, reset);
  }

  lemma ReadPiecePayload(i: u32, b: u32, block: seq<byte>, rest: seq<byte>, reset: bool)
    ensures var r := Reader(U32(i) + U32(b) + block + rest, reset);
      && ReadU32Field(r) == Ok((i, Reader(U32(b) + block + rest, reset)))
      && ReadU32Field(Reader(U32(b) + block + rest, reset)) == Ok((b, Reader(block + rest, reset)))
      && Read(Reader(block + rest, reset), |block|) == Ok((block, Reader(rest, reset)))
  {
    assert U32(i) + U32(b) + block + rest == U32(i) + (U32(b) + block + rest);
    ReadU32Exact(i, U32(b) + block + rest, reset);
    assert U32(b) + block + rest == U32(b) + (block + rest);
    ReadU32Exact(b, block + rest, reset);
    ReadExact(block, rest, reset);
  }

  lemma OnPieceExact(f: Remote, i: u32, b: u32, block: seq<byte>, rest: seq<byte>, reset: bool)
    ensures OnPiece(f, 9 + |block|, Reader(U32(i) + U32(b) + block + rest, reset)) ==
      Next(f, Reader(rest, reset), Some(Pieces.Arrival(i, b, block)))
  {
    ReadPiecePayload(i, b, block, rest, reset);
  }

  lemma StepPiece(f: Remote, i: u32, b: u32, block: seq<byte>, rest: seq<byte>, reset: bool)
    requires 9 + |block| < 0x1_0000_0000
    ensures StepOnce(f, Reader(Encode(PieceMsg(i, b, block)) + rest, reset)) ==
      Next(f, Reader(rest, reset), Some(Pieces.Arrival(i, b, block)))
  {
    var p := U32(i) + U32(b) + block;
    assert Encode(PieceMsg(i, b, block)) == Frame(PIECE, p);
    StepFrame(f, PIECE, p, rest, reset);
    assert p + rest == U32(i) + U32(b) + block + rest;
    OnPieceExact(f, i, b, block, rest, reset);
  }

  /** Every message is decoded exactly as what it says, and the next
      message starts right after it. */
  lemma StepEncoded(f: Remote, m: PeerMsg, rest: seq<byte>, reset: bool)
    requires Sized(m)
    ensures var s := StepOnce(f, Reader(Encode(m) + rest, reset));
      match Expected(f, m)
      case None => s == Fail(IndexError)
      case Some((f', ev)) => s.Next? && s.remote == f' && s.rest == Reader(rest, reset) && s.event == ev
  {
    if m.KeepAlive? || m.Choke? || m.Unchoke? || m.Interested? || m.NotInterested? || m.Have? {
      StepEncodedState(f, m, rest, reset);
    } else {
      StepEncodedData(f, m, rest, reset);
    }
  }

  /** `StepEncoded` for the messages that only change the remote state. */
  lemma StepEncodedState(f: Remote, m: PeerMsg, rest: seq<byte>, reset: bool)
    requires m.KeepAlive? || m.Choke? || m.Unchoke? || m.Interested? || m.NotInterested? || m.Have?
    ensures var s := StepOnce(f, Reader(Encode(m) + rest, reset));
      match Expected(f, m)
      case None => s == Fail(IndexError)
      case Some((f', ev)) => s.Next? && s.remote == f' && s.rest == Reader(rest, reset) && s.event == ev
  {
    assert [] + rest == rest;
    match m
    case KeepAlive =>
      ReadExact(U32(0), rest, reset);
    case Choke => StepFrame(f, CHOKE, [], rest, reset);
    case Unchoke => StepFrame(f, UNCHOKE, [], rest, reset);
    case Interested => StepFrame(f, INTERESTED, [], rest, reset);
    case NotInterested => StepFrame(f, NOT_INTERESTED, [], rest, reset);
    case Have(i) => StepHave(f, i, rest, reset);
  }

  /** `StepEncoded` for the messages with a payload beyond one field. */
  lemma StepEncodedData(f: Remote, m: PeerMsg, rest: seq<byte>, reset: bool)
    requires Sized(m)
    requires m.BitfieldMsg? || m.Request? || m.Cancel? || m.Port? || m.PieceMsg?
    ensures var s := StepOnce(f, Reader(Encode(m) + rest, reset));
      match Expected(f, m)
      case None => s == Fail(IndexError)
      case Some((f', ev)) => s.Next? && s.remote == f' && s.rest == Reader(rest, reset) && s.event == ev
  {
    match m
    case BitfieldMsg(bits) =>
      assert Encode(m) == Frame(BITFIELD, bits);
      StepBitfield(f, bits, rest, reset);
    case Request(_, _, _) => StepIgnoredMsg(f, m, rest, reset);
    case Cancel(_, _, _) => StepIgnoredMsg(f, m, rest, reset);
    case Port(_) => StepIgnoredMsg(f, m, rest, reset);
    case PieceMsg(i, b, block) => StepPiece(f, i, b, block, rest, reset);
  }

  /** The receive loop decodes a stream of well-formed messages message by
      message: it applies each one in order, hands on the blocks of the
      PIECE messages in order, and ends when the stream ends (or at the
      first HAVE past the end of the bitfield). */
  lemma {:induction false} RunEncoded(f: Remote, ms: seq<PeerMsg>, reset: bool)
    requires forall m :: m in ms ==> Sized(m)
    ensures Run(f, Reader(EncodeAll(ms), reset)) == ExpectedAll(f, ms, reset)
    decreases |ms|
  {
    if ms == [] {
      if reset {
        assert ReadMessageLength(Reader([], true)) == Raise(RESET);
      }
    } else {
      assert forall m :: m in ms[1..] ==> m in ms;
      StepEncoded(f, ms[0], EncodeAll(ms[1..]), reset);
      match Expected(f, ms[0])
      case None =>
      case Some((f', ev)) =>
        RunEncoded(f', ms[1..], reset);
    }
  }

  /** A BITFIELD message as the first message is parsed into the bitfield. */
  lemma ReceiveBitfieldEncoded(bits: seq<byte>, rest: seq<byte>, reset: bool, bitfield: seq<int>)
    requires 1 + |bits| < 0x1_0000_0000
    ensures var g := ReceiveBitfield(Reader(Frame(BITFIELD, bits) + rest, reset), bitfield);
      g.Ok? && g.value.0 == ParseBitfield(bits) && g.value.1 == Reader(rest, reset)
  {
    LengthOfFrame(BITFIELD, bits, rest, reset);
    IdOfFrame(BITFIELD, bits + rest, reset);
    ReadExact(bits, rest, reset);
  }

  /** Any other id as the first message is refused. */
  lemma ReceiveBitfieldRejects(id: byte, payload: seq<byte>, rest: seq<byte>, reset: bool, bitfield: seq<int>)
    requires id != BITFIELD && 1 + |payload| < 0x1_0000_0000
    ensures ReceiveBitfield(Reader(Frame(id, payload) + rest, reset), bitfield) == Raise(ConnectionError("Expected bitfield"))
  {
    LengthOfFrame(id, payload, rest, reset);
    IdOfFrame(id, payload + rest, reset);
  }

  /** After a correct handshake reply the greeting is decided by the first message. */
  lemma GreetAfterHandshake(reply: seq<byte>, infoHash: seq<byte>, next: seq<byte>, rest: seq<byte>, reset: bool, bitfield: seq<int>)
    requires |reply| == 68 && reply[..20] == HANDSHAKE && reply[28..48] == infoHash
    ensures Greet(Reader(reply + next + rest, reset), infoHash, bitfield) == ReceiveBitfield(Reader(next + rest, reset), bitfield)
  {
    assert reply + next + rest == reply + (next + rest);
    ReadExact(reply, next + rest, reset);
  }

  /** A peer that answers with a well-formed handshake for our info hash
      and then a BITFIELD message is connected with that bitfield parsed,
      and everything after it is left for the receive loop. */
  lemma GreetAccepts(reply: seq<byte>, infoHash: seq<byte>, bits: seq<byte>, rest: seq<byte>, reset: bool, bitfield: seq<int>)
    requires |reply| == 68 && reply[..20] == HANDSHAKE && reply[28..48] == infoHash
    requires 1 + |bits| < 0x1_0000_0000
    ensures var g := Greet(Reader(reply + Frame(BITFIELD, bits) + rest, reset), infoHash, bitfield);
      g.Ok? && g.value.0 == ParseBitfield(bits) && g.value.1 == Reader(rest, reset)
  {
    GreetAfterHandshake(reply, infoHash, Frame(BITFIELD, bits), rest, reset, bitfield);
    ReceiveBitfieldEncoded(bits, rest, reset, bitfield);
  }

  /** Any first message other than a keep-alive or BITFIELD fails the
      connection with ConnectionError. */
  lemma GreetRejectsOtherFirstMessage(reply: seq<byte>, infoHash: seq<byte>, m: PeerMsg, rest: seq<byte>, reset: bool, bitfield: seq<int>)
    requires |reply| == 68 && reply[..20] == HANDSHAKE && reply[28..48] == infoHash
    requires Sized(m) && !m.BitfieldMsg? && !m.KeepAlive?
    ensures Greet(Reader(reply + Encode(m) + rest, reset), infoHash, bitfield) == Raise(ConnectionError("Expected bitfield"))
  {
    assert Encode(m) == Frame(Id(m), Payload(m));
    GreetAfterHandshake(reply, infoHash, Frame(Id(m), Payload(m)), rest, reset, bitfield);
    ReceiveBitfieldRejects(Id(m), Payload(m), rest, reset, bitfield);
  }

}
