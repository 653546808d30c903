/** The `PeerConnection` object of src/core/peer.py: its connection state,
    the messages it sends and its receive loop, which hands every block
    to the piece manager. */
module PeerConnections {
  import opened Wrappers
  import opened Bytes
  import opened PeerWire
  import Pieces

  class PeerConnection {
    /** `peer_id.encode()`. */
    const peerId: seq<byte>
    const infoHash: seq<byte>
    const pieceManager: Pieces.PieceManager
    const peer: (string, int)
    const timeout: int
    /** Everything written to the connection, or None before it is open. */
    var writer: Option<seq<byte>>
    var reader: Option<Reader>
    var bitfield: seq<int>
    var connected: bool
    var choked: bool
    var peerChoked: bool
    var interested: bool
    var peerInterested: bool

    constructor (peerId: seq<byte>, infoHash: seq<byte>, pieceManager: Pieces.PieceManager, peer: (string, int), timeout: int)
      ensures this.peerId == peerId && this.infoHash == infoHash && this.pieceManager == pieceManager
      ensures this.peer == peer && this.timeout == timeout
      ensures writer == None && reader == None && bitfield == [] && !connected
      ensures choked && peerChoked && !interested && !peerInterested
    {
      this.peerId := peerId;
      this.infoHash := infoHash;
      this.pieceManager := pieceManager;
      this.peer := peer;
      this.timeout := timeout;
      writer := None;
      reader := None;
      bitfield := [];
      connected := false;
      choked := true;
      peerChoked := true;
      interested := false;
      peerInterested := false;
    }

    function RemoteState(): Remote
      reads this
    {
      Remote(bitfield, peerChoked, peerInterested)
    }

    /** `connect()`.  `established` says whether `open_connection` succeeded
        within the timeout, and `input` is what the peer then sends.  Every
        exception is caught and turned into False. */
    method Connect(established: bool, input: Reader) returns (ok: bool)
      modifies this`writer, this`reader, this`bitfield, this`connected
      ensures !established ==> !ok && writer == old(writer) && reader == old(reader)
      ensures established ==> writer == Some(Handshake(infoHash, peerId)) && reader.Some?
      ensures ok <==> established && Greet(input, infoHash, old(bitfield)).Ok?
      ensures ok ==> connected && (bitfield, reader.value) == Greet(input, infoHash, old(bitfield)).value
      ensures !ok ==> connected == old(connected) && bitfield == old(bitfield)
    {
      if !established {
        return false;
      }
      reader := Some(input);
      writer := Some(Handshake(infoHash, peerId));
      match Greet(input, infoHash, bitfield)
      case Raise(_) =>
        return false;
      case Ok((bits, rest)) =>
        bitfield := bits;
        reader := Some(rest);
        connected := true;
        return true;
    }

    /** `send_interested()`: AttributeError when the connection was never
        opened. */
    method SendInterested() returns (r: Result<()>)
      modifies this`writer, this`interested
      ensures old(writer).None? ==> r == Raise(AttributeError) && writer == None && interested == old(interested)
      ensures old(writer).Some? ==> r == Ok(()) && writer == Some(old(writer).value + Encode(Interested)) && interested
    {
      if writer.None? {
        return Raise(AttributeError);
      }
      writer := Some(writer.value + Frame(INTERESTED, []));
      interested := true;
      return Ok(());
    }

    /** `send_not_interested()`. */
    method SendNotInterested() returns (r: Result<()>)
      modifies this`writer, this`interested
      ensures old(writer).None? ==> r == Raise(AttributeError) && writer == None && interested == old(interested)
      ensures old(writer).Some? ==> r == Ok(()) && writer == Some(old(writer).value + Encode(NotInterested)) && !interested
    {
      if writer.None? {
        return Raise(AttributeError);
      }
      writer := Some(writer.value + Frame(NOT_INTERESTED, []));
      interested := false;
      return Ok(());
    }

    /** `send_unchoke()`. */
    method SendUnchoke() returns (r: Result<()>)
      modifies this`writer, this`choked
      ensures old(writer).None? ==> r == Raise(AttributeError) && writer == None && choked == old(choked)
      ensures old(writer).Some? ==> r == Ok(()) && writer == Some(old(writer).value + Encode(Unchoke)) && !choked
    {
      if writer.None? {
        return Raise(AttributeError);
      }
      writer := Some(writer.value + Frame(UNCHOKE, []));
      choked := false;
      return Ok(());
    }

    /** `send_have(piece_index)`: the message is packed first, so a bad
        index raises struct.error even before the writer is looked at. */
    method SendHave(pieceIndex: int) returns (r: Result<()>)
      modifies this`writer
      ensures EncodeHave(pieceIndex).Raise? ==> r == Raise(StructError) && writer == old(writer)
      ensures EncodeHave(pieceIndex).Ok? && old(writer).None? ==> r == Raise(AttributeError) && writer == None
      ensures EncodeHave(pieceIndex).Ok? && old(writer).Some? ==>
        r == Ok(()) && writer == Some(old(writer).value + Encode(Have(pieceIndex)))
    {
      var message := EncodeHave(pieceIndex);
      if message.Raise? {
        return Raise(message.exc);
      }
      if writer.None? {
        return Raise(AttributeError);
      }
      writer := Some(writer.value + message.value);
      return Ok(());
    }

    /** `send_request(piece_index, block_offset, block_length)`. */
    method SendRequest(pieceIndex: int, blockOffset: int, blockLength: int) returns (r: Result<()>)
      modifies this`writer
      ensures !(IsU32(pieceIndex) && IsU32(blockOffset) && IsU32(blockLength)) ==> r == Raise(StructError) && writer == old(writer)
      ensures IsU32(pieceIndex) && IsU32(blockOffset) && IsU32(blockLength) && old(writer).None? ==> r == Raise(AttributeError) && writer == None
      ensures IsU32(pieceIndex) && IsU32(blockOffset) && IsU32(blockLength) && old(writer).Some? ==>
        r == Ok(()) && writer == Some(old(writer).value + Encode(Request(pieceIndex, blockOffset, blockLength)))
    {
      var message := EncodeRequest(pieceIndex, blockOffset, blockLength);
      if message.Raise? {
        return Raise(message.exc);
      }
      if writer.None? {
        return Raise(AttributeError);
      }
      writer := Some(writer.value + message.value);
      return Ok(());
    }

    /** `receive_messages()`: runs the loop while connected, handing every
        PIECE message to `piece_manager.block_received`.  A lost connection
        clears `connected` and ends the loop; struct.error and IndexError
        escape; at the end of the stream the source keeps reading empty
        keep-alives, where the model stops with `Stalled`. */
    method ReceiveMessages() returns (outcome: Outcome)
      requires pieceManager.Valid()
      requires connected ==> reader.Some?
      modifies this`bitfield, this`peerChoked, this`peerInterested, this`connected, this`reader
      modifies pieceManager`missingPieces, pieceManager`completedPieces, pieceManager.blockSet, pieceManager.allPieces
      ensures pieceManager.Valid()
      ensures !old(connected) ==>
        outcome == NotConnected && RemoteState() == old(RemoteState()) && pieceManager.Abs() == old(pieceManager.Abs())
      ensures old(connected) ==>
        var run := Run(old(RemoteState()), old(reader).value);
        && outcome == run.0 && RemoteState() == run.1 && (connected <==> run.0 != Disconnected)
        && pieceManager.Abs() == Pieces.ReceiveAll(old(pieceManager.Abs()), pieceManager.sha1, run.2)
    {
      if !connected {
        return NotConnected;
      }
      var r := reader.value;
      ghost var f0 := RemoteState();
      ghost var r0 := r;
      ghost var s0 := pieceManager.Abs();
      ghost var events: seq<Event> := [];
      assert [] + Run(f0, r0).2 == Run(f0, r0).2;
      assert Pieces.Inv(s0);
      while connected
        invariant connected && pieceManager.Valid()
        invariant Run(f0, r0) == Prepend(events, Run(RemoteState(), r))
        invariant pieceManager.Abs() == Pieces.ReceiveAll(s0, pieceManager.sha1, events)
        decreases |r.buffer|, if r.reset then 1 else 0
      {
        if r.buffer == [] && !r.reset {
          reader := Some(r);
          assert events + [] == events;
          return Stalled;
        }
        ghost var f := RemoteState();
        var step := StepOnce(RemoteState(), r);
        Apply(step);
        if step.Lost? {
          assert events + [] == events;
          return Disconnected;
        } else if step.Fail? {
          assert events + [] == events;
          return Raised(step.exc);
        }
        RunPass(f0, r0, events, f, r);
        Pieces.ReceiveAllConcat(s0, pieceManager.sha1, events, Events(step.event));
        events := events + Events(step.event);
        r := step.rest;
      }
      return Disconnected;
    }

    /** One pass of the loop of `receive_messages`, given what decoding one
        message made of it: record what the message says, hand its block on. */
    method Apply(step: Step)
      requires pieceManager.Valid()
      modifies this`bitfield, this`peerChoked, this`peerInterested, this`connected, this`reader
      modifies pieceManager`missingPieces, pieceManager`completedPieces, pieceManager.blockSet, pieceManager.allPieces
      ensures pieceManager.Valid()
      ensures step.Next? ==>
        RemoteState() == step.remote && connected == old(connected)
        && pieceManager.Abs() == Pieces.ReceiveAll(old(pieceManager.Abs()), pieceManager.sha1, Events(step.event))
      ensures step.Lost? ==> !connected && RemoteState() == old(RemoteState()) && pieceManager.Abs() == old(pieceManager.Abs())
      ensures step.Fail? ==>
        connected == old(connected) && RemoteState() == old(RemoteState()) && pieceManager.Abs() == old(pieceManager.Abs())
    {
      if step.Lost? {
        connected := false;
      } else if step.Next? {
        Advance(step.remote, step.rest);
        Deliver(step.event);
      }
    }

    /** The remote state and the stream after one pass of the loop. */
    method Advance(f: Remote, rest: Reader)
      modifies this`bitfield, this`peerChoked, this`peerInterested, this`reader
      ensures RemoteState() == f && reader == Some(rest)
    {
      bitfield := f.bitfield;
      peerChoked := f.peerChoked;
      peerInterested := f.peerInterested;
      reader := Some(rest);
    }

    /** `piece_manager.block_received` for the block of a PIECE message. */
    method Deliver(ev: Option<Event>)
      requires pieceManager.Valid()
      modifies pieceManager`missingPieces, pieceManager`completedPieces, pieceManager.blockSet, pieceManager.allPieces
      ensures pieceManager.Valid()
      ensures pieceManager.Abs() == Pieces.ReceiveAll(old(pieceManager.Abs()), pieceManager.sha1, Events(ev))
    {
      if ev.Some? {
        ghost var before := pieceManager.Abs();
        pieceManager.BlockReceived(ev.value.index, ev.value.offset, ev.value.data);
        assert Pieces.ReceiveAll(before, pieceManager.sha1, [ev.value]) == pieceManager.Abs();
      }
    }

    /** `close()`: marks the connection closed. */
    method Close()
      modifies this`connected
      ensures !connected
    {
      connected := false;
    }
  }
}
