/** The `PeerConnection` of src/peer.py, the simpler of the two peer
    connections: it opens the connection, exchanges handshakes (checking
    only the reply's length), says it is interested and requests the blocks
    of a piece.  Opening the connection is a parameter (`established`), and
    what the peer sends is a `Reader`. */
module SimplePeer {
  import opened Wrappers
  import opened Bytes
  import opened PeerWire
  import Pieces

  const B := Pieces.B

  // ===== The handshake =====

  /** The 68 bytes of the peer's handshake reply, when `read(68)` gets
      them all. */
  predicate Accepts(input: Reader)
  {
    Read(input, 68).Ok? && |Read(input, 68).value.0| == 68
  }

  /** Whatever the peer sends, the reply is accepted exactly when 68 bytes
      of it are there. */
  lemma AcceptsLongEnough(input: Reader)
    ensures Accepts(input) <==> |input.buffer| >= 68
  {
  }

  /** Only the length is checked: a reply naming another torrent, which
      the handshake check of src/core/peer.py refuses, is accepted. */
  lemma AcceptsForeignTorrent(input: Reader, infoHash: seq<byte>)
    requires |input.buffer| == 68 && input.buffer[28..48] != infoHash
    ensures Accepts(input)
    ensures CheckHandshake(input.buffer, infoHash).Raise?
  {
  }

  // ===== Block requests =====

  /** The blocks `_request_piece` asks for from `offset` on: one per step
      of `range(offset, piece_length, 16384)`, each the rest of the piece,
      at most 16384 bytes long. */
  function PlanFrom(offset: int, pieceLength: int): seq<Pieces.Span>
    decreases pieceLength - offset
  {
    if offset >= pieceLength then []
    else [Pieces.Span(offset, Pieces.Min(B, pieceLength - offset))] + PlanFrom(offset + B, pieceLength)
  }

  /** The blocks of the whole piece. */
  function Plan(pieceLength: int): seq<Pieces.Span>
  {
    PlanFrom(0, pieceLength)
  }

  /** From the k-th block on, the loop asks for the blocks `_create_blocks`
      of src/core/piece_manager.py makes from the k-th on. */
  lemma {:induction false} PlanFromBlockPlan(pieceLength: nat, k: nat)
    requires k <= Pieces.NumBlocks(pieceLength)
    ensures PlanFrom(k * B, pieceLength) == Pieces.BlockPlan(pieceLength)[k..]
    decreases Pieces.NumBlocks(pieceLength) - k
  {
    var n := Pieces.NumBlocks(pieceLength);
    var plan := Pieces.BlockPlan(pieceLength);
    Pieces.NumBlocksIsCeiling(pieceLength);
    if k < n {
      assert k * B <= (n - 1) * B;
      PlanFromBlockPlan(pieceLength, k + 1);
      assert (k + 1) * B == k * B + B;
      assert plan[k..] == [plan[k]] + plan[k + 1..];
    } else {
      assert plan[k..] == [];
    }
  }

  /** The loop asks for exactly the blocks of the piece: none for a
      length of zero or less, otherwise block k is 16 KiB (or the rest of
      the piece) at k * 16384, and the blocks tile the piece. */
  lemma PlanIsBlockPlan(pieceLength: int)
    ensures pieceLength <= 0 ==> Plan(pieceLength) == []
    ensures pieceLength > 0 ==> Plan(pieceLength) == Pieces.BlockPlan(pieceLength)
  {
    if pieceLength > 0 {
      PlanFromBlockPlan(pieceLength, 0);
    }
  }

  /** Block k lies inside the piece. */
  lemma BlockInside(pieceLength: nat, k: nat)
    requires k < Pieces.NumBlocks(pieceLength)
    ensures k * B < pieceLength
  {
    Pieces.NumBlocksIsCeiling(pieceLength);
    assert k * B <= (Pieces.NumBlocks(pieceLength) - 1) * B;
  }

  /** A block's request can be packed: every field fits `I`. */
  predicate Fits(index: int, s: Pieces.Span)
  {
    IsU32(index) && IsU32(s.offset) && IsU32(s.length)
  }

  /** What the loop of `_request_piece` writes for the blocks of `plan`,
      and how it ends: each request is packed and written in turn; the
      first one that cannot be packed raises struct.error. */
  function Requests(index: int, plan: seq<Pieces.Span>): (res: (seq<byte>, Result<()>))
    ensures res.1.Raise? ==> res.1.exc == StructError
  {
    if plan == [] then ([], Ok(()))
    else
      match EncodeRequest(index, plan[0].offset, plan[0].length)
      case Raise(e) => ([], Raise(e))
      case Ok(m) =>
        var rest := Requests(index, plan[1..]);
        (m + rest.0, rest.1)
  }

  /** The 17 bytes of the j-th request in a run of requests. */
  function Chunk(s: seq<byte>, j: nat): seq<byte>
    requires 17 * j + 17 <= |s|
  {
    s[17 * j..17 * j + 17]
  }

  /** Behind a 17-byte request, request j + 1 is request j of the rest. */
  lemma ChunkShift(m: seq<byte>, rest: seq<byte>, j: nat)
    requires |m| == 17 && 17 * j + 17 <= |rest|
    ensures Chunk(m + rest, j + 1) == Chunk(rest, j)
  {
  }

  /** `bytes` is one 17-byte request per block of `plan`, in order. */
  predicate WritesEach(index: int, plan: seq<Pieces.Span>, bytes: seq<byte>)
  {
    && |bytes| == 17 * |plan|
    && forall j :: 0 <= j < |plan| ==>
         EncodeRequest(index, plan[j].offset, plan[j].length) == Ok(Chunk(bytes, j))
  }

  /** The request for the first block, then the requests for the others. */
  lemma WritesEachCons(index: int, plan: seq<Pieces.Span>, m: seq<byte>, rest: seq<byte>)
    requires plan != [] && EncodeRequest(index, plan[0].offset, plan[0].length) == Ok(m)
    requires WritesEach(index, plan[1..], rest)
    ensures WritesEach(index, plan, m + rest)
  {
    forall j | 0 <= j < |plan|
      ensures EncodeRequest(index, plan[j].offset, plan[j].length) == Ok(Chunk(m + rest, j))
    {
      if j == 0 {
        assert Chunk(m + rest, 0) == m;
      } else {
        ChunkShift(m, rest, j - 1);
        assert plan[j] == plan[1..][j - 1];
      }
    }
  }

  /** When every block of the plan can be packed, one 17-byte request per
      block is written, in order, and nothing is raised. */
  lemma {:induction false} RequestsFit(index: int, plan: seq<Pieces.Span>)
    requires forall j :: 0 <= j < |plan| ==> Fits(index, plan[j])
    ensures Requests(index, plan).1 == Ok(())
    ensures WritesEach(index, plan, Requests(index, plan).0)
  {
    if plan != [] {
      assert Fits(index, plan[0]);
      var tail := plan[1..];
      assert forall j :: 0 <= j < |tail| ==> Fits(index, tail[j]) by {
        forall j | 0 <= j < |tail| ensures Fits(index, tail[j]) {
          assert tail[j] == plan[j + 1];
        }
      }
      RequestsFit(index, tail);
      var m := EncodeRequest(index, plan[0].offset, plan[0].length).value;
      WritesEachCons(index, plan, m, Requests(index, tail).0);
    }
  }

  /** The loop of `_request_piece` at `offset`: what is written, followed
      by what the rest of the plan writes, is what the whole plan writes; a
      request that cannot be packed ends it. */
  lemma RequestStep(index: int, offset: int, pieceLength: int, out: seq<byte>, all: (seq<byte>, Result<()>))
    requires offset < pieceLength
    requires out + Requests(index, PlanFrom(offset, pieceLength)).0 == all.0
    requires Requests(index, PlanFrom(offset, pieceLength)).1 == all.1
    ensures var e := EncodeRequest(index, offset, Pieces.Min(B, pieceLength - offset));
      && (e.Raise? ==> all == (out, e.PropagateFailure()))
      && (e.Ok? ==>
           && (out + e.value) + Requests(index, PlanFrom(offset + B, pieceLength)).0 == all.0
           && Requests(index, PlanFrom(offset + B, pieceLength)).1 == all.1)
  {
    var plan := PlanFrom(offset, pieceLength);
    assert plan[1..] == PlanFrom(offset + B, pieceLength);
    var e := EncodeRequest(index, offset, Pieces.Min(B, pieceLength - offset));
    if e.Raise? {
      assert out + [] == out;
    } else {
      var tail := Requests(index, plan[1..]);
      assert out + (e.value + tail.0) == (out + e.value) + tail.0;
    }
  }

  /** A piece index outside `I` stops the loop at its first pack, before
      anything is written. */
  lemma RequestsBadIndex(index: int, plan: seq<Pieces.Span>)
    requires !IsU32(index) && plan != []
    ensures Requests(index, plan) == ([], Raise(StructError))
  {
  }

  /** For a piece of at most 4 GiB and a valid index, the requests tile the
      piece: request j asks for 16 KiB at j * 16384, the last one for the
      rest, and together they cover exactly `piece_length` bytes. */
  lemma RequestPlanCoversPiece(index: int, pieceLength: int)
    requires IsU32(index) && 0 < pieceLength <= 0x1_0000_0000
    ensures Plan(pieceLength) == Pieces.BlockPlan(pieceLength)
    ensures Requests(index, Plan(pieceLength)).1 == Ok(())
    ensures WritesEach(index, Plan(pieceLength), Requests(index, Plan(pieceLength)).0)
    ensures Pieces.SumLengths(Plan(pieceLength)) == pieceLength
  {
    var plan := Plan(pieceLength);
    PlanIsBlockPlan(pieceLength);
    forall j | 0 <= j < |plan| ensures Fits(index, plan[j]) {
      BlockInside(pieceLength, j);
    }
    RequestsFit(index, plan);
    Pieces.BlockPlanSum(pieceLength);
  }

  // ===== Downloading a piece =====

  /** `download_piece`'s verdict on what `_receive_piece` produced: the
      data when its SHA-1 digest is the expected hash, otherwise None (the
      ValueError and every other exception are caught). */
  function Verdict(received: Result<seq<byte>>, pieceHash: seq<byte>, sha1: seq<byte> -> seq<byte>): (r: Option<seq<byte>>)
    ensures r.Some? <==> received.Ok? && sha1(received.value) == pieceHash
    ensures r.Some? ==> r.value == received.value
  {
    match received
    case Raise(_) => None
    case Ok(data) => if sha1(data) != pieceHash then None else Some(data)
  }

  class PeerConnection {
    const ip: string
    const port: int
    const infoHash: seq<byte>
    const peerId: seq<byte>
    var reader: Option<Reader>
    /** Everything written to the connection, or None before it is open. */
    var writer: Option<seq<byte>>
    var bitfield: seq<byte>
    var connected: bool

    constructor (ip: string, port: int, infoHash: seq<byte>, peerId: seq<byte>)
      ensures this.ip == ip && this.port == port && this.infoHash == infoHash && this.peerId == peerId
      ensures reader == None && writer == None && bitfield == [] && !connected
    {
      this.ip := ip;
      this.port := port;
      this.infoHash := infoHash;
      this.peerId := peerId;
      reader := None;
      writer := None;
      bitfield := [];
      connected := false;
    }

    /** `connect()`: `established` says whether `open_connection`
        succeeded, `input` is what the peer then sends.  The handshake is
        written, 68 bytes are read, and only their number is checked;
        every exception is caught and turned into False. */
    method Connect(established: bool, input: Reader) returns (ok: bool)
      modifies this`reader, this`writer, this`connected
      ensures !established ==> reader == old(reader) && writer == old(writer)
      ensures established ==> writer == Some(Handshake(infoHash, peerId))
      ensures established && Read(input, 68).Ok? ==> reader == Some(Read(input, 68).value.1)
      ensures established && Read(input, 68).Raise? ==> reader == Some(input)
      ensures ok <==> established && Accepts(input)
      ensures connected == (old(connected) || ok)
    {
      if !established {
        return false;
      }
      reader := Some(input);
      writer := Some(Handshake(infoHash, peerId));
      var response := Read(input, 68);
      if response.Raise? {
        return false;
      }
      reader := Some(response.value.1);
      if |response.value.0| != 68 {
        return false;
      }
      connected := true;
      return true;
    }

    /** `_send_interested()`: `struct.pack('>Ib', 1, 2)`, the INTERESTED
        message; AttributeError when the connection was never opened. */
    method SendInterested() returns (r: Result<()>)
      modifies this`writer
      ensures old(writer).None? ==> r == Raise(AttributeError) && writer == None
      ensures old(writer).Some? ==> r == Ok(()) && writer == Some(old(writer).value + Encode(Interested))
    {
      if writer.None? {
        return Raise(AttributeError);
      }
      assert U32(1) + [INTERESTED] == Encode(Interested);
      writer := Some(writer.value + (U32(1) + [INTERESTED]));
      return Ok(());
    }

    /** `_request_piece(piece_index)` for a piece of `pieceLength` bytes:
        one REQUEST per block of the plan, packed then written, until one
        cannot be packed (struct.error).  Without a connection the loop
        stops at its first write (AttributeError), once the first request
        has been packed. */
    method RequestPiece(pieceIndex: int, pieceLength: int) returns (r: Result<()>)
      modifies this`writer
      ensures old(writer).Some? ==>
        var requests := Requests(pieceIndex, Plan(pieceLength));
        writer == Some(old(writer).value + requests.0) && r == requests.1
      ensures old(writer).None? ==>
        && writer == None
        && r == if pieceLength <= 0 then Ok(()) else if !IsU32(pieceIndex) then Raise(StructError) else Raise(AttributeError)
    {
      if writer.None? {
        if pieceLength <= 0 {
          return Ok(());
        }
        var first := EncodeRequest(pieceIndex, 0, Pieces.Min(B, pieceLength));
        if first.Raise? {
          return Raise(first.exc);
        }
        return Raise(AttributeError);
      }
      r := WriteRequests(pieceIndex, pieceLength);
    }

    /** The loop of `_request_piece` on an open connection. */
    method WriteRequests(pieceIndex: int, pieceLength: int) returns (r: Result<()>)
      requires writer.Some?
      modifies this`writer
      ensures var requests := Requests(pieceIndex, Plan(pieceLength));
        writer == Some(old(writer).value + requests.0) && r == requests.1
    {
      var blockSize := B;
      ghost var all := Requests(pieceIndex, Plan(pieceLength));
      var start := writer.value;
      var out: seq<byte> := [];
      var blockOffset := 0;
      assert out + all.0 == all.0;
      assert start + out == start;
      while blockOffset < pieceLength
        invariant writer == Some(start + out)
        invariant out + Requests(pieceIndex, PlanFrom(blockOffset, pieceLength)).0 == all.0
        invariant Requests(pieceIndex, PlanFrom(blockOffset, pieceLength)).1 == all.1
        decreases pieceLength - blockOffset
      {
        RequestStep(pieceIndex, blockOffset, pieceLength, out, all);
        var blockLength := Pieces.Min(blockSize, pieceLength - blockOffset);
        var message := EncodeRequest(pieceIndex, blockOffset, blockLength);
        if message.Raise? {
          return Raise(message.exc);
        }
        out := out + message.value;
        writer := Some(start + out);
        blockOffset := blockOffset + blockSize;
      }
      assert out + [] == out;
      return Ok(());
    }

    /** `download_piece(piece_index, piece_hash)`: connect first when not
        connected (its verdict is not looked at), then send INTERESTED and
        the requests; `received` stands for what `_receive_piece` returns
        or raises.  The data is returned only when every step succeeded and
        its SHA-1 digest is the expected hash; every exception gives None. */
    method DownloadPiece(pieceIndex: int, pieceHash: seq<byte>, pieceLength: int,
                         established: bool, input: Reader,
                         received: Result<seq<byte>>, sha1: seq<byte> -> seq<byte>)
      returns (r: Option<seq<byte>>)
      modifies this`reader, this`writer, this`connected
      ensures var w := if !old(connected) && established then Some(Handshake(infoHash, peerId)) else old(writer);
        var requests := Requests(pieceIndex, Plan(pieceLength));
        && r == (if w.None? || requests.1.Raise? then None else Verdict(received, pieceHash, sha1))
        && (w.Some? ==> writer == Some(w.value + Encode(Interested) + requests.0))
      ensures r.Some? ==> received == Ok(r.value) && sha1(r.value) == pieceHash
      ensures connected == (old(connected) || (established && Accepts(input)))
    {
      if !connected {
        var _ := Connect(established, input);
      }
      var sent := SendInterested();
      if sent.Raise? {
        return None;
      }
      var requested := RequestPiece(pieceIndex, pieceLength);
      if requested.Raise? {
        return None;
      }
      return Verdict(received, pieceHash, sha1);
    }
  }

  /** `_receive_piece` is not defined by the class, so the call raises
      AttributeError and `download_piece` returns None whatever the peer
      sends. */
  lemma DownloadNeverSucceeds(pieceHash: seq<byte>, sha1: seq<byte> -> seq<byte>)
    ensures Verdict(Raise(AttributeError), pieceHash, sha1) == None
  {
  }
}
