# A verified model of a small BitTorrent client

This project models the core of a Python BitTorrent client in Dafny. The
core is the deterministic bookkeeping and byte framing that sit under the
networking. It covers seven source files:

- **`src/core/torrent.py`, the metainfo (`Torrent`).** The piece-hash
  string is cut into 20-byte digests. The single-file and multi-file layouts
  give each file an offset. The magnet link is built here too. Module
  `Metainfo` (`torrent.dfy`).
- **`src/core/piece_manager.py`, the piece manager (`PieceManager`).**
  Pieces are split into 16 KiB blocks, and each block moves through the
  status cycle MISSING, PENDING, RETRIEVED. A piece is verified by SHA-1
  once all its blocks are in. The next block to request is chosen by first
  fit, and per-peer progress and overall completion are tracked. Module
  `Pieces` (`piece_manager.dfy`). `Block` and `Piece` are classes. All
  pieces but the last hold one shared list of `Block` objects, as in the
  source. Each method is proved against the pure functions `Receive` and
  `NextRequest` over an abstract `State`.
- **`src/core/peer.py`, the peer wire connection (`PeerConnection`).** This
  file builds and checks the handshake, encodes the length-prefixed
  messages, parses the bitfield most significant bit first, and runs the
  receive loop. The loop updates the remote peer's flags and hands every
  block to the piece manager. Modules `PeerWire` (`peer_wire.dfy`, the codec
  and the decoder as functions), `PeerDecoding` (`peer_decoding.dfy`, which
  proves the decoder reads back what is encoded) and `PeerConnections`
  (`peer_connection.dfy`, the class).
- **`src/core/tracker.py`, the tracker (`Tracker`).** It covers HTTP
  announces (BEP 3) with compact peer lists (BEP 23), and the UDP
  connect/announce exchange (BEP 15). It picks the protocol from the
  announce URL's scheme. Module `CoreTracker` (`core_tracker.dfy`). The byte
  layouts shared with the other tracker are in `TrackerWire`
  (`tracker_wire.dfy`).
- **`src/tracker.py`, the simpler tracker the client uses.** Its
  compact-list loop drops a trailing partial record instead of failing, and
  every error gives an empty list. Module `SimpleTracker`
  (`simple_tracker.dfy`).
- **`client.py`, the torrent lifecycle of `BitTorrentClient`.** Dictionaries
  hold the torrents, their states, their progress and their peers keyed by
  address. The operations are add, download, pause, resume and remove. Peer
  connections are capped at 50 per call, and there is an info summary.
  Module `Client` (`client.dfy`).
- **`src/peer.py`, the simpler peer connection.** It covers a length-only
  handshake check, the INTERESTED message, the request plan that tiles a
  piece with 16 KiB requests, and the rule that decides what
  `download_piece` returns. Module `SimplePeer` (`simple_peer.dfy`).

`Wrappers` (`wrappers.dfy`) holds `Option`, `Result` and the Python
exceptions (`Exc`). A raised exception is `Raise(e)`. `Bytes`
(`bytes.dfy`) holds big-endian integers, hexadecimal and decimal text, and
slicing that clamps as Python's does.

The outside world is passed in as parameters:

- a socket is a fully buffered `Reader`;
- what was written is a byte sequence;
- SHA-1, bencode, `urlencode` and `quote` are functions;
- whether a connection opens, or a handshake succeeds, is a flag or a
  predicate.

## Model

| member | source | states |
|---|---|---|
| Metainfo.SplitPieces | src/core/torrent.py:37-38 | the `pieces` string is cut into ceil(n/20) chunks; each is non-empty and at most 20 bytes; all but the last are exactly 20; all are 20 when n is a multiple of 20 |
| Metainfo.SplitPiecesConcat | src/core/torrent.py:38 | the chunks concatenate back to the original `pieces` string |
| Metainfo.SplitPiecesAt | src/core/torrent.py:38 | chunk i is `pieces[20i : min(20i+20, n)]` |
| Metainfo.MultiFileContiguous | src/core/torrent.py:55-70 | multi-file entries lie end to end: the first offset is 0, each offset is the previous offset plus its length, and the last ends at the sum of all lengths |
| Metainfo.MultiFileEntries | src/core/torrent.py:60-67 | one file entry per listed file; `MultiFileContiguous` gives their offsets |
| Metainfo.SingleFileLayout | src/core/torrent.py:45-53 | a single-file torrent has exactly one entry: path = name, length = `total_size`, offset 0 |
| Metainfo.IsMultiFileOf | src/core/torrent.py:72-74 | there is more than one file entry iff the info is multi-file and lists more than one file, so `is_multi_file` reports a one-file multi-file torrent as single-file |
| Metainfo.Torrent.constructor | src/core/torrent.py:12-23 | after construction, announce (default ""), info hash = SHA-1 of the bencoded info, piece length, piece digests, files, `total_size` and `output_file` are as `_parse` sets them; block length is 16384 |
| Metainfo.Torrent.Parse | src/core/torrent.py:25-43 | `_parse` sets every field from the decoded file and picks the single-file or multi-file layout |
| Metainfo.Torrent.ParseSingleFile | src/core/torrent.py:45-53 | output file = name, `total_size` = length, files = one entry at offset 0 |
| Metainfo.Torrent.ParseMultiFile | src/core/torrent.py:55-70 | the loop appends exactly `MultiFileEntries` to `files` and sets `total_size` to the sum of the lengths |
| Metainfo.MagnetLinkInfoHash | src/core/torrent.py:114-119 | the link starts with `magnet:?xt=urn:btih:`; the hex text after it decodes back to the info hash; `&dn=` follows |
| Metainfo.MagnetLinkNoTrackers | src/core/torrent.py:118 | with no trackers the link still ends in an empty `&tr=` |
| Pieces.Block.constructor | src/core/piece_manager.py:9-19 | a new block has its piece, offset and length, no data, status MISSING |
| Pieces.Piece.constructor | src/core/piece_manager.py:21-26 | a new piece has its index, blocks and hash and is not complete |
| Pieces.NumBlocksIsCeiling | src/core/piece_manager.py:63-65 | the number of blocks is ceil(len/16384), and 0 exactly for an empty piece |
| Pieces.BlockPlan | src/core/piece_manager.py:61-72 | there are `NumBlocks(len)` planned blocks |
| Pieces.BlockPlanTiles | src/core/piece_manager.py:67-70 | the blocks tile [0, len): the first starts at 0 and each starts where the previous ends; every length is in (0, 16384]; all but the last are 16384; the last ends at len |
| Pieces.BlockPlanPrefixSum | src/core/piece_manager.py:67-70 | the first k blocks cover min(16384k, len) bytes |
| Pieces.BlockPlanSum | src/core/piece_manager.py:61-72 | block lengths sum to the piece length |
| Pieces.PieceManager.CreateBlocks | src/core/piece_manager.py:61-72 | `_create_blocks` returns distinct fresh MISSING blocks of the given piece whose offsets and lengths are exactly `BlockPlan(len)` |
| Pieces.PieceManager.InitiatePieces | src/core/piece_manager.py:44-59 | one piece per digest with index i and hash i; all but the last share one block list laid out for `piece_length`; the last has its own blocks for `total_size % piece_length`; every block is tagged with index total-1 |
| Pieces.LastPieceMayBeEmpty | src/core/piece_manager.py:54-55 | when `total_size` is a multiple of `piece_length`, the last piece gets no blocks |
| Pieces.PieceManager.constructor | src/core/piece_manager.py:28-42 | fields copied from the torrent; every piece missing, none completed, no peers; all blocks MISSING with no data; the shared-list shape above; the invariant holds |
| Pieces.PieceManager.Initial | src/core/piece_manager.py:28-42 | the state the constructor builds satisfies the invariant `Valid` |
| Pieces.PieceManager.InitialInv | src/core/piece_manager.py:38-42 | all pieces missing, none completed, every block MISSING: the invariant holds |
| Pieces.FindPiece | src/core/piece_manager.py:79-80 | the first piece in the list with the given index, or the end |
| Pieces.FindBlock | src/core/piece_manager.py:81-82 | the first block with the given offset, or the end |
| Pieces.TargetExists | src/core/piece_manager.py:78-87 | `block_received` finds no block to store iff no missing piece with that index has a block at that offset |
| Pieces.CompletedNotTargeted | src/core/piece_manager.py:78-80 | a block for a completed piece is never stored |
| Pieces.ReceiveUntargeted | src/core/piece_manager.py:78-87 | an unknown piece or offset leaves the whole state unchanged |
| Pieces.ReceiveFrame | src/core/piece_manager.py:78-87 | only blocks of the targeted piece change state, and only that piece can change list |
| Pieces.ReceiveStoresBlock | src/core/piece_manager.py:78-101 | the targeted block becomes RETRIEVED with the data, unless its piece then fails validation, in which case it is MISSING with no data |
| Pieces.ReceiveCompletion | src/core/piece_manager.py:89-101 | the piece completes iff all its blocks are RETRIEVED and the SHA-1 of their joined data is its hash; then it is appended to `completed_pieces` and leaves `missing_pieces`; on a mismatch it stays missing and all its blocks reset to MISSING/None |
| Pieces.ReceiveKeepsInv | src/core/piece_manager.py:78-101 | receiving a block keeps the invariant: each list has no repeats, the lists are disjoint, no two pieces share an index, every block is known, and a block is RETRIEVED iff it has data; the multiset of pieces over both lists is kept |
| Pieces.CheckCompletionKeepsInv | src/core/piece_manager.py:89-101 | the completion check keeps the invariant and the multiset of pieces |
| Pieces.MoveKeepsInv | src/core/piece_manager.py:93-95 | moving a piece from missing to completed keeps the invariant and the multiset of pieces |
| Pieces.StoreKeepsInv | src/core/piece_manager.py:83-84 | storing a block state that is RETRIEVED iff it has data keeps the invariant |
| Pieces.RemoveFirst | src/core/piece_manager.py:93 | `list.remove` takes out exactly one occurrence |
| Pieces.RemoveFirstDistinct | src/core/piece_manager.py:93 | removing from a duplicate-free list keeps it duplicate-free and removes exactly that piece |
| Pieces.Reset | src/core/piece_manager.py:99-101 | the reset keeps the set of known blocks |
| Pieces.ReceiveAll | src/core/peer.py:153-159 | any sequence of arrivals handed to `block_received` keeps the invariant and the multiset of pieces |
| Pieces.ReceiveAllConcat | src/core/peer.py:153-159 | receiving two sequences of arrivals is receiving their concatenation |
| Pieces.PieceManager.BlockReceived | src/core/piece_manager.py:78-87 | the new abstract state is `Receive(old state, ...)`, the invariant is kept and peers are untouched |
| Pieces.PieceManager.CheckPieceCompletion | src/core/piece_manager.py:89-101 | the new abstract state is `CheckCompletion(old state, piece)` |
| Pieces.PieceManager.MarkComplete | src/core/piece_manager.py:93-95 | a piece whose blocks are all RETRIEVED and that validates moves to `completed_pieces`, as `CheckCompletion` says, keeping the invariant |
| Pieces.PieceManager.RejectPiece | src/core/piece_manager.py:97-101 | a piece whose blocks are all RETRIEVED and that fails validation is handled as `CheckCompletion` says (its blocks reset), keeping the invariant |
| Pieces.PieceManager.ResetBlocks | src/core/piece_manager.py:99-101 | every listed block becomes MISSING with no data; nothing else changes |
| Pieces.PieceManager.SetStatus | src/core/piece_manager.py:84 | only the block's status changes |
| Pieces.PieceManager.StoreData | src/core/piece_manager.py:83-84 | only the block changes, to RETRIEVED with the data |
| Pieces.PieceManager.ValidatePiece | src/core/piece_manager.py:103-106 | `_validate_piece` holds iff SHA-1 of the joined block data equals the piece hash |
| Pieces.PieceManager.JoinedDataIs | src/core/piece_manager.py:104 | the data joined from the block objects is the data of the abstract state |
| Pieces.PieceManager.StatusesAre | src/core/piece_manager.py:90 | the `all(...)` test on the objects is `AllRetrieved` on the abstract state |
| Pieces.FirstMissing | src/core/piece_manager.py:140-143 | the first MISSING block of a list, or the end |
| Pieces.FirstUnskipped | src/core/piece_manager.py:136-143 | the first missing piece that the bitfield marks and that has a MISSING block, or the end |
| Pieces.ScanFirstFit | src/core/piece_manager.py:136-145 | the scan picks the first MISSING block of the first piece that has one among those the bitfield marks; IndexError when the bitfield is too short for a piece reached; None when there is none |
| Pieces.NextRequestEffect | src/core/piece_manager.py:132-145 | an empty bitfield gives None and changes nothing; a picked block was MISSING and is now PENDING, nothing else changes; with no pick nothing changes; the invariant is kept |
| Pieces.ResetPieceIsReselectable | src/core/piece_manager.py:97-143 | a reset piece that the bitfield marks leads `next_request` to pick a block again |
| Pieces.PieceManager.NextRequestFor | src/core/piece_manager.py:132-145 | the method's result and new state are `NextRequest(old state, bitfield)` |
| Pieces.PieceManager.FindRequest | src/core/piece_manager.py:136-143 | the loop over `missing_pieces` computes `Scan` |
| Pieces.PieceManager.FirstMissingBlock | src/core/piece_manager.py:140-143 | the inner loop computes `FirstMissing` |
| Pieces.PopcountBound | src/core/piece_manager.py:153-154 | the set bits of a bitfield number at most 8 times its byte count |
| Pieces.BitCountWidth | src/core/piece_manager.py:154 | a value below 2^k has at most k set bits |
| Pieces.ProgressOf | src/core/piece_manager.py:152-155 | peer progress is in [0, 1]; it is 0 for an empty bitfield and 1 for all bits set |
| Pieces.PieceManager.UpdatePeerProgress | src/core/piece_manager.py:152-156 | only the peer's entry changes, to its bitfield and its popcount/(8·len) |
| Pieces.PieceManager.GetPeerProgress | src/core/piece_manager.py:147-150 | 0.0 for an unknown peer, else its recorded progress |
| Pieces.PieceManager.CountCompleteAll | src/core/piece_manager.py:159 | summing `is_complete` over pieces that are all complete gives their number |
| Pieces.PieceManager.CompletedAreComplete | src/core/piece_manager.py:93-95 | every completed piece has `is_complete` set, and there are at most `total_pieces` of them |
| Pieces.PieceManager.GetCompletion | src/core/piece_manager.py:158-160 | completion is len(`completed_pieces`)/`total_pieces`, or 0 with no pieces, and lies in [0, 1] |
| Pieces.PieceManager.CountComplete | src/core/piece_manager.py:159 | the count of complete pieces is at most the number of pieces |
| Pieces.WritePlanPrefix | src/core/piece_manager.py:115-126 | the bytes `_write_piece` writes, in order, are a prefix of the piece data |
| Pieces.WritePlanSingleFile | src/core/piece_manager.py:115-126 | for one file that holds the piece, the whole piece is written at index·`piece_length` |
| PeerWire.Handshake | src/core/peer.py:54-60 | the handshake is 0x13 ‖ "BitTorrent protocol" ‖ 8 zero bytes ‖ info hash ‖ peer id, of length 28 + the two lengths |
| PeerWire.CheckHandshake | src/core/peer.py:64-70 | a reply is accepted iff it is 68 bytes, starts with the protocol prefix and has our info hash at 28..48; otherwise ConnectionError |
| PeerWire.OwnHandshakeAccepted | src/core/peer.py:55-70 | our own handshake passes the check iff the info hash and the peer id are 20 bytes each |
| PeerWire.Read | src/core/peer.py:91-97 | `read(n)` returns the next min(n, available) bytes and leaves the rest in order; it raises the connection-reset error iff the connection was reset, n ≠ 0, and n < 0 or nothing is left |
| PeerWire.ReadMessageLength | src/core/peer.py:91-93 | the stream only shrinks and keeps its reset flag; a 0 read from a non-empty stream still consumes bytes, so the loop makes progress; `PeerDecoding.LengthOfFrame` gives the value read |
| PeerWire.ReadMessageId | src/core/peer.py:95-97 | the id is -1 (nothing read) or a byte value, and the stream only shrinks |
| PeerWire.ParseBitfield | src/core/peer.py:84-89 | `_parse_bitfield` returns eight bits per byte |
| PeerWire.ParseBitfieldBits | src/core/peer.py:84-89 | bit j is bit j mod 8 of byte j div 8, most significant first |
| PeerWire.PackParseBitfield | src/core/peer.py:84-89 | packing the parsed bits eight at a time gives back the bitfield bytes |
| PeerWire.ParseBitfieldOnes | src/core/peer.py:84-89 | the parsed bitfield has as many ones as `update_peer_progress` counts in the same bytes |
| PeerWire.Frame | src/core/peer.py:99-132 | a message is its length (1 + payload) as u32 BE, the id, then the payload |
| PeerWire.EncodeHave | src/core/peer.py:130 | HAVE encodes as the HAVE message of the index when it fits u32; otherwise struct.error |
| PeerWire.EncodeRequest | src/core/peer.py:112-119 | REQUEST encodes as the 17-byte REQUEST message when all three fields fit u32; otherwise struct.error |
| PeerWire.OnHave | src/core/peer.py:150-152 | the HAVE handler only consumes from the stream; `PeerDecoding.StepHave` states what it decodes |
| PeerWire.OnPiece | src/core/peer.py:153-159 | the PIECE handler only consumes from the stream; `PeerDecoding.OnPieceExact` states the block it hands on |
| PeerWire.OnBitfield | src/core/peer.py:160-162 | the BITFIELD handler only consumes from the stream; `PeerDecoding.OnBitfieldExact` states the bitfield it stores |
| PeerWire.OnOther | src/core/peer.py:163-164 | skipping an unhandled message only consumes from the stream |
| PeerWire.Dispatch | src/core/peer.py:142-164 | the branch on the message id only consumes from the stream and keeps its reset flag |
| PeerWire.StepOnce | src/core/peer.py:137-164 | one pass of the loop (length, keep-alive on 0, id, dispatch) consumes at least one byte from a non-empty or reset stream |
| PeerWire.RunPass | src/core/peer.py:134-168 | the run of the loop seen after one more pass adds that pass's block to those handed on |
| PeerWire.RunNext | src/core/peer.py:134-168 | the loop is one pass followed by the loop on what is left, with the pass's block first |
| PeerDecoding.StepEncoded | src/core/peer.py:137-164 | any encoded message is decoded as what it says: the flag it sets, the bit it sets, the bitfield it carries or the block it hands on; the next message starts right after it |
| PeerDecoding.LengthOfFrame | src/core/peer.py:91-93 | reading the length of an encoded message gives 1 + its payload length and leaves the id |
| PeerDecoding.IdOfFrame | src/core/peer.py:95-97 | reading the id byte gives that id and leaves the payload |
| PeerDecoding.StepFrame | src/core/peer.py:137-164 | one pass over an encoded message dispatches on its id with its length, at its payload |
| PeerDecoding.StepHave | src/core/peer.py:150-152 | an encoded HAVE sets exactly that bit, or raises IndexError past the end |
| PeerDecoding.StepBitfield | src/core/peer.py:160-162 | an encoded BITFIELD replaces the bitfield by its parsed bits |
| PeerDecoding.StepPiece | src/core/peer.py:153-159 | an encoded PIECE hands on exactly its index, offset and block |
| PeerDecoding.StepIgnored | src/core/peer.py:163-164 | REQUEST, CANCEL and PORT are skipped whole and change nothing |
| PeerDecoding.RunEncoded | src/core/peer.py:134-168 | the receive loop over a stream of encoded messages applies each in order, hands on the PIECE blocks in order, and ends when the stream ends or at the first HAVE past the bitfield |
| PeerDecoding.ReceiveBitfieldEncoded | src/core/peer.py:72-82 | a BITFIELD first message is parsed into the bitfield and the rest of the stream is left |
| PeerDecoding.ReceiveBitfieldRejects | src/core/peer.py:77-79 | any other first message id raises ConnectionError |
| PeerDecoding.GreetAfterHandshake | src/core/peer.py:40-72 | after an accepted handshake reply, connecting goes on to read the bitfield from what follows |
| PeerDecoding.GreetAccepts | src/core/peer.py:40-82 | a correct handshake reply followed by a BITFIELD connects with that bitfield |
| PeerDecoding.GreetRejectsOtherFirstMessage | src/core/peer.py:72-79 | a correct reply followed by any message other than keep-alive or BITFIELD fails with ConnectionError |
| PeerConnections.PeerConnection.constructor | src/core/peer.py:23-38 | a new connection has no streams, an empty bitfield, is not connected, `choked` and `peer_choked` True, both interested flags False |
| PeerConnections.PeerConnection.Connect | src/core/peer.py:40-52 | the handshake is written when the connection opens; the result is True iff the reply and the bitfield are accepted, and then `connected` is set and the parsed bitfield stored; on failure `connected` and `bitfield` keep their values |
| PeerConnections.PeerConnection.SendInterested | src/core/peer.py:99-103 | writes the 5-byte INTERESTED message and sets only `interested`; AttributeError without a writer |
| PeerConnections.PeerConnection.SendNotInterested | src/core/peer.py:105-109 | writes NOT_INTERESTED and clears only `interested` |
| PeerConnections.PeerConnection.SendUnchoke | src/core/peer.py:123-127 | writes UNCHOKE and clears only `choked` |
| PeerConnections.PeerConnection.SendHave | src/core/peer.py:129-132 | writes HAVE(i); struct.error before writing for an index outside u32 |
| PeerConnections.PeerConnection.SendRequest | src/core/peer.py:111-121 | writes REQUEST(i, b, l); struct.error before writing when a field is outside u32 |
| PeerConnections.PeerConnection.ReceiveMessages | src/core/peer.py:134-168 | from a connected state the outcome, the final flags and bitfield are those of `Run`, `connected` is cleared iff the connection was lost, and the piece manager's state is `ReceiveAll` of the blocks handed on, in order; not connected means nothing changes |
| PeerConnections.PeerConnection.Apply | src/core/peer.py:142-168 | one pass: record the new remote state and deliver the block; a lost connection only clears `connected` |
| PeerConnections.PeerConnection.Advance | src/core/peer.py:142-164 | the flags, bitfield and stream become those after the pass |
| PeerConnections.PeerConnection.Deliver | src/core/peer.py:157-159 | the block goes to `block_received`, keeping the piece manager's invariant |
| PeerConnections.PeerConnection.Close | src/core/peer.py:170-171 | `close` clears `connected` |
| TrackerWire.Records | src/core/tracker.py:93-97 | a compact list gives one (ip, port) per whole 6-byte record |
| TrackerWire.RecordsCompact | src/core/tracker.py:117-122 | packing peers as compact records and reading them back gives the dotted quads and ports, in order |
| TrackerWire.RecordsPrefix | src/tracker.py:105-108 | the records of the first k whole records are the first k records |
| TrackerWire.QuadRoundTrip | src/core/tracker.py:120 | the dotted-decimal text of four bytes parses back to those bytes |
| TrackerWire.QuadInjective | src/core/tracker.py:120 | distinct addresses give distinct dotted quads |
| TrackerWire.ConnectRequest | src/core/tracker.py:55 | the UDP connect request is 16 bytes: u64 0x41727101980, u32 0, u32 transaction id |
| TrackerWire.PackAnnounce | src/core/tracker.py:66-81 | the announce request is 98 bytes laid out as `!QII20s20sQQQIIIiH` when every field is in range; otherwise struct.error |
| TrackerWire.Fixed20 | src/core/tracker.py:71-72 | a `20s` field truncates or zero-pads to 20 bytes |
| CoreTracker.GeneratePeerId | src/core/tracker.py:125-128 | the peer id is "-PC0001-" then the 12 digits, 20 ASCII characters |
| CoreTracker.ParseCompact | src/core/tracker.py:117-123 | the compact-list loop computes `StrictRecords`, which succeeds exactly on whole 6-byte records (`SimpleTracker.LenientVsStrict`) and yields their peers |
| CoreTracker.HttpParams | src/core/tracker.py:24-32 | the HTTP query carries exactly info hash, peer id, uploaded 0, downloaded 0, port 6881, left = total size, compact 1 |
| CoreTracker.AnnounceParams | src/core/tracker.py:132-143 | the announce query has an `event` parameter iff the event is non-empty, and the given stats |
| CoreTracker.DecodeHttpResponse | src/core/tracker.py:109-123 | ConnectionError without `peers`; a dictionary list maps to (ip, port) in order; a compact string succeeds iff its length is a multiple of 6 |
| CoreTracker.Fetched | src/core/tracker.py:34-40 | a status other than 200 raises ConnectionError with that status; transport errors pass through |
| CoreTracker.HttpGetPeers | src/core/tracker.py:23-40 | the URL is announce + "?" + the encoded query, and the result is what its response decodes to |
| CoreTracker.Announce | src/core/tracker.py:130-151 | the same with the announce query |
| CoreTracker.HttpCompactRoundTrip | src/core/tracker.py:23-40 | a 200 answer with a compact list gives back exactly the packed peers, in order |
| CoreTracker.ConnectReply | src/core/tracker.py:59-63 | a reply under 16 bytes raises struct.error; otherwise it is accepted iff the action is 0, whatever its transaction id, and yields its ids |
| CoreTracker.AnnounceRequest | src/core/tracker.py:66-81 | the announce packs iff `left` fits u64 (key = transaction id, num_want −1, port 6881); else struct.error |
| CoreTracker.AnnounceReply | src/core/tracker.py:85-90 | a reply under 20 bytes raises struct.error; otherwise it is accepted iff the action is 1 and yields at most 1004 peer bytes after the header |
| CoreTracker.ConnectAccepted | src/core/tracker.py:59-63 | a connect reply with action 0 yields its transaction id and connection id |
| CoreTracker.AnnounceAccepted | src/core/tracker.py:85-90 | an announce reply with action 1 of at most 1024 bytes yields the bytes after its 20-byte header |
| CoreTracker.UdpAnnounce | src/core/tracker.py:64-97 | the announce is sent iff `left` fits u64; peers only come from an accepted announce reply |
| CoreTracker.UdpConnected | src/core/tracker.py:55-64 | once the connect reply is accepted, the exchange is the connect request followed by the announce with the reply's ids |
| CoreTracker.UdpAnnounced | src/core/tracker.py:66-97 | with a packable announce and an accepted reply, exactly the announce is sent and the reply's peer bytes are read strictly |
| CoreTracker.UdpGetPeers | src/core/tracker.py:42-99 | the connect request is always sent; the announce is sent iff the connect reply is accepted and it packs; peers come only from an accepted announce reply |
| CoreTracker.UdpAccepted | src/core/tracker.py:42-99 | with an accepting tracker, exactly the connect and the announce (carrying the reply's ids) are sent, and the peer bytes are read as a compact list |
| CoreTracker.UdpCompactRoundTrip | src/core/tracker.py:42-99 | a tracker answering with a compact list in one datagram yields exactly the packed peers |
| CoreTracker.StrictCompact | src/core/tracker.py:117-123 | a compact list of whole records is read back without error as its records |
| CoreTracker.LongReplyPeers | src/core/tracker.py:87-97 | an accepted reply of 1024 bytes or more is cut to 1004 peer bytes, and reading those raises OSError |
| CoreTracker.UdpLongReplyFails | src/core/tracker.py:85-97 | an accepted announce reply of 1024 bytes or more leaves 1004 peer bytes, not whole records, so it raises OSError |
| CoreTracker.GetPeers | src/core/tracker.py:15-21 | "http…" goes to HTTP, else "udp…" to UDP, else RuntimeError |
| SimpleTracker.JoinQuad | src/tracker.py:106 | joining four decimal byte values with "." is the dotted quad |
| SimpleTracker.ParsePeers | src/tracker.py:100-111 | `_parse_peers` returns exactly the peers of the whole 6-byte records, in order, len/6 of them; a trailing partial record is dropped |
| SimpleTracker.LenientVsStrict | src/tracker.py:100-111 | on whole records both trackers agree; on a partial trailing record the strict one raises and the lenient one drops it |
| SimpleTracker.ParseField | src/tracker.py:52 | a missing `peers` key gives []; a compact string gives its records; a non-empty dictionary list raises TypeError |
| SimpleTracker.HttpParams | src/tracker.py:35-44 | the query carries info hash, peer id, 0 up/down, left = sum of file lengths, port, compact 1, numwant 50 |
| SimpleTracker.HttpTracker | src/tracker.py:34-52 | a status other than 200 raises ConnectionError; decoding errors pass through; otherwise `ParseField` of the `peers` value |
| SimpleTracker.UdpTracker | src/tracker.py:54-98 | nothing is sent and OSError is raised when the connection fails; otherwise the connect request is sent, a reply under 16 bytes raises ConnectionError, and any longer reply ends in struct.error from packing the announce with key −1 |
| SimpleTracker.UdpNeverYieldsPeers | src/tracker.py:54-98 | the UDP path always fails, after at most the connect request |
| SimpleTracker.ReplyPeers | src/tracker.py:94-95 | peers would be read after a 20-byte header of at most 4096 bytes |
| SimpleTracker.GetPeers | src/tracker.py:20-32 | "http…" gives the HTTP result or [] on any error; every other scheme gives [] |
| SimpleTracker.HttpCompactRoundTrip | src/tracker.py:34-52 | a compact answer gives back every packed peer, in order |
| SimpleTracker.HttpPartialRecord | src/tracker.py:102-111 | a partial trailing record is dropped and the peers before it come back |
| SimpleTracker.DictionaryPeersIgnored | src/tracker.py:100-111 | a dictionary peer list, which the other tracker reads, gives no peers here |
| Client.SplitPieces | client.py:182-184 | `_split_pieces` is the same 20-byte split as the metainfo's, and concatenates back to its input |
| Client.Find | client.py:210 | the first peer with the address, or the end |
| Client.PutLookup | client.py:210 | after storing a peer under its address, that address finds it, every other address finds what it found before, and addresses stay unique |
| Client.PutReplaces | client.py:210 | a later peer with the same address replaces the earlier one |
| Client.PutAllLookup | client.py:209-210 | after `_add_peers`, each address finds the last listed peer with it, or its old peer |
| Client.ConnectFrom | client.py:221-235 | the loop keeps the peers and their order; only unconnected peers whose handshake succeeds change, to connected; at most the budget of them |
| Client.Connect | client.py:216-235 | the same over the whole table |
| Client.ConnectFromCount | client.py:221-235 | the loop connects min(candidates, budget) peers, and all candidates when the budget suffices |
| Client.ConnectCount | client.py:216-235 | `_connect_to_peers` connects min(candidates, budget) peers; with budget to spare every peer whose handshake succeeds ends connected |
| Client.NoCandidates | client.py:221-235 | with no candidates left, every peer whose handshake succeeds is already connected |
| Client.ConnectLoop | client.py:221-235 | the imperative loop computes `Connect(peers, ok, 50)` |
| Client.ConnectKeepsAddrs | client.py:221-235 | connecting peers keeps addresses unique |
| Client.Next | client.py:247-266 | pause always gives PAUSED; resume acts only from PAUSED, giving DOWNLOADING; download leaves the state unchanged exactly when it is DOWNLOADING or COMPLETED, and always ends in one of them |
| Client.PauseResume | client.py:258-266 | pausing then resuming restarts any torrent, a completed one too |
| Client.NextIdempotent | client.py:247-266 | each operation is idempotent |
| Client.Size | client.py:287 | size is `length` when it is present and non-zero, else the sum of file lengths |
| Client.SizeSingleFile | client.py:287 | a single-file torrent's size is its file's length, also when that is 0 |
| Client.BitTorrentClient.constructor | client.py:78-98 | all four dictionaries start empty |
| Client.BitTorrentClient.AddTorrent | client.py:118-137 | a known info hash returns False and changes nothing; a new one is registered QUEUED with progress 0.0 and returns True; a parse error ends in UnboundLocalError |
| Client.BitTorrentClient.AddPeers | client.py:207-214 | every peer is stored under its address in the torrent's table; connecting is scheduled iff the torrent is DOWNLOADING |
| Client.BitTorrentClient.ConnectToPeers | client.py:216-235 | KeyError for an unknown torrent; otherwise the table becomes `Connect(table, ok, 50)` and the count is returned |
| Client.BitTorrentClient.DownloadTorrent | client.py:247-256 | ValueError for an unknown hash; no-op when DOWNLOADING or COMPLETED; otherwise DOWNLOADING and peers connected |
| Client.BitTorrentClient.PauseTorrent | client.py:258-261 | a known torrent becomes PAUSED; an unknown hash changes nothing |
| Client.BitTorrentClient.ResumeTorrent | client.py:263-266 | only a PAUSED torrent is downloaded again; otherwise nothing changes |
| Client.BitTorrentClient.RemoveTorrent | client.py:268-277 | the hash leaves torrents, states and progress; peers stay; an unknown hash changes nothing |
| Client.BitTorrentClient.GetTorrentInfo | client.py:279-294 | None for an unknown hash; otherwise name, size, progress (default 0.0), state name (default QUEUED), peer count, zero speeds and the files' paths and sizes |
| SimplePeer.AcceptsLongEnough | src/peer.py:42-44 | the reply is accepted iff 68 bytes of it are available |
| SimplePeer.AcceptsForeignTorrent | src/peer.py:42-44 | a 68-byte reply naming another torrent is accepted here, though the core connection rejects it |
| SimplePeer.PlanFromBlockPlan | src/peer.py:73-74 | from the k-th block on, the request loop asks for the blocks `_create_blocks` makes from the k-th on |
| SimplePeer.PlanIsBlockPlan | src/peer.py:69-84 | the request plan is the block plan of the piece, and empty for a length of 0 or less |
| SimplePeer.RequestPlanCoversPiece | src/peer.py:69-84 | for a u32 index and a piece length up to 2^32, every request packs; the bytes written are one 17-byte REQUEST per block; the lengths sum to the piece length |
| SimplePeer.RequestsFit | src/peer.py:75-83 | when every field fits u32, the requests are written with no error, one per planned block |
| SimplePeer.RequestsBadIndex | src/peer.py:75-82 | an index outside u32 fails at the first pack and writes nothing |
| SimplePeer.Requests | src/peer.py:73-84 | any failure of the request loop is struct.error |
| SimplePeer.Verdict | src/peer.py:56-63 | data is returned iff it was received and its SHA-1 is the expected hash, and it is returned unchanged |
| SimplePeer.DownloadNeverSucceeds | src/peer.py:56 | since `_receive_piece` raises AttributeError, the verdict is None |
| SimplePeer.PeerConnection.constructor | src/peer.py:10-18 | a new connection has no streams, an empty bitfield and is not connected |
| SimplePeer.PeerConnection.Connect | src/peer.py:20-44 | the handshake is written when the connection opens; True iff 68 bytes come back, and then `connected` is set |
| SimplePeer.PeerConnection.SendInterested | src/peer.py:65-67 | writes 00 00 00 01 02; AttributeError without a writer |
| SimplePeer.PeerConnection.RequestPiece | src/peer.py:69-84 | an open connection gets exactly the request bytes of the plan, and the first packing error is the result; without a writer nothing is written and the result is Ok for an empty piece, struct.error for an index outside u32, else AttributeError |
| SimplePeer.PeerConnection.WriteRequests | src/peer.py:73-84 | the loop writes the request messages of `Requests(Plan)` and stops at the first that cannot be packed |
| SimplePeer.PeerConnection.DownloadPiece | src/peer.py:46-63 | after connecting if needed, INTERESTED and the requests are written; data is returned only when every step succeeded and its SHA-1 matches; `connected` ends set iff it was, or the connection opened with a 68-byte reply |

## Left out

- Sockets, asyncio, aiohttp, timeouts and `create_task` are not modelled. A stream is a `Reader` over what the peer sends; the bytes written are a sequence; whether a connection opens is a parameter.
- SHA-1, bencode encoding and decoding, `urlencode`, `quote`, `bytes.decode` and `os.path.join` are function parameters; a file path is kept as its list of components.
- Reading the `.torrent` file and `_parse_torrent_file` in client.py are not modelled: the parsed metadata (or the parse error) is a parameter. The `created_by`, `creation_date` and `comment` fields, which nothing reads, are dropped.
- `get_announce_list`, `get_comment`, `get_created_by` and `get_creation_date` of src/core/torrent.py are not modelled: they re-read the file. The magnet link takes the tracker list as a parameter.
- The disk writes of `_write_piece` (open, seek, write, flush) are not modelled. Only its plan of offsets and slices is (`Pieces.WritePlan`); `CheckPieceCompletion` does not call it.
- `close` of the piece manager and its `fd`, `pending_blocks`, `missing_blocks`, `max_pending_time` and `data_dir` fields are not modelled: they only carry file I/O or are never used.
- Floating point: `update_peer_progress` and `get_completion` are modelled with `real`, so there is no rounding.
- `DHTNode`, `_contact_tracker`, `_handshake_with_peer`, `_handle_peer_communication`, the SSL context and logging in client.py are stubs or plumbing. The handshake outcome in `_connect_to_peers` is a predicate `ok` on addresses, and discovery is left out.
- `BitTorrentUI` in client.py and the user interface files are not modelled.
- Concurrency between peer tasks is not modelled: each operation runs to completion.
- PeerConnections.PeerConnection.ReceiveMessages: at the end of a stream that is not reset, the source keeps reading empty keep-alives forever; the model stops there with the outcome `Stalled`.
- Pieces.PieceManager.constructor: it requires `piece_length > 0`. The source divides by `piece_length` only when the torrent has at least one piece, so a torrent with no pieces and a zero piece length is excluded.
- SimplePeer.PeerConnection.RequestPiece: the source reads `self.piece_length`, which the class never sets, so `_request_piece` raises AttributeError before any request. The model takes the piece length as a parameter and models the loop the code evidently intends.
- SimplePeer.PeerConnection.DownloadPiece: the source calls `_receive_piece`, which the class does not define. What it would return or raise is the parameter `received`, and `SimplePeer.DownloadNeverSucceeds` records the AttributeError case.
- SimpleTracker.UdpTracker: the source opens a TCP stream to the UDP tracker's host and then fails to pack the announce with key −1 in an unsigned field. The model stops at that struct.error and never sends the announce; `ReplyPeers` only describes what its reply would give.
- The random transaction ids of src/tracker.py and the random digits of the peer id are parameters.
- Pieces.ProgressOf: the contract bounds the progress and fixes its extreme values; that it is exactly popcount/(8·len) is its definition and is not restated.
