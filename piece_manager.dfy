/** Piece and block bookkeeping of `PieceManager` (src/core/piece_manager.py).

    Every piece is cut into 16 KiB blocks, and every block runs through
    MISSING -> PENDING -> RETRIEVED.  Once all blocks of a piece are
    retrieved, the piece is checked against its SHA-1 digest.  On a match it
    moves from `missing_pieces` to `completed_pieces`; on a mismatch all its
    blocks go back to MISSING.

    Blocks and pieces are objects, as in the source, because the source shares
    them: every piece except the last holds the SAME list of block objects
    (built once, tagged with the last piece's index), so a block received for
    one of these pieces is seen by all of them.

    The state is described twice.  The class keeps the fields the source
    keeps.  `State`, a value, is what those fields amount to, and the pure
    functions `Receive` and `NextRequest` say what each operation does to it.
    The lemmas about those functions carry the properties. */
module Pieces {
  import opened Wrappers
  import opened Bytes
  import Metainfo

  /** `torrent.block_length`. */
  const B: nat := Metainfo.BLOCK_LENGTH

  datatype Status = Missing | Pending | Retrieved

  class Block {
    const piece: int
    const offset: int
    const length: int
    var data: Option<seq<byte>>
    var status: Status

    constructor (piece: int, offset: int, length: int)
      ensures this.piece == piece && this.offset == offset && this.length == length
      ensures data == None && status == Missing
    {
      this.piece := piece;
      this.offset := offset;
      this.length := length;
      data := None;
      status := Missing;
    }
  }

  class Piece {
    const index: nat
    const blocks: seq<Block>
    const hash: seq<byte>
    var isComplete: bool

    constructor (index: nat, blocks: seq<Block>, hash: seq<byte>)
      ensures this.index == index && this.blocks == blocks && this.hash == hash
      ensures !isComplete
    {
      this.index := index;
      this.blocks := blocks;
      this.hash := hash;
      isComplete := false;
    }
  }

  // ===== The block plan of `_create_blocks` =====

  function Min(a: int, b: int): int
  {
    if a < b then a else b
  }

  /** `piece_length // block_length`, plus one for a partial last block. */
  function NumBlocks(len: nat): nat
  {
    len / B + if len % B != 0 then 1 else 0
  }

  datatype Span = Span(offset: int, length: int)

  /** Block i starts at i * 16384 and is the rest of the piece, at most 16384 long. */
  function BlockPlan(len: nat): (plan: seq<Span>)
    ensures |plan| == NumBlocks(len)
  {
    seq(NumBlocks(len), i requires 0 <= i < NumBlocks(len) => Span(i * B, Min(B, len - i * B)))
  }

  /** The number of blocks is the ceiling of len / 16384. */
  lemma NumBlocksIsCeiling(len: nat)
    ensures NumBlocks(len) * B >= len
    ensures NumBlocks(len) > 0 ==> (NumBlocks(len) - 1) * B < len
    ensures NumBlocks(len) == 0 <==> len == 0
  {
  }

  /** The blocks tile [0, len): the first starts at 0, each next one starts
      where the previous one ends, the last ends at len; every block is
      non-empty, and all but the last are exactly 16384 bytes long. */
  lemma BlockPlanTiles(len: nat)
    ensures var p := BlockPlan(len);
      && (|p| > 0 ==> p[0].offset == 0)
      && (forall i :: 0 <= i < |p| - 1 ==> p[i].length == B && p[i].offset + p[i].length == p[i + 1].offset)
      && (forall i :: 0 <= i < |p| ==> 0 < p[i].length <= B)
      && (|p| > 0 ==> p[|p| - 1].offset + p[|p| - 1].length == len)
  {
    NumBlocksIsCeiling(len);
  }

  function SumLengths(spans: seq<Span>): int
  {
    if spans == [] then 0 else SumLengths(spans[..|spans| - 1]) + spans[|spans| - 1].length
  }

  /** The first k blocks cover exactly min(k * 16384, len) bytes. */
  lemma {:induction false} BlockPlanPrefixSum(len: nat, k: nat)
    requires k <= NumBlocks(len)
    ensures SumLengths(BlockPlan(len)[..k]) == Min(k * B, len)
  {
    NumBlocksIsCeiling(len);
    if k > 0 {
      var p := BlockPlan(len);
      assert p[..k][..k - 1] == p[..k - 1];
      BlockPlanPrefixSum(len, k - 1);
    }
  }

  /** The block lengths add up to the piece length. */
  lemma BlockPlanSum(len: nat)
    ensures SumLengths(BlockPlan(len)) == len
  {
    BlockPlanPrefixSum(len, NumBlocks(len));
    NumBlocksIsCeiling(len);
    assert BlockPlan(len)[..NumBlocks(len)] == BlockPlan(len);
  }

  /** The offsets and lengths of a list of blocks. */
  function Spans(blocks: seq<Block>): (r: seq<Span>)
    ensures |r| == |blocks|
  {
    seq(|blocks|, i requires 0 <= i < |blocks| => Span(blocks[i].offset, blocks[i].length))
  }

  predicate Distinct<T(==)>(s: seq<T>)
  {
    forall i, j :: 0 <= i < j < |s| ==> s[i] != s[j]
  }

  // ===== The abstract state =====

  datatype BlockState = BlockState(status: Status, data: Option<seq<byte>>)

  /** `missing_pieces`, `completed_pieces`, and the status and data of every block. */
  datatype State = State(missing: seq<Piece>, completed: seq<Piece>, blocks: map<Block, BlockState>)

  /** Every block of every listed piece has a state. */
  predicate Covers(blocks: map<Block, BlockState>, ps: seq<Piece>)
  {
    forall p, b :: p in ps && b in p.blocks ==> b in blocks
  }

  /** What the source keeps true: a piece is listed once, in exactly one of
      the two lists; no two listed pieces share an index; every block's state
      is known; a block holds data exactly when it is RETRIEVED. */
  predicate Inv(s: State)
  {
    && Distinct(s.missing) && Distinct(s.completed)
    && (forall p :: p in s.missing ==> p !in s.completed)
    && (forall p, q :: p in s.missing + s.completed && q in s.missing + s.completed && p.index == q.index ==> p == q)
    && Covers(s.blocks, s.missing + s.completed)
    && (forall b :: b in s.blocks ==> (s.blocks[b].status == Retrieved <==> s.blocks[b].data.Some?))
  }

  /** Position of the first piece with the given index, or |ps|. */
  function FindPiece(ps: seq<Piece>, index: int): (k: nat)
    ensures k <= |ps|
    ensures k < |ps| ==> ps[k].index == index
    ensures forall i :: 0 <= i < k ==> ps[i].index != index
  {
    if ps == [] then 0 else if ps[0].index == index then 0 else 1 + FindPiece(ps[1..], index)
  }

  /** Position of the first block with the given offset, or |bs|. */
  function FindBlock(bs: seq<Block>, offset: int): (k: nat)
    ensures k <= |bs|
    ensures k < |bs| ==> bs[k].offset == offset
    ensures forall i :: 0 <= i < k ==> bs[i].offset != offset
  {
    if bs == [] then 0 else if bs[0].offset == offset then 0 else 1 + FindBlock(bs[1..], offset)
  }

  /** `all(block.status == Block.RETRIEVED for block in piece.blocks)`. */
  predicate AllRetrieved(blocks: map<Block, BlockState>, bs: seq<Block>)
    requires forall b :: b in bs ==> b in blocks
  {
    forall b :: b in bs ==> blocks[b].status == Retrieved
  }

  /** `b''.join([block.data for block in piece.blocks])`. */
  function PieceData(blocks: map<Block, BlockState>, bs: seq<Block>): seq<byte>
    requires forall b :: b in bs ==> b in blocks
  {
    if bs == [] then [] else blocks[bs[0]].data.GetOr([]) + PieceData(blocks, bs[1..])
  }

  /** `_validate_piece`: the digest of the joined block data is the piece's hash. */
  predicate Validates(blocks: map<Block, BlockState>, p: Piece, sha1: seq<byte> -> seq<byte>)
    requires forall b :: b in p.blocks ==> b in blocks
  {
    sha1(PieceData(blocks, p.blocks)) == p.hash
  }

  /** `list.remove(x)`: drops the first occurrence of x. */
  function RemoveFirst(s: seq<Piece>, x: Piece): (r: seq<Piece>)
    requires x in s
    ensures |r| == |s| - 1
    ensures multiset(r) == multiset(s) - multiset{x}
  {
    assert s == [s[0]] + s[1..];
    if s[0] == x then s[1..] else [s[0]] + RemoveFirst(s[1..], x)
  }

  /** In a list without repeats, removing x removes x and nothing else. */
  lemma RemoveFirstDistinct(s: seq<Piece>, x: Piece)
    requires x in s && Distinct(s)
    ensures Distinct(RemoveFirst(s, x))
    ensures forall y: Piece :: y in RemoveFirst(s, x) <==> y in s && y != x
  {
    var r := RemoveFirst(s, x);
    forall y ensures y in r <==> y in s && y != x {
      assert y in r <==> y in multiset(r);
      assert y in s <==> y in multiset(s);
      if y == x {
        assert multiset(s)[x] == 1 by { DistinctCount(s, x); }
      }
    }
    forall y | y in r ensures multiset(r)[y] == 1 {
      DistinctCount(s, y);
    }
    CountDistinct(r);
  }

  lemma RemoveFirstMember(s: seq<Piece>, x: Piece, y: Piece)
    requires x in s && Distinct(s)
    ensures y in RemoveFirst(s, x) <==> y in s && y != x
  {
    RemoveFirstDistinct(s, x);
  }

  lemma {:induction false} DistinctCount(s: seq<Piece>, x: Piece)
    requires Distinct(s)
    ensures multiset(s)[x] == if x in s then 1 else 0
  {
    if s != [] {
      assert s == [s[0]] + s[1..];
      assert Distinct(s[1..]);
      DistinctCount(s[1..], x);
    }
  }

  lemma {:induction false} CountDistinct(s: seq<Piece>)
    requires forall y :: y in s ==> multiset(s)[y] == 1
    ensures Distinct(s)
  {
    forall i, j | 0 <= i < j < |s| ensures s[i] != s[j] {
      assert s == s[..j] + [s[j]] + s[j + 1..];
      assert s[i] in s[..j];
      assert multiset(s)[s[j]] == multiset(s[..j])[s[j]] + 1 + multiset(s[j + 1..])[s[j]];
    }
  }

  /** Every block in `bs` back to MISSING with no data. */
  function Reset(blocks: map<Block, BlockState>, bs: seq<Block>): (r: map<Block, BlockState>)
    ensures r.Keys == blocks.Keys
  {
    map b | b in blocks :: if b in bs then BlockState(Missing, None) else blocks[b]
  }

  /** `_check_piece_completion(piece)` for a piece of `missing_pieces`. */
  function CheckCompletion(s: State, p: Piece, sha1: seq<byte> -> seq<byte>): State
    requires p in s.missing && Covers(s.blocks, s.missing)
  {
    if !AllRetrieved(s.blocks, p.blocks) then s
    else if Validates(s.blocks, p, sha1) then State(RemoveFirst(s.missing, p), s.completed + [p], s.blocks)
    else s.(blocks := Reset(s.blocks, p.blocks))
  }

  /** The piece that `block_received(index, offset, _)` acts on, and the
      position of its block, if there is one. */
  function Target(s: State, index: int, offset: int): Option<(Piece, nat)>
  {
    var k := FindPiece(s.missing, index);
    if k == |s.missing| then None
    else
      var j := FindBlock(s.missing[k].blocks, offset);
      if j == |s.missing[k].blocks| then None else Some((s.missing[k], j))
  }

  /** `block_received(index, offset, data)`. */
  function Receive(s: State, sha1: seq<byte> -> seq<byte>, index: int, offset: int, data: seq<byte>): State
    requires Covers(s.blocks, s.missing)
  {
    match Target(s, index, offset)
    case None => s
    case Some((p, j)) =>
      CheckCompletion(s.(blocks := s.blocks[p.blocks[j] := BlockState(Retrieved, Some(data))]), p, sha1)
  }

  /** The result of the scan of `next_request`: a block, none, or the
      IndexError raised when a piece's index is past the end of the bitfield. */
  datatype Pick = NoBlock | Picked(block: Block) | BitfieldTooShort

  /** Position of the first MISSING block, or |bs|. */
  function FirstMissing(blocks: map<Block, BlockState>, bs: seq<Block>): (k: nat)
    requires forall b :: b in bs ==> b in blocks
    ensures k <= |bs|
    ensures k < |bs| ==> blocks[bs[k]].status == Missing
    ensures forall i :: 0 <= i < k ==> blocks[bs[i]].status != Missing
  {
    if bs == [] then 0 else if blocks[bs[0]].status == Missing then 0 else 1 + FirstMissing(blocks, bs[1..])
  }

  /** The loop of `next_request` over `ps` (a suffix of `missing_pieces`). */
  function Scan(ps: seq<Piece>, blocks: map<Block, BlockState>, bf: seq<int>): Pick
    requires Covers(blocks, ps)
  {
    if ps == [] then NoBlock
    else if ps[0].index >= |bf| then BitfieldTooShort
    else if bf[ps[0].index] == 0 then Scan(ps[1..], blocks, bf)
    else
      var j := FirstMissing(blocks, ps[0].blocks);
      if j < |ps[0].blocks| then Picked(ps[0].blocks[j]) else Scan(ps[1..], blocks, bf)
  }

  /** `next_request(bitfield)`: what it returns and the state after it. */
  function NextRequest(s: State, bf: seq<int>): (Pick, State)
    requires Covers(s.blocks, s.missing)
  {
    if bf == [] then (NoBlock, s)
    else
      match Scan(s.missing, s.blocks, bf)
      case Picked(b) =>
        if b in s.blocks then (Picked(b), s.(blocks := s.blocks[b := BlockState(Pending, s.blocks[b].data)]))
        else (Picked(b), s)
      case other => (other, s)
  }

  // ===== What block_received does =====

  lemma CoversMissing(s: State)
    requires Inv(s)
    ensures Covers(s.blocks, s.missing)
  {
    forall p, b | p in s.missing && b in p.blocks ensures b in s.blocks {
      assert p in s.missing + s.completed;
    }
  }

  /** `block_received` finds a block exactly when some piece of
      `missing_pieces` has the index and a block with the offset. */
  lemma TargetExists(s: State, index: int, offset: int)
    requires Inv(s)
    ensures Target(s, index, offset).None? <==>
      forall q, b :: q in s.missing && q.index == index && b in q.blocks ==> b.offset != offset
  {
    var k := FindPiece(s.missing, index);
    forall q, b | q in s.missing && q.index == index && b in q.blocks && b.offset == offset
      ensures Target(s, index, offset).Some?
    {
      assert s.missing[k] in s.missing + s.completed && q in s.missing + s.completed;
      assert s.missing[k] == q;
      assert FindBlock(q.blocks, offset) < |q.blocks|;
    }
    if Target(s, index, offset).Some? {
      var j := FindBlock(s.missing[k].blocks, offset);
      assert s.missing[k].blocks[j] in s.missing[k].blocks;
    }
  }

  /** A completed piece shares its index with no missing piece, so a block
      for it is never targeted. */
  lemma CompletedNotTargeted(s: State, q: Piece, offset: int)
    requires Inv(s) && q in s.completed
    ensures Target(s, q.index, offset).None?
  {
    forall p | p in s.missing ensures p.index != q.index {
      assert p in s.missing + s.completed && q in s.missing + s.completed;
    }
    TargetExists(s, q.index, offset);
  }

  /** An unknown piece index or block offset (which includes any block of
      a completed piece) leaves the whole state as it was. */
  lemma ReceiveUntargeted(s: State, sha1: seq<byte> -> seq<byte>, index: int, offset: int, data: seq<byte>)
    requires Inv(s)
    requires forall q, b :: q in s.missing && q.index == index && b in q.blocks ==> b.offset != offset
    ensures Covers(s.blocks, s.missing)
    ensures Receive(s, sha1, index, offset, data) == s
  {
    CoversMissing(s);
    TargetExists(s, index, offset);
  }

  /** Only the targeted piece's blocks can change, and only the targeted
      piece can change lists; every other block keeps its status and data. */
  lemma ReceiveFrame(s: State, sha1: seq<byte> -> seq<byte>, index: int, offset: int, data: seq<byte>)
    requires Inv(s)
    ensures Covers(s.blocks, s.missing)
    ensures var s' := Receive(s, sha1, index, offset, data);
      && s'.blocks.Keys == s.blocks.Keys
      && (Target(s, index, offset).None? ==> s' == s)
      && (Target(s, index, offset).Some? ==>
            var p := Target(s, index, offset).value.0;
            && (forall b :: b in s.blocks && b !in p.blocks ==> s'.blocks[b] == s.blocks[b])
            && (forall q :: q != p ==> (q in s'.missing <==> q in s.missing) && (q in s'.completed <==> q in s.completed)))
  {
    CoversMissing(s);
    match Target(s, index, offset)
    case None =>
    case Some((p, j)) =>
      var k := FindPiece(s.missing, index);
      assert p == s.missing[k];
      assert p.blocks[j] in p.blocks;
      RemoveFirstDistinct(s.missing, p);
  }

  /** The targeted block is RETRIEVED with the new data, unless that very
      reception completed the piece with a bad digest. */
  lemma ReceiveStoresBlock(s: State, sha1: seq<byte> -> seq<byte>, index: int, offset: int, data: seq<byte>)
    requires Inv(s)
    requires Target(s, index, offset).Some?
    ensures Covers(s.blocks, s.missing)
    ensures var (p, j) := Target(s, index, offset).value;
      var s1 := s.blocks[p.blocks[j] := BlockState(Retrieved, Some(data))];
      var s' := Receive(s, sha1, index, offset, data);
      && p.blocks[j] in s'.blocks
      && (AllRetrieved(s1, p.blocks) && !Validates(s1, p, sha1) ==> s'.blocks[p.blocks[j]] == BlockState(Missing, None))
      && (!(AllRetrieved(s1, p.blocks) && !Validates(s1, p, sha1)) ==> s'.blocks[p.blocks[j]] == BlockState(Retrieved, Some(data)))
  {
    CoversMissing(s);
    var (p, j) := Target(s, index, offset).value;
    assert p == s.missing[FindPiece(s.missing, index)];
    assert p.blocks[j] in p.blocks;
  }

  /** A piece of `missing_pieces` moves to `completed_pieces` exactly when,
      after the new block is stored, all its blocks are RETRIEVED and the
      digest of their joined data is the piece's hash; it then leaves
      `missing_pieces`.  On a mismatch every one of its blocks is MISSING
      with no data and the piece stays in `missing_pieces`. */
  lemma ReceiveCompletion(s: State, sha1: seq<byte> -> seq<byte>, index: int, offset: int, data: seq<byte>)
    requires Inv(s)
    requires Target(s, index, offset).Some?
    ensures Covers(s.blocks, s.missing)
    ensures var (p, j) := Target(s, index, offset).value;
      var s1 := s.blocks[p.blocks[j] := BlockState(Retrieved, Some(data))];
      var s' := Receive(s, sha1, index, offset, data);
      && (forall b :: b in p.blocks ==> b in s1)
      && ((p in s'.completed) <==> (AllRetrieved(s1, p.blocks) && Validates(s1, p, sha1)))
      && ((p in s'.missing) <==> !(p in s'.completed))
      && (p in s'.completed ==> s'.completed == s.completed + [p] && |s'.missing| == |s.missing| - 1)
      && (AllRetrieved(s1, p.blocks) && !Validates(s1, p, sha1) ==>
            s'.missing == s.missing && forall b :: b in p.blocks ==> s'.blocks[b] == BlockState(Missing, None))
  {
    CoversMissing(s);
    var (p, j) := Target(s, index, offset).value;
    var k := FindPiece(s.missing, index);
    assert p == s.missing[k];
    assert p !in s.completed;
    assert p.blocks[j] in p.blocks;
    RemoveFirstDistinct(s.missing, p);
  }

  /** Storing a block state that keeps "RETRIEVED exactly when it holds
      data" keeps the invariant. */
  lemma StoreKeepsInv(s: State, b: Block, st: BlockState)
    requires Inv(s) && b in s.blocks
    requires st.status == Retrieved <==> st.data.Some?
    ensures Inv(s.(blocks := s.blocks[b := st]))
  {
  }

  /** Moving a missing piece to the completed list keeps the invariant and
      the set of pieces. */
  lemma MoveKeepsInv(s: State, p: Piece)
    requires Inv(s) && p in s.missing
    ensures var s' := State(RemoveFirst(s.missing, p), s.completed + [p], s.blocks);
      && Inv(s')
      && multiset(s'.missing) + multiset(s'.completed) == multiset(s.missing) + multiset(s.completed)
  {
    var s' := State(RemoveFirst(s.missing, p), s.completed + [p], s.blocks);
    RemoveFirstDistinct(s.missing, p);
    assert p !in s.completed;
    forall q | q in s'.missing + s'.completed ensures q in s.missing + s.completed {
      if q in s'.missing {
        RemoveFirstMember(s.missing, p, q);
      } else {
        assert q in s.completed + [p];
        assert q == p || q in s.completed;
      }
    }
    assert Distinct(s'.completed) by {
      forall a, c | 0 <= a < c < |s'.completed| ensures s'.completed[a] != s'.completed[c] {
        if c == |s'.completed| - 1 {
          assert s'.completed[a] in s.completed;
        }
      }
    }
  }

  /** `_check_piece_completion` keeps the invariant and the set of pieces. */
  lemma CheckCompletionKeepsInv(s: State, p: Piece, sha1: seq<byte> -> seq<byte>)
    requires Inv(s) && p in s.missing
    ensures Covers(s.blocks, s.missing)
    ensures Inv(CheckCompletion(s, p, sha1))
    ensures var s' := CheckCompletion(s, p, sha1);
      multiset(s'.missing) + multiset(s'.completed) == multiset(s.missing) + multiset(s.completed)
  {
    CoversMissing(s);
    if AllRetrieved(s.blocks, p.blocks) && Validates(s.blocks, p, sha1) {
      MoveKeepsInv(s, p);
    }
  }

  /** `block_received` keeps the invariant and the set of pieces. */
  lemma ReceiveKeepsInv(s: State, sha1: seq<byte> -> seq<byte>, index: int, offset: int, data: seq<byte>)
    requires Inv(s)
    ensures Covers(s.blocks, s.missing)
    ensures Inv(Receive(s, sha1, index, offset, data))
    ensures var s' := Receive(s, sha1, index, offset, data);
      multiset(s'.missing) + multiset(s'.completed) == multiset(s.missing) + multiset(s.completed)
  {
    CoversMissing(s);
    match Target(s, index, offset)
    case None =>
    case Some((p, j)) =>
      var k := FindPiece(s.missing, index);
      assert p == s.missing[k];
      assert p.blocks[j] in p.blocks;
      var s1 := s.(blocks := s.blocks[p.blocks[j] := BlockState(Retrieved, Some(data))]);
      StoreKeepsInv(s, p.blocks[j], BlockState(Retrieved, Some(data)));
      CheckCompletionKeepsInv(s1, p, sha1);
  }

  /** A block as a peer connection hands it to `block_received`. */
  datatype Arrival = Arrival(index: int, offset: int, data: seq<byte>)

  /** `block_received` for each arrival in turn: the invariant holds
      throughout and no piece is gained or lost. */
  function ReceiveAll(s: State, sha1: seq<byte> -> seq<byte>, arrivals: seq<Arrival>): (s': State)
    requires Inv(s)
    ensures Inv(s')
    ensures multiset(s'.missing) + multiset(s'.completed) == multiset(s.missing) + multiset(s.completed)
    decreases |arrivals|
  {
    if arrivals == [] then s
    else
      var a := arrivals[0];
      ReceiveKeepsInv(s, sha1, a.index, a.offset, a.data);
      ReceiveAll(Receive(s, sha1, a.index, a.offset, a.data), sha1, arrivals[1..])
  }

  /** Receiving a sequence in two parts is receiving it whole. */
  lemma {:induction false} ReceiveAllConcat(s: State, sha1: seq<byte> -> seq<byte>, first: seq<Arrival>, more: seq<Arrival>)
    requires Inv(s)
    ensures ReceiveAll(s, sha1, first + more) == ReceiveAll(ReceiveAll(s, sha1, first), sha1, more)
    decreases |first|
  {
    if first == [] {
      assert first + more == more;
    } else {
      var a := first[0];
      assert (first + more)[0] == a && (first + more)[1..] == first[1..] + more;
      ReceiveKeepsInv(s, sha1, a.index, a.offset, a.data);
      ReceiveAllConcat(Receive(s, sha1, a.index, a.offset, a.data), sha1, first[1..], more);
    }
  }

  // ===== What next_request does =====

  /** A piece the scan of `next_request` passes over: the bitfield does not
      mark it, or none of its blocks is MISSING. */
  predicate Skipped(p: Piece, blocks: map<Block, BlockState>, bf: seq<int>)
    requires forall b :: b in p.blocks ==> b in blocks
  {
    p.index < |bf| && (bf[p.index] == 0 || FirstMissing(blocks, p.blocks) == |p.blocks|)
  }

  /** Position of the first piece the scan does not pass over, or |ps|. */
  function FirstUnskipped(ps: seq<Piece>, blocks: map<Block, BlockState>, bf: seq<int>): (k: nat)
    requires Covers(blocks, ps)
    ensures k <= |ps|
    ensures forall i :: 0 <= i < k ==> Skipped(ps[i], blocks, bf)
    ensures k < |ps| ==> !Skipped(ps[k], blocks, bf)
  {
    if ps == [] then 0
    else
      assert ps[0] in ps;
      assert Covers(blocks, ps[1..]) by {
        forall p, b | p in ps[1..] && b in p.blocks ensures b in blocks { assert p in ps; }
      }
      if Skipped(ps[0], blocks, bf) then 1 + FirstUnskipped(ps[1..], blocks, bf) else 0
  }

  /** The scan is first fit: it stops at the first piece, in list order,
      that it does not pass over; that piece raises IndexError if its index
      is past the end of the bitfield, and otherwise gives its first MISSING
      block.  If it passes over every piece it returns None. */
  lemma {:induction false} ScanFirstFit(ps: seq<Piece>, blocks: map<Block, BlockState>, bf: seq<int>)
    requires Covers(blocks, ps)
    ensures var k := FirstUnskipped(ps, blocks, bf);
      && (k == |ps| ==> Scan(ps, blocks, bf) == NoBlock)
      && (k < |ps| && ps[k].index >= |bf| ==> Scan(ps, blocks, bf) == BitfieldTooShort)
      && (k < |ps| && ps[k].index < |bf| ==>
            && FirstMissing(blocks, ps[k].blocks) < |ps[k].blocks|
            && Scan(ps, blocks, bf) == Picked(ps[k].blocks[FirstMissing(blocks, ps[k].blocks)]))
    decreases |ps|
  {
    if ps != [] {
      assert ps[0] in ps;
      assert Covers(blocks, ps[1..]) by {
        forall p, b | p in ps[1..] && b in p.blocks ensures b in blocks { assert p in ps; }
      }
      if Skipped(ps[0], blocks, bf) {
        ScanFirstFit(ps[1..], blocks, bf);
        var k := FirstUnskipped(ps[1..], blocks, bf);
        assert k < |ps[1..]| ==> ps[1..][k] == ps[k + 1];
      }
    }
  }

  /** `next_request` of an empty bitfield returns None and changes nothing;
      a picked block was MISSING, the pick flips exactly that block to
      PENDING (it had no data), and any other outcome changes nothing. */
  lemma NextRequestEffect(s: State, bf: seq<int>)
    requires Inv(s)
    ensures Covers(s.blocks, s.missing)
    ensures bf == [] ==> NextRequest(s, bf) == (NoBlock, s)
    ensures var (r, s') := NextRequest(s, bf);
      && (r.Picked? ==> r.block in s.blocks && s.blocks[r.block].status == Missing
                        && s' == s.(blocks := s.blocks[r.block := BlockState(Pending, None)]))
      && (!r.Picked? ==> s' == s)
      && Inv(s')
  {
    CoversMissing(s);
    if bf != [] {
      ScanFirstFit(s.missing, s.blocks, bf);
      var k := FirstUnskipped(s.missing, s.blocks, bf);
      if k < |s.missing| && s.missing[k].index < |bf| {
        var b := s.missing[k].blocks[FirstMissing(s.blocks, s.missing[k].blocks)];
        assert b in s.missing[k].blocks;
      }
    }
  }

  /** A piece whose digest failed is selectable again: once its first block
      is MISSING, a bitfield that marks it, and is long enough for every
      listed piece, makes `next_request` return some block. */
  lemma ResetPieceIsReselectable(s: State, p: Piece, bf: seq<int>)
    requires Inv(s)
    requires p in s.missing && |p.blocks| > 0
    requires p.blocks[0] in s.blocks && s.blocks[p.blocks[0]].status == Missing
    requires forall q :: q in s.missing ==> q.index < |bf|
    requires bf[p.index] != 0
    ensures Covers(s.blocks, s.missing)
    ensures NextRequest(s, bf).0.Picked?
  {
    CoversMissing(s);
    ScanFirstFit(s.missing, s.blocks, bf);
    assert !Skipped(p, s.blocks, bf);
    var k := FirstUnskipped(s.missing, s.blocks, bf);
    assert k < |s.missing| by {
      var i :| 0 <= i < |s.missing| && s.missing[i] == p;
      assert k <= i;
    }
    assert s.missing[k] in s.missing;
  }

  // ===== Peer progress and completion =====

  /** `bin(b).count('1')`. */
  function BitCount(b: nat): nat
  {
    if b == 0 then 0 else b % 2 + BitCount(b / 2)
  }

  function Pow2(k: nat): (p: nat)
    ensures p >= 1
  {
    if k == 0 then 1 else 2 * Pow2(k - 1)
  }

  /** A number below 2^k has at most k bits set. */
  lemma {:induction false} BitCountWidth(b: nat, k: nat)
    requires b < Pow2(k)
    ensures BitCount(b) <= k
  {
    if b > 0 {
      BitCountWidth(b / 2, k - 1);
    }
  }

  /** `sum(bin(b).count('1') for b in bitfield)`. */
  function Popcount(bf: seq<byte>): nat
  {
    if bf == [] then 0 else BitCount(bf[0]) + Popcount(bf[1..])
  }

  lemma {:induction false} PopcountBound(bf: seq<byte>)
    ensures Popcount(bf) <= 8 * |bf|
  {
    if bf != [] {
      assert Pow2(8) == 256;
      BitCountWidth(bf[0], 8);
      PopcountBound(bf[1..]);
    }
  }

  /** The progress `update_peer_progress` records: the share of set bits
      among the 8 * len(bitfield) bits, 0 for an empty bitfield. */
  function ProgressOf(bf: seq<byte>): (r: real)
    ensures 0.0 <= r <= 1.0
    ensures |bf| == 0 ==> r == 0.0
    ensures Popcount(bf) == 8 * |bf| && |bf| > 0 ==> r == 1.0
  {
    PopcountBound(bf);
    var total := |bf| * 8;
    if total > 0 then Popcount(bf) as real / total as real else 0.0
  }

  datatype PeerProgress = PeerProgress(bitfield: seq<byte>, progress: real)

  /** `_write_piece`'s plan: for each file in turn, the seek position and the
      bytes written there.  The source seeks to the file's offset plus the
      piece's offset in the whole torrent, and measures the remaining room
      against the file's length alone. */
  function WritePlan(files: seq<Metainfo.FileEntry>, index: int, pieceLength: int, data: seq<byte>): (plan: seq<(int, seq<byte>)>)
  {
    if files == [] || data == [] then []
    else
      var file := files[0];
      var fileOffset := index * pieceLength;
      if file.length <= fileOffset then WritePlan(files[1..], index, pieceLength, data)
      else
        var n := Min(|data|, file.length - fileOffset);
        [(file.offset + fileOffset, data[..n])] + WritePlan(files[1..], index, pieceLength, data[n..])
  }

  function ConcatWrites(plan: seq<(int, seq<byte>)>): seq<byte>
  {
    if plan == [] then [] else plan[0].1 + ConcatWrites(plan[1..])
  }

  /** The writes never repeat or reorder bytes: together they are a prefix
      of the piece's data. */
  lemma {:induction false} WritePlanPrefix(files: seq<Metainfo.FileEntry>, index: int, pieceLength: int, data: seq<byte>)
    ensures var w := ConcatWrites(WritePlan(files, index, pieceLength, data));
      |w| <= |data| && w == data[..|w|]
  {
    if files != [] && data != [] {
      var fileOffset := index * pieceLength;
      if files[0].length <= fileOffset {
        WritePlanPrefix(files[1..], index, pieceLength, data);
      } else {
        var n := Min(|data|, files[0].length - fileOffset);
        WritePlanPrefix(files[1..], index, pieceLength, data[n..]);
        var rest := ConcatWrites(WritePlan(files[1..], index, pieceLength, data[n..]));
        assert data[..n + |rest|] == data[..n] + data[n..][..|rest|];
      }
    }
  }

  /** For a single-file torrent a piece that fits inside the file is written
      whole, at index * piece_length. */
  lemma WritePlanSingleFile(file: Metainfo.FileEntry, index: nat, pieceLength: nat, data: seq<byte>)
    requires file.offset == 0 && data != []
    requires index * pieceLength + |data| <= file.length
    ensures WritePlan([file], index, pieceLength, data) == [(index * pieceLength, data)]
  {
    assert data[..|data|] == data;
  }

  // ===== The object =====

  class PieceManager {
    const pieceLength: nat
    const totalSize: int
    const hashes: seq<seq<byte>>
    const files: seq<Metainfo.FileEntry>
    const outputFile: string
    /** `hashlib.sha1(...).digest()`. */
    const sha1: seq<byte> -> seq<byte>
    const totalPieces: nat
    var missingPieces: seq<Piece>
    var completedPieces: seq<Piece>
    var peers: map<string, PeerProgress>
    /** The pieces `_initiate_pieces` built, in index order. */
    ghost const allPieces: seq<Piece>
    /** Every block of every piece. */
    ghost const blockSet: set<Block>

    /** The pieces are the ones built at start-up, each in exactly one of
        the two lists, and a piece is marked complete exactly when it is in
        `completed_pieces`. */
    ghost predicate Shape()
      reads this, allPieces
    {
      && |allPieces| == totalPieces == |hashes|
      && (forall i :: 0 <= i < |allPieces| ==>
            && allPieces[i].index == i && allPieces[i].hash == hashes[i]
            && (allPieces[i].isComplete <==> allPieces[i] in completedPieces))
      && (forall p, b :: p in allPieces && b in p.blocks ==> b in blockSet)
      && multiset(missingPieces) + multiset(completedPieces) == multiset(allPieces)
    }

    ghost predicate Valid()
      reads this, allPieces, blockSet
    {
      Shape() && Inv(Abs())
    }

    /** The state the fields amount to. */
    ghost function Abs(): State
      reads this, blockSet
    {
      State(missingPieces, completedPieces, map b | b in blockSet :: BlockState(b.status, b.data))
    }

    lemma Listed(p: Piece)
      requires Shape() && (p in missingPieces || p in completedPieces)
      ensures p in allPieces
      ensures forall b :: b in p.blocks ==> b in blockSet
    {
      assert p in multiset(missingPieces) + multiset(completedPieces);
    }

    /** `PieceManager(torrent)`.  The source divides by the piece length, so
        a piece length of 0 would raise ZeroDivisionError. */
    constructor (torrent: Metainfo.Torrent, sha1: seq<byte> -> seq<byte>)
      requires torrent.pieceLength > 0
      ensures Valid()
      ensures pieceLength == torrent.pieceLength && totalSize == torrent.totalSize
      ensures hashes == torrent.pieces && totalPieces == |torrent.pieces| && this.sha1 == sha1
      ensures files == torrent.files && outputFile == torrent.outputFile
      ensures missingPieces == allPieces && completedPieces == [] && peers == map[]
      ensures forall b :: b in blockSet ==> b.status == Missing && b.data == None
      ensures Shared(allPieces, pieceLength, totalSize)
    {
      pieceLength := torrent.pieceLength;
      totalSize := torrent.totalSize;
      hashes := torrent.pieces;
      files := torrent.files;
      outputFile := torrent.outputFile;
      this.sha1 := sha1;
      var ps := InitiatePieces(torrent.pieces, torrent.pieceLength, torrent.totalSize);
      missingPieces := ps;
      completedPieces := [];
      totalPieces := |torrent.pieces|;
      peers := map[];
      allPieces := ps;
      blockSet := set p, b | p in ps && b in p.blocks :: b;
      new;
      Initial();
    }

    /** The fields as the constructor leaves them satisfy the invariant. */
    lemma Initial()
      requires |allPieces| == totalPieces == |hashes|
      requires forall i :: 0 <= i < |allPieces| ==> allPieces[i].index == i && allPieces[i].hash == hashes[i] && !allPieces[i].isComplete
      requires missingPieces == allPieces && completedPieces == []
      requires blockSet == set p, b | p in allPieces && b in p.blocks :: b
      requires forall p, b :: p in allPieces && b in p.blocks ==> b.status == Missing && b.data == None
      ensures Valid()
      ensures forall b :: b in blockSet ==> b.status == Missing && b.data == None
    {
      InitialInv(allPieces, Abs().blocks);
    }

    /** Pieces indexed by position, none completed, every block MISSING with
        no data: the invariant holds. */
    static lemma InitialInv(ps: seq<Piece>, blocks: map<Block, BlockState>)
      requires forall i :: 0 <= i < |ps| ==> ps[i].index == i
      requires Covers(blocks, ps)
      requires forall b :: b in blocks ==> blocks[b] == BlockState(Missing, None)
      ensures Inv(State(ps, [], blocks))
    {
      assert Distinct(ps) by {
        forall i, j | 0 <= i < j < |ps| ensures ps[i] != ps[j] {
          assert ps[i].index != ps[j].index;
        }
      }
      assert ps + [] == ps;
    }

    /** `_create_blocks(piece_index, piece_length)`. */
    static method CreateBlocks(pieceIndex: int, pieceLength: nat) returns (blocks: seq<Block>)
      ensures Spans(blocks) == BlockPlan(pieceLength)
      ensures forall b :: b in blocks ==> fresh(b) && b.piece == pieceIndex && b.status == Missing && b.data == None
      ensures Distinct(blocks)
    {
      var numBlocks := pieceLength / B;
      if pieceLength % B != 0 {
        numBlocks := numBlocks + 1;
      }
      blocks := [];
      var i := 0;
      while i < numBlocks
        invariant 0 <= i <= numBlocks == NumBlocks(pieceLength) && |blocks| == i
        invariant Spans(blocks) == BlockPlan(pieceLength)[..i]
        invariant forall b :: b in blocks ==> fresh(b) && b.piece == pieceIndex && b.status == Missing && b.data == None
        invariant Distinct(blocks)
      {
        var offset := i * B;
        var blockLength := Min(B, pieceLength - offset);
        var block := new Block(pieceIndex, offset, blockLength);
        blocks := blocks + [block];
        i := i + 1;
      }
    }

    /** `_initiate_pieces`: one piece per digest.  Every piece but the last
        gets the same list of blocks, created once for index total-1; the last
        gets its own blocks for `total_size % piece_length` bytes. */
    static method InitiatePieces(hashes: seq<seq<byte>>, pieceLength: nat, totalSize: int) returns (pieces: seq<Piece>)
      requires pieceLength > 0
      ensures |pieces| == |hashes|
      ensures forall i :: 0 <= i < |pieces| ==> pieces[i].index == i && pieces[i].hash == hashes[i] && fresh(pieces[i]) && !pieces[i].isComplete
      ensures forall p, b :: p in pieces && b in p.blocks ==> b.status == Missing && b.data == None
      ensures Shared(pieces, pieceLength, totalSize)
    {
      var total := |hashes|;
      var stdPieceBlocks := CreateBlocks(total - 1, pieceLength);
      pieces := [];
      var index := 0;
      while index < total
        invariant 0 <= index <= total && |pieces| == index
        invariant forall i :: 0 <= i < index ==> pieces[i].index == i && pieces[i].hash == hashes[i] && fresh(pieces[i]) && !pieces[i].isComplete
        invariant forall b :: b in stdPieceBlocks ==> fresh(b) && b.status == Missing && b.data == None && b.piece == total - 1
        invariant forall i, b :: 0 <= i < index && b in pieces[i].blocks ==> fresh(b) && b.status == Missing && b.data == None && b.piece == total - 1
        invariant forall i :: 0 <= i < index && i < total - 1 ==> pieces[i].blocks == stdPieceBlocks
        invariant index == total && total > 0 ==>
          Spans(pieces[total - 1].blocks) == BlockPlan(totalSize % pieceLength)
          && (forall b :: b in pieces[total - 1].blocks ==> b !in stdPieceBlocks)
          && Distinct(pieces[total - 1].blocks)
      {
        var blocks;
        if index < total - 1 {
          blocks := stdPieceBlocks;
        } else {
          var lastPieceLength := totalSize % pieceLength;
          blocks := CreateBlocks(index, lastPieceLength);
        }
        var piece := new Piece(index, blocks, hashes[index]);
        pieces := pieces + [piece];
        index := index + 1;
      }
      forall p, b | p in pieces && b in p.blocks ensures b.status == Missing && b.data == None {
        var i :| 0 <= i < |pieces| && pieces[i] == p;
      }
    }

    /** `block_received(piece_index, block_offset, data)`. */
    method BlockReceived(pieceIndex: int, blockOffset: int, data: seq<byte>)
      requires Valid()
      modifies this`missingPieces, this`completedPieces, blockSet, allPieces
      ensures Valid()
      ensures Covers(old(Abs()).blocks, old(Abs()).missing)
      ensures Abs() == Receive(old(Abs()), sha1, pieceIndex, blockOffset, data)
      ensures peers == old(peers)
    {
      ghost var s0 := Abs();
      CoversMissing(s0);
      var k := 0;
      while k < |missingPieces| && missingPieces[k].index != pieceIndex
        invariant 0 <= k <= |missingPieces|
        invariant forall i :: 0 <= i < k ==> missingPieces[i].index != pieceIndex
      {
        k := k + 1;
      }
      assert k == FindPiece(missingPieces, pieceIndex);
      if k == |missingPieces| {
        return;
      }
      var piece := missingPieces[k];
      var j := 0;
      while j < |piece.blocks| && piece.blocks[j].offset != blockOffset
        invariant 0 <= j <= |piece.blocks|
        invariant forall i :: 0 <= i < j ==> piece.blocks[i].offset != blockOffset
      {
        j := j + 1;
      }
      assert j == FindBlock(piece.blocks, blockOffset);
      if j == |piece.blocks| {
        return;
      }
      var block := piece.blocks[j];
      Listed(piece);
      StoreData(block, data);
      StoreKeepsInv(s0, block, BlockState(Retrieved, Some(data)));
      CheckPieceCompletion(piece);
    }

    /** `block.status = status`. */
    method SetStatus(block: Block, status: Status)
      requires block in blockSet
      modifies block
      ensures block.data == old(block.data)
      ensures Abs() == old(Abs()).(blocks := old(Abs()).blocks[block := BlockState(status, old(block.data))])
    {
      block.status := status;
    }

    /** `block.status = Block.RETRIEVED; block.data = data`. */
    method StoreData(block: Block, data: seq<byte>)
      requires block in blockSet
      modifies block
      ensures Abs() == old(Abs()).(blocks := old(Abs()).blocks[block := BlockState(Retrieved, Some(data))])
    {
      block.status := Retrieved;
      block.data := Some(data);
    }

    /** `_check_piece_completion(piece)`. */
    method CheckPieceCompletion(piece: Piece)
      requires Valid() && piece in missingPieces
      modifies this`missingPieces, this`completedPieces, blockSet, allPieces
      ensures Valid()
      ensures Covers(old(Abs()).blocks, old(Abs()).missing)
      ensures Abs() == CheckCompletion(old(Abs()), piece, sha1)
      ensures peers == old(peers)
    {
      CoversMissing(Abs());
      Listed(piece);
      StatusesAre(piece.blocks);
      if AllBlocksRetrieved(piece.blocks) {
        var valid := ValidatePiece(piece);
        if valid {
          MarkComplete(piece);
        } else {
          RejectPiece(piece);
        }
      }
    }

    /** The success branch of `_check_piece_completion`. */
    method MarkComplete(piece: Piece)
      requires Valid() && piece in missingPieces && Covers(Abs().blocks, missingPieces)
      requires AllRetrieved(Abs().blocks, piece.blocks) && Validates(Abs().blocks, piece, sha1)
      modifies this`missingPieces, this`completedPieces, piece`isComplete
      ensures Valid()
      ensures Abs() == CheckCompletion(old(Abs()), piece, sha1)
    {
      CheckCompletionKeepsInv(Abs(), piece, sha1);
      Listed(piece);
      missingPieces := RemoveFirst(missingPieces, piece);
      completedPieces := completedPieces + [piece];
      piece.isComplete := true;
      forall i | 0 <= i < |allPieces| ensures allPieces[i].isComplete <==> allPieces[i] in completedPieces {
        if allPieces[i] != piece {
          assert allPieces[i] in completedPieces <==> allPieces[i] in old(completedPieces);
        }
      }
    }

    /** The failure branch of `_check_piece_completion`. */
    method RejectPiece(piece: Piece)
      requires Valid() && piece in missingPieces && Covers(Abs().blocks, missingPieces)
      requires AllRetrieved(Abs().blocks, piece.blocks) && !Validates(Abs().blocks, piece, sha1)
      requires forall b :: b in piece.blocks ==> b in blockSet
      modifies blockSet
      ensures Valid()
      ensures Abs() == CheckCompletion(old(Abs()), piece, sha1)
    {
      CheckCompletionKeepsInv(Abs(), piece, sha1);
      ResetBlocks(piece.blocks);
    }

    /** The reset loop of `_check_piece_completion`. */
    method ResetBlocks(bs: seq<Block>)
      requires forall b :: b in bs ==> b in blockSet
      modifies blockSet
      ensures Abs() == old(Abs()).(blocks := Reset(old(Abs()).blocks, bs))
    {
      var i := 0;
      while i < |bs|
        invariant 0 <= i <= |bs|
        invariant forall b :: b in blockSet && b in bs[..i] ==> b.status == Missing && b.data == None
        invariant forall b :: b in blockSet && b !in bs[..i] ==> b.status == old(b.status) && b.data == old(b.data)
      {
        var block := bs[i];
        block.status := Missing;
        block.data := None;
        assert bs[..i + 1] == bs[..i] + [block];
        i := i + 1;
      }
      assert bs[..i] == bs;
    }

    /** `all(block.status == Block.RETRIEVED for block in piece.blocks)`. */
    predicate AllBlocksRetrieved(bs: seq<Block>)
      reads bs
    {
      forall b :: b in bs ==> b.status == Retrieved
    }

    /** The block states of the abstract state are the blocks' fields. */
    lemma StatusesAre(bs: seq<Block>)
      requires forall b :: b in bs ==> b in blockSet
      ensures forall b :: b in bs ==> b in Abs().blocks && Abs().blocks[b] == BlockState(b.status, b.data)
      ensures AllBlocksRetrieved(bs) <==> AllRetrieved(Abs().blocks, bs)
      ensures JoinedData(bs) == PieceData(Abs().blocks, bs)
    {
      JoinedDataIs(bs);
    }

    /** `_validate_piece(piece)`. */
    predicate ValidatePiece(piece: Piece)
      requires forall b :: b in piece.blocks ==> b in blockSet
      reads this, blockSet
      ensures forall b :: b in piece.blocks ==> b in Abs().blocks
      ensures ValidatePiece(piece) <==> Validates(Abs().blocks, piece, sha1)
    {
      JoinedDataIs(piece.blocks);
      sha1(JoinedData(piece.blocks)) == piece.hash
    }

    function JoinedData(bs: seq<Block>): seq<byte>
      reads bs
    {
      if bs == [] then [] else bs[0].data.GetOr([]) + JoinedData(bs[1..])
    }

    lemma {:induction false} JoinedDataIs(bs: seq<Block>)
      requires forall b :: b in bs ==> b in blockSet
      ensures forall b :: b in bs ==> b in Abs().blocks
      ensures JoinedData(bs) == PieceData(Abs().blocks, bs)
    {
      if bs != [] {
        JoinedDataIs(bs[1..]);
      }
    }

    /** `next_request(peer_bitfield)`: the scan of `FindRequest` picks the
        block, which is then flipped to PENDING. */
    method NextRequestFor(peerBitfield: seq<int>) returns (r: Result<Option<Block>>)
      requires Valid()
      modifies blockSet
      ensures Valid()
      ensures Covers(old(Abs()).blocks, old(Abs()).missing)
      ensures var (pick, s') := NextRequest(old(Abs()), peerBitfield);
        && Abs() == s'
        && r == match pick
                case NoBlock => Ok(None)
                case Picked(b) => Ok(Some(b))
                case BitfieldTooShort => Raise(IndexError)
    {
      ghost var s0 := Abs();
      CoversMissing(s0);
      NextRequestEffect(s0, peerBitfield);
      if |peerBitfield| == 0 {
        return Ok(None);
      }
      var pick := FindRequest(peerBitfield);
      match pick
      case NoBlock =>
        return Ok(None);
      case BitfieldTooShort =>
        return Raise(IndexError);
      case Picked(block) =>
        SetStatus(block, Pending);
        return Ok(Some(block));
    }

    /** The two loops of `next_request`: the first MISSING block of the first
        piece of `missing_pieces` that the bitfield marks and that has one. */
    method FindRequest(peerBitfield: seq<int>) returns (pick: Pick)
      requires Valid()
      ensures Covers(Abs().blocks, missingPieces)
      ensures pick == Scan(missingPieces, Abs().blocks, peerBitfield)
    {
      ghost var s0 := Abs();
      CoversMissing(s0);
      var i := 0;
      while i < |missingPieces|
        invariant 0 <= i <= |missingPieces|
        invariant Covers(s0.blocks, missingPieces[i..])
        invariant Scan(missingPieces, s0.blocks, peerBitfield) == Scan(missingPieces[i..], s0.blocks, peerBitfield)
      {
        var piece := missingPieces[i];
        assert missingPieces[i..] == [piece] + missingPieces[i + 1..];
        assert piece in missingPieces[i..];
        Listed(piece);
        if piece.index >= |peerBitfield| {
          return BitfieldTooShort;
        }
        if peerBitfield[piece.index] != 0 {
          var j := FirstMissingBlock(piece.blocks);
          if j < |piece.blocks| {
            return Picked(piece.blocks[j]);
          }
        }
        i := i + 1;
      }
      return NoBlock;
    }

    /** The inner loop of `next_request`: the position of the first MISSING
        block, or |bs|. */
    method FirstMissingBlock(bs: seq<Block>) returns (j: nat)
      requires forall b :: b in bs ==> b in blockSet
      ensures forall b :: b in bs ==> b in Abs().blocks
      ensures j == FirstMissing(Abs().blocks, bs)
    {
      StatusesAre(bs);
      j := 0;
      while j < |bs|
        invariant 0 <= j <= |bs|
        invariant forall h :: 0 <= h < j ==> bs[h].status != Missing
      {
        if bs[j].status == Missing {
          assert j == FirstMissing(Abs().blocks, bs);
          return;
        }
        j := j + 1;
      }
      assert j == FirstMissing(Abs().blocks, bs);
    }

    /** `get_peer_progress(peer_id)`. */
    function GetPeerProgress(peerId: string): (r: real)
      reads this
      ensures peerId !in peers ==> r == 0.0
      ensures peerId in peers ==> r == peers[peerId].progress
    {
      if peerId !in peers then 0.0 else peers[peerId].progress
    }

    /** `update_peer_progress(peer_id, bitfield)`. */
    method UpdatePeerProgress(peerId: string, bitfield: seq<byte>)
      modifies this`peers
      ensures peers == old(peers)[peerId := PeerProgress(bitfield, ProgressOf(bitfield))]
    {
      var totalPieces := |bitfield| * 8;
      var completed := Popcount(bitfield);
      var progress := if totalPieces > 0 then completed as real / totalPieces as real else 0.0;
      peers := peers[peerId := PeerProgress(bitfield, progress)];
    }

    function CountComplete(ps: seq<Piece>): (n: nat)
      reads ps
      ensures n <= |ps|
    {
      if ps == [] then 0 else (if ps[0].isComplete then 1 else 0) + CountComplete(ps[1..])
    }

    lemma {:induction false} CountCompleteAll(ps: seq<Piece>)
      requires forall p :: p in ps ==> p.isComplete
      ensures CountComplete(ps) == |ps|
    {
      if ps != [] {
        CountCompleteAll(ps[1..]);
      }
    }

    lemma CompletedAreComplete()
      requires Shape()
      ensures forall p :: p in completedPieces ==> p.isComplete
      ensures |completedPieces| <= totalPieces
    {
      forall p | p in completedPieces ensures p.isComplete {
        Listed(p);
      }
      assert |multiset(completedPieces)| <= |multiset(allPieces)|;
    }

    /** `get_completion()`: completed pieces over all pieces, 0 when there
        are no pieces. */
    function GetCompletion(): (r: real)
      requires Valid()
      reads this, allPieces, blockSet, completedPieces
      ensures r == if totalPieces > 0 then |completedPieces| as real / totalPieces as real else 0.0
      ensures 0.0 <= r <= 1.0
    {
      CompletedAreComplete();
      CountCompleteAll(completedPieces);
      var downloaded := CountComplete(completedPieces);
      if totalPieces > 0 then downloaded as real / totalPieces as real else 0.0
    }
  }

  /** The shape `_initiate_pieces` gives: all pieces but the last hold one
      shared list of blocks laid out for `piece_length`; the last piece holds
      its own blocks laid out for `total_size % piece_length` (none when that
      is 0); every block is tagged with the last piece's index. */
  ghost predicate Shared(pieces: seq<Piece>, pieceLength: nat, totalSize: int)
    requires pieceLength > 0
    reads pieces
  {
    var n := |pieces|;
    && (forall i :: 0 <= i < n - 1 ==> pieces[i].blocks == pieces[0].blocks)
    && (n > 1 ==> Spans(pieces[0].blocks) == BlockPlan(pieceLength) && Distinct(pieces[0].blocks))
    && (n > 0 ==> Spans(pieces[n - 1].blocks) == BlockPlan(totalSize % pieceLength) && Distinct(pieces[n - 1].blocks))
    && (forall p, b :: p in pieces && b in p.blocks ==> b.piece == n - 1)
    && (n > 1 ==> forall b :: b in pieces[n - 1].blocks ==> b !in pieces[0].blocks)
  }

  /** When `total_size` is a multiple of `piece_length` the last piece is
      built with no blocks at all, so it is never requested and, since
      `all([])` holds, only a block for it could complete it, and there is
      none. */
  lemma LastPieceMayBeEmpty(pieces: seq<Piece>, pieceLength: nat, totalSize: int)
    requires pieceLength > 0 && Shared(pieces, pieceLength, totalSize)
    requires |pieces| > 0 && totalSize % pieceLength == 0
    ensures pieces[|pieces| - 1].blocks == []
  {
    assert |Spans(pieces[|pieces| - 1].blocks)| == |BlockPlan(0)|;
  }
}
