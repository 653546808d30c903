/** What both tracker clients (src/core/tracker.py and src/tracker.py) share:
    the compact peer list of BEP 23, six bytes per peer (an IPv4 address,
    then a big-endian port), and the connect request of the UDP tracker
    protocol of BEP 15. */
module TrackerWire {
  import opened Wrappers
  import opened Bytes

  /** An `(ip, port)` pair as the trackers return it. */
  type PeerAddr = (string, int)

  /** What a bencoded tracker response holds under `peers`: a list of
      dictionaries (their `ip` bytes and `port`) or a compact string. */
  datatype PeersValue = PeerDicts(entries: seq<(seq<byte>, int)>) | PeerBytes(data: seq<byte>)

  /** The HTTP status and the body of a tracker's response. */
  datatype Response = Response(status: int, body: seq<byte>)

  /** A query parameter's value: bytes, a string or a number. */
  datatype Value = Raw(b: seq<byte>) | Text(s: string) | Number(n: int)

  /** A query: the parameters' names and values.  The order of the
      dictionary is left to the URL encoder. */
  type Params = map<string, Value>

  // ===== Dotted-quad addresses =====

  /** Four bytes in decimal, joined by dots: what `socket.inet_ntoa` returns for
      four bytes, and what `'.'.join(str(b) for b in ...)` builds. */
  function DottedQuad(b: seq<byte>): string
    requires |b| == 4
  {
    Decimal(b[0]) + "." + Decimal(b[1]) + "." + Decimal(b[2]) + "." + Decimal(b[3])
  }

  /** `s.split(sep)`. */
  function Split(s: string, sep: char): (parts: seq<string>)
    ensures |parts| >= 1
  {
    if s == [] then [""]
    else if s[0] == sep then [""] + Split(s[1..], sep)
    else
      var t := Split(s[1..], sep);
      [[s[0]] + t[0]] + t[1..]
  }

  /** A string with no separator in it is a single part. */
  lemma {:induction false} SplitNone(s: string, sep: char)
    requires forall i :: 0 <= i < |s| ==> s[i] != sep
    ensures Split(s, sep) == [s]
  {
    if s != [] {
      SplitNone(s[1..], sep);
      assert [s[0]] + s[1..] == s;
    }
  }

  /** A part without separators, a separator, then the rest. */
  lemma {:induction false} SplitAt(a: string, sep: char, b: string)
    requires forall i :: 0 <= i < |a| ==> a[i] != sep
    ensures Split(a + [sep] + b, sep) == [a] + Split(b, sep)
  {
    if a == [] {
      assert a + [sep] + b == [sep] + b;
      assert ([sep] + b)[1..] == b;
    } else {
      var s := a + [sep] + b;
      assert s[0] == a[0] && s[1..] == a[1..] + [sep] + b;
      SplitAt(a[1..], sep, b);
      assert [a[0]] + a[1..] == a;
    }
  }

  /** The inverse of `DottedQuad`: split at the dots, read each part in decimal. */
  function ParseQuad(ip: string): seq<int>
  {
    var parts := Split(ip, '.');
    seq(|parts|, i requires 0 <= i < |parts| => DecimalValue(parts[i]))
  }

  predicate NoDot(s: string)
  {
    forall i :: 0 <= i < |s| ==> s[i] != '.'
  }

  /** Four dot-free parts joined by dots split back into those parts. */
  lemma SplitQuad(d0: string, d1: string, d2: string, d3: string)
    requires NoDot(d0) && NoDot(d1) && NoDot(d2) && NoDot(d3)
    ensures Split(d0 + "." + d1 + "." + d2 + "." + d3, '.') == [d0, d1, d2, d3]
  {
    var t2 := d2 + ['.'] + d3;
    var t1 := d1 + ['.'] + t2;
    assert d0 + "." + d1 + "." + d2 + "." + d3 == d0 + ['.'] + t1;
    SplitAt(d0, '.', t1);
    SplitAt(d1, '.', t2);
    SplitAt(d2, '.', d3);
    SplitNone(d3, '.');
  }

  /** A dotted quad reads back as the four bytes it was made of. */
  lemma QuadRoundTrip(b: seq<byte>)
    requires |b| == 4
    ensures ParseQuad(DottedQuad(b)) == b
  {
    SplitQuad(Decimal(b[0]), Decimal(b[1]), Decimal(b[2]), Decimal(b[3]));
    DecimalRoundTrip(b[0]);
    DecimalRoundTrip(b[1]);
    DecimalRoundTrip(b[2]);
    DecimalRoundTrip(b[3]);
  }

  /** Different addresses are rendered differently. */
  lemma QuadInjective(a: seq<byte>, b: seq<byte>)
    requires |a| == 4 && |b| == 4 && DottedQuad(a) == DottedQuad(b)
    ensures a == b
  {
    QuadRoundTrip(a);
    QuadRoundTrip(b);
  }

  // ===== Compact peer lists =====

  /** The peer in the six bytes at offset i. */
  function RecordAt(data: seq<byte>, i: nat): (p: PeerAddr)
    requires i + 6 <= |data|
  {
    (DottedQuad(data[i..i + 4]), ReadU16(data[i + 4..i + 6]))
  }

  /** The peers of every complete six-byte record, in order. */
  function Records(data: seq<byte>): (r: seq<PeerAddr>)
    ensures |r| == |data| / 6
  {
    seq(|data| / 6, k requires 0 <= k < |data| / 6 => RecordAt(data, 6 * k))
  }

  /** k whole records and r more bytes: the division by six. */
  lemma RecordSplit(k: nat, r: nat)
    ensures r < 6 ==> (6 * k + r) % 6 == r && (6 * k + r) / 6 == k
    ensures (6 * k + r) / 6 >= k
  {
  }

  /** How a tracker packs one peer: its address bytes, then its port. */
  function Entry(ip: seq<byte>, port: u16): seq<byte>
    requires |ip| == 4
  {
    ip + U16(port)
  }

  /** A compact peer list as a tracker sends it. */
  function Compact(peers: seq<(seq<byte>, u16)>): (data: seq<byte>)
    requires forall k :: 0 <= k < |peers| ==> |peers[k].0| == 4
    ensures |data| == 6 * |peers|
  {
    if peers == [] then [] else Entry(peers[0].0, peers[0].1) + Compact(peers[1..])
  }

  /** One more record in front gives one more peer in front. */
  lemma RecordsCons(e: seq<byte>, data: seq<byte>)
    requires |e| == 6
    ensures Records(e + data) == [RecordAt(e, 0)] + Records(data)
  {
    var s := e + data;
    assert |s| / 6 == 1 + |data| / 6;
    forall k | 1 <= k < |s| / 6 ensures RecordAt(s, 6 * k) == RecordAt(data, 6 * (k - 1)) {
      assert s[6 * k..6 * k + 4] == data[6 * (k - 1)..6 * (k - 1) + 4];
      assert s[6 * k + 4..6 * k + 6] == data[6 * (k - 1) + 4..6 * (k - 1) + 6];
    }
    assert s[..4] == e[..4] && s[4..6] == e[4..6];
  }

  /** Reading a compact list gives back every peer that was packed, as the
      address in dotted-quad form and the port. */
  lemma {:induction false} RecordsCompact(peers: seq<(seq<byte>, u16)>)
    requires forall k :: 0 <= k < |peers| ==> |peers[k].0| == 4
    ensures var r := Records(Compact(peers));
      |r| == |peers| && forall k :: 0 <= k < |peers| ==> r[k] == (DottedQuad(peers[k].0), peers[k].1 as int)
  {
    if peers != [] {
      var e := Entry(peers[0].0, peers[0].1);
      RecordsCons(e, Compact(peers[1..]));
      RecordsCompact(peers[1..]);
      assert e[..4] == peers[0].0 && e[4..6] == U16(peers[0].1);
      assert ReadU16(U16(peers[0].1)) == peers[0].1 by {
        var x := ReadU16(U16(peers[0].1));
        assert U16(x) == U16(peers[0].1);
      }
    }
  }

  /** The complete records of a prefix of whole records are the first
      peers of the whole list. */
  lemma RecordsPrefix(data: seq<byte>, k: nat)
    requires 6 * k <= |data|
    ensures Records(data[..6 * k]) == Records(data)[..k]
  {
    var p := data[..6 * k];
    forall j | 0 <= j < k ensures RecordAt(p, 6 * j) == RecordAt(data, 6 * j) {
      assert p[6 * j..6 * j + 4] == data[6 * j..6 * j + 4];
      assert p[6 * j + 4..6 * j + 6] == data[6 * j + 4..6 * j + 6];
    }
  }

  // ===== The UDP connect request =====

  /** The `protocol_id` magic constant of BEP 15. */
  const PROTOCOL_ID: u64 := 0x41727101980

  /** `struct.pack('!QII', 0x41727101980, 0, transaction_id)`. */
  function ConnectRequest(transactionId: u32): (m: seq<byte>)
    ensures |m| == 16
    ensures FromBigEndian(m[..8]) == PROTOCOL_ID && FromBigEndian(m[8..12]) == 0
      && FromBigEndian(m[12..]) == transactionId
  {
    var m := U64(PROTOCOL_ID) + U32(0) + U32(transactionId);
    assert m[..8] == U64(PROTOCOL_ID) && m[8..12] == U32(0) && m[12..] == U32(transactionId);
    m
  }

  // ===== The UDP announce request =====

  /** A `20s` field of `struct.pack`: the first 20 bytes, padded with zero
      bytes when there are fewer. */
  function Fixed20(s: seq<byte>): (r: seq<byte>)
    ensures |r| == 20
    ensures |s| >= 20 ==> r == s[..20]
    ensures |s| < 20 ==> r[..|s|] == s && r[|s|..] == Zeros(20 - |s|)
  {
    if |s| >= 20 then s[..20] else s + Zeros(20 - |s|)
  }

  /** The four parts of a concatenation can be cut out of it again. */
  lemma Parts(a: seq<byte>, b: seq<byte>, c: seq<byte>, d: seq<byte>)
    ensures var m := a + b + c + d;
      && m[..|a|] == a && m[|a|..|a| + |b|] == b
      && m[|a| + |b|..|a| + |b| + |c|] == c && m[|a| + |b| + |c|..] == d
  {
    var m := a + b + c + d;
    assert m[..|a| + |b|] == a + b;
    assert m[..|a| + |b| + |c|] == a + b + c;
  }

  /** The first 16 bytes of an announce request: connection id, action 1
      (announce), transaction id. */
  function AnnounceHead(connectionId: u64, transactionId: u32): (m: seq<byte>)
    ensures |m| == 16 && FromBigEndian(m[..8]) == connectionId
    ensures FromBigEndian(m[8..12]) == 1 && FromBigEndian(m[12..]) == transactionId
  {
    var m := U64(connectionId) + U32(1) + U32(transactionId);
    assert m[..8] == U64(connectionId) && m[8..12] == U32(1) && m[12..] == U32(transactionId);
    m
  }

  /** The info hash and the peer id as two `20s` fields. */
  function AnnounceIds(infoHash: seq<byte>, peerId: seq<byte>): (m: seq<byte>)
    ensures |m| == 40 && m[..20] == Fixed20(infoHash) && m[20..] == Fixed20(peerId)
  {
    Fixed20(infoHash) + Fixed20(peerId)
  }

  /** Downloaded 0, left, uploaded 0. */
  function AnnounceCounts(left: u64): (m: seq<byte>)
    ensures |m| == 24 && FromBigEndian(m[..8]) == 0 && FromBigEndian(m[8..16]) == left && FromBigEndian(m[16..]) == 0
  {
    var m := U64(0) + U64(left) + U64(0);
    assert m[..8] == U64(0) && m[8..16] == U64(left) && m[16..] == U64(0);
    m
  }

  /** Event 0 (none), IP 0 (the sender's), the key, num_want as a signed
      32-bit field (two's complement), and the port. */
  function AnnounceTail(key: u32, numWant: i32, port: u16): (m: seq<byte>)
    ensures |m| == 18 && FromBigEndian(m[..4]) == 0 && FromBigEndian(m[4..8]) == 0 && FromBigEndian(m[8..12]) == key
    ensures FromBigEndian(m[12..16]) == (if numWant < 0 then numWant + 0x1_0000_0000 else numWant)
    ensures FromBigEndian(m[16..]) == port
  {
    var last := I32(numWant) + U16(port);
    var m := U32(0) + U32(0) + U32(key) + last;
    Parts(U32(0), U32(0), U32(key), last);
    assert last[..4] == I32(numWant) && last[4..] == U16(port);
    assert m[12..16] == last[..4] && m[16..] == last[4..];
    m
  }

  /** The varying fields of the announce request fit `Q`, `I`, `i` and `H`. */
  predicate PackableAnnounce(left: int, key: int, numWant: int, port: int)
  {
    && 0 <= left < 0x1_0000_0000_0000_0000 && 0 <= key < 0x1_0000_0000
    && -0x8000_0000 <= numWant < 0x8000_0000 && 0 <= port < 0x1_0000
  }

  /** `struct.pack('!QII20s20sQQQIIIiH', connection_id, 1, transaction_id,
      info_hash, peer_id, 0, left, 0, 0, 0, key, num_want, port)`: struct.error
      when left, the key, num_want or the port does not fit its field;
      otherwise the 98 bytes of the announce request of BEP 15. */
  function PackAnnounce(connectionId: u64, transactionId: u32, infoHash: seq<byte>, peerId: seq<byte>,
                        left: int, key: int, numWant: int, port: int): (r: Result<seq<byte>>)
    ensures r.Ok? <==> PackableAnnounce(left, key, numWant, port)
    ensures r.Raise? ==> r.exc == StructError
    ensures r.Ok? ==>
      var m := r.value;
      && |m| == 98 && m[..16] == AnnounceHead(connectionId, transactionId) && m[16..56] == AnnounceIds(infoHash, peerId)
      && m[56..80] == AnnounceCounts(left) && m[80..] == AnnounceTail(key, numWant, port)
  {
    if !PackableAnnounce(left, key, numWant, port) then Raise(StructError)
    else
      var head, ids, counts, tail := AnnounceHead(connectionId, transactionId), AnnounceIds(infoHash, peerId),
        AnnounceCounts(left), AnnounceTail(key, numWant, port);
      Parts(head, ids, counts, tail);
      Ok(head + ids + counts + tail)
  }
}
