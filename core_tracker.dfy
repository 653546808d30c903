/** The `Tracker` of src/core/tracker.py: it asks an HTTP tracker (BEP 3,
    compact peer lists of BEP 23) or a UDP tracker (BEP 15) for peers.

    The network is a parameter (`Network`): what `urlencode` makes of the
    query, what the HTTP GET returns, what bencode decoding finds under the
    `peers` key, and the two datagrams a UDP tracker answers with.  Every
    flow is then a function of those.  The loop that reads a compact peer
    list is the method `ParseCompact`; its contract is `StrictRecords`, which
    the flows use. */
module CoreTracker {
  import opened Wrappers
  import opened Bytes
  import opened TrackerWire

  // ===== The tracker and its peer id =====

  /** The fields of the torrent the tracker reads, and its peer id. */
  datatype Tracker = Tracker(announce: string, infoHash: seq<byte>, totalSize: int, peerId: string)

  const PEER_ID_PREFIX: string := "-PC0001-"
  const PORT: u16 := 6881
  /** The fixed transaction id of the UDP connect request. */
  const TRANSACTION_ID: u32 := 12345

  predicate IsDigits(s: string)
  {
    forall i :: 0 <= i < |s| ==> '0' <= s[i] <= '9'
  }

  predicate IsAsciiText(s: string)
  {
    forall i :: 0 <= i < |s| ==> s[i] as int < 0x80
  }

  /** `_generate_peer_id()`: the client prefix, then the twelve random
      decimal digits `digits`.  The id is 20 ASCII characters, and the
      digits can be read back from it. */
  function GeneratePeerId(digits: string): (id: string)
    requires |digits| == 12 && IsDigits(digits)
    ensures |id| == 20 && IsAsciiText(id)
    ensures StartsWith(id, PEER_ID_PREFIX) && id[8..] == digits
  {
    PEER_ID_PREFIX + digits
  }

  // ===== The compact peer list =====

  /** What the loop over a compact peer list returns: every peer when the
      length is a multiple of six; for a trailing partial record,
      `inet_ntoa`'s OSError when it has fewer than four bytes and
      struct.error when its port has fewer than two. */
  function StrictRecords(data: seq<byte>): Result<seq<PeerAddr>>
  {
    if |data| % 6 == 0 then Ok(Records(data))
    else if |data| % 6 < 4 then Raise(OSError)
    else Raise(StructError)
  }

  /** The loop of `_decode_http_response` and `_get_peers_from_udp_tracker`
      over a compact peer list. */
  method ParseCompact(peers: seq<byte>) returns (r: Result<seq<PeerAddr>>)
    ensures r == StrictRecords(peers)
  {
    var list: seq<PeerAddr> := [];
    var i := 0;
    ghost var k := 0;
    while i < |peers|
      invariant i == 6 * k && i <= |peers|
      invariant list == Records(peers)[..k]
      decreases |peers| - i
    {
      var ip := Slice(peers, i, i + 4);
      if |ip| != 4 {
        RecordSplit(k, |peers| - i);
        return Raise(OSError);
      }
      var port := Slice(peers, i + 4, i + 6);
      if |port| != 2 {
        RecordSplit(k, |peers| - i);
        return Raise(StructError);
      }
      RecordSplit(k + 1, |peers| - i - 6);
      assert Records(peers)[..k + 1] == Records(peers)[..k] + [RecordAt(peers, i)];
      list := list + [(DottedQuad(ip), ReadU16(port) as int)];
      i, k := i + 6, k + 1;
    }
    RecordSplit(k, 0);
    assert Records(peers)[..k] == Records(peers);
    return Ok(list);
  }

  // ===== The HTTP tracker =====

  /** The query of `_get_peers_from_http_tracker`: nothing uploaded or
      downloaded yet, everything left, port 6881, compact answer wanted. */
  function HttpParams(t: Tracker): (ps: Params)
    ensures ps.Keys == {"info_hash", "peer_id", "uploaded", "downloaded", "port", "left", "compact"}
    ensures ps["info_hash"] == Raw(t.infoHash) && ps["peer_id"] == Text(t.peerId)
    ensures ps["uploaded"] == Number(0) && ps["downloaded"] == Number(0)
    ensures ps["left"] == Number(t.totalSize) && ps["port"] == Number(PORT as int) && ps["compact"] == Number(1)
  {
    map["info_hash" := Raw(t.infoHash), "peer_id" := Text(t.peerId), "uploaded" := Number(0),
        "downloaded" := Number(0), "port" := Number(PORT as int), "left" := Number(t.totalSize), "compact" := Number(1)]
  }

  /** The query of `announce`: the stats given, and an `event` parameter
      exactly when the event is not empty. */
  function AnnounceParams(t: Tracker, uploaded: int, downloaded: int, left: int, event: string): (ps: Params)
    ensures ("event" in ps) <==> event != ""
    ensures "event" in ps ==> ps["event"] == Text(event)
    ensures ps.Keys - {"event"} == {"info_hash", "peer_id", "uploaded", "downloaded", "left", "port", "compact"}
    ensures ps["info_hash"] == Raw(t.infoHash) && ps["peer_id"] == Text(t.peerId)
    ensures ps["uploaded"] == Number(uploaded) && ps["downloaded"] == Number(downloaded)
    ensures ps["left"] == Number(left) && ps["port"] == Number(PORT as int) && ps["compact"] == Number(1)
  {
    var ps := map["info_hash" := Raw(t.infoHash), "peer_id" := Text(t.peerId), "uploaded" := Number(uploaded),
                  "downloaded" := Number(downloaded), "left" := Number(left), "port" := Number(PORT as int), "compact" := Number(1)];
    if event != "" then ps["event" := Text(event)] else ps
  }

  /** What lies outside the modelled code: `urllib.parse.urlencode`, the
      HTTP GET, bencode decoding of a body (None when it has no `peers`
      key), `bytes.decode()`, and the datagrams a UDP tracker answers with. */
  datatype Network = Network(
    urlencode: Params -> string,
    fetch: string -> Result<Response>,
    bdecode: seq<byte> -> Result<Option<PeersValue>>,
    utf8: seq<byte> -> string,
    connectReply: seq<byte>,
    announceReply: seq<byte>)

  /** `_decode_http_response` once the body is decoded: ConnectionError
      without a `peers` key; a list of dictionaries gives its addresses and
      ports in order; a string is read as a compact peer list. */
  function DecodeHttpResponse(peers: Option<PeersValue>, utf8: seq<byte> -> string): (r: Result<seq<PeerAddr>>)
    ensures peers.None? ==> r == Raise(ConnectionError("Invalid tracker response - no peers"))
    ensures peers.Some? && peers.value.PeerDicts? ==>
      var es := peers.value.entries;
      r.Ok? && |r.value| == |es| && forall k :: 0 <= k < |es| ==> r.value[k] == (utf8(es[k].0), es[k].1)
    ensures peers.Some? && peers.value.PeerBytes? ==> (r.Ok? <==> |peers.value.data| % 6 == 0)
  {
    match peers
    case None => Raise(ConnectionError("Invalid tracker response - no peers"))
    case Some(PeerDicts(es)) => Ok(seq(|es|, k requires 0 <= k < |es| => (utf8(es[k].0), es[k].1)))
    case Some(PeerBytes(data)) => StrictRecords(data)
  }

  /** Fetching `url` and decoding the body of a 200 response; any other
      status raises ConnectionError with `failure` and the status. */
  function Fetched(url: string, failure: string, net: Network): (r: Result<seq<PeerAddr>>)
    ensures net.fetch(url).Ok? && net.fetch(url).value.status != 200 ==>
      r == Raise(ConnectionError(failure + IntToString(net.fetch(url).value.status)))
    ensures net.fetch(url).Raise? ==> r == Raise(net.fetch(url).exc)
  {
    match net.fetch(url)
    case Raise(e) => Raise(e)
    case Ok(response) =>
      if response.status != 200 then Raise(ConnectionError(failure + IntToString(response.status)))
      else
        match net.bdecode(response.body)
        case Raise(e) => Raise(e)
        case Ok(peers) => DecodeHttpResponse(peers, net.utf8)
  }

  /** `_get_peers_from_http_tracker`: the URL asked and the outcome. */
  function HttpGetPeers(t: Tracker, net: Network): (res: (string, Result<seq<PeerAddr>>))
    ensures res.0 == t.announce + "?" + net.urlencode(HttpParams(t))
    ensures res.1 == Fetched(res.0, "HTTP tracker response: ", net)
  {
    var url := t.announce + "?" + net.urlencode(HttpParams(t));
    (url, Fetched(url, "HTTP tracker response: ", net))
  }

  /** `announce(uploaded, downloaded, left, event)`: the URL asked and the
      outcome. */
  function Announce(t: Tracker, uploaded: int, downloaded: int, left: int, event: string, net: Network): (res: (string, Result<seq<PeerAddr>>))
    ensures res.0 == t.announce + "?" + net.urlencode(AnnounceParams(t, uploaded, downloaded, left, event))
    ensures res.1 == Fetched(res.0, "Tracker announce failed: ", net)
  {
    var url := t.announce + "?" + net.urlencode(AnnounceParams(t, uploaded, downloaded, left, event));
    (url, Fetched(url, "Tracker announce failed: ", net))
  }

  /** A tracker that answers 200 with a compact list gets read back as the
      peers it packed, in order. */
  lemma HttpCompactRoundTrip(t: Tracker, net: Network, body: seq<byte>, peers: seq<(seq<byte>, u16)>)
    requires forall k :: 0 <= k < |peers| ==> |peers[k].0| == 4
    requires net.fetch(HttpGetPeers(t, net).0) == Ok(Response(200, body))
    requires net.bdecode(body) == Ok(Some(PeerBytes(Compact(peers))))
    ensures var r := HttpGetPeers(t, net).1;
      r.Ok? && |r.value| == |peers|
      && forall k :: 0 <= k < |peers| ==> r.value[k] == (DottedQuad(peers[k].0), peers[k].1 as int)
  {
    RecordsCompact(peers);
  }

  // ===== The UDP tracker =====

  /** `sock.recv(16)` and `struct.unpack('!IIQ', ...)` of the connect reply:
      struct.error for fewer than 16 bytes, ConnectionError when the action
      is not 0 (connect).  The transaction id is compared with itself, so a
      reply with any transaction id is accepted; it and the connection id
      are returned. */
  function ConnectReply(datagram: seq<byte>): (r: Result<(u32, u64)>)
    ensures |datagram| < 16 ==> r == Raise(StructError)
    ensures |datagram| >= 16 ==>
      && (r.Ok? <==> FromBigEndian(datagram[..4]) == 0)
      && (r.Raise? ==> r == Raise(ConnectionError("Invalid UDP tracker response")))
      && (r.Ok? ==> r.value == (FromBigEndian(datagram[4..8]), FromBigEndian(datagram[8..16])))
  {
    var response := Prefix(datagram, 16);
    if |response| != 16 then Raise(StructError)
    else
      assert response[..4] == datagram[..4] && response[4..8] == datagram[4..8] && response[8..] == datagram[8..16];
      var action := ReadU32(response[..4]);
      var transactionId := ReadU32(response[4..8]);
      var connectionId := ReadU64(response[8..]);
      if action != 0 || transactionId != transactionId then Raise(ConnectionError("Invalid UDP tracker response"))
      else Ok((transactionId, connectionId))
  }

  /** The announce request of `_get_peers_from_udp_tracker`: the
      transaction id of the connect reply is also the key, num_want is -1
      (the tracker's default) and the port 6881, so only a size left
      outside the eight-byte range makes it fail, with struct.error. */
  function AnnounceRequest(connectionId: u64, transactionId: u32, infoHash: seq<byte>, peerId: seq<byte>, left: int): (r: Result<seq<byte>>)
    ensures r.Ok? <==> 0 <= left < 0x1_0000_0000_0000_0000
    ensures r.Raise? ==> r.exc == StructError
    ensures r.Ok? ==> |r.value| == 98 && r.value[80..] == AnnounceTail(transactionId, -1, PORT)
  {
    PackAnnounce(connectionId, transactionId, infoHash, peerId, left, transactionId, -1, PORT)
  }

  /** `sock.recv(1024)` and the header of the announce reply: struct.error
      for fewer than 20 bytes, ConnectionError when the action is not 1
      (announce); otherwise the peer bytes after the header, of at most
      1004 bytes. */
  function AnnounceReply(datagram: seq<byte>): (r: Result<seq<byte>>)
    ensures |datagram| < 20 ==> r == Raise(StructError)
    ensures |datagram| >= 20 ==>
      && (r.Ok? <==> FromBigEndian(datagram[..4]) == 1)
      && (r.Raise? ==> r == Raise(ConnectionError("Invalid UDP tracker announce response")))
      && (r.Ok? ==> |r.value| <= 1004 && r.value == Prefix(datagram, 1024)[20..])
  {
    var response := Prefix(datagram, 1024);
    if |response| < 20 then Raise(StructError)
    else
      assert response[..4] == datagram[..4];
      var action := ReadU32(response[..4]);
      var transactionId := ReadU32(response[4..8]);
      if action != 1 || transactionId != transactionId then Raise(ConnectionError("Invalid UDP tracker announce response"))
      else Ok(response[20..])
  }

  /** The announce that follows an accepted connect reply: the request, if
      it can be packed, and what the tracker's reply to it yields. */
  function UdpAnnounce(t: Tracker, net: Network, tid: u32, cid: u64): (res: (seq<seq<byte>>, Result<seq<PeerAddr>>))
    requires IsAsciiText(t.peerId)
    ensures |res.0| <= 1 && (|res.0| == 1 <==> 0 <= t.totalSize < 0x1_0000_0000_0000_0000)
    ensures res.1.Ok? ==> |res.0| == 1 && AnnounceReply(net.announceReply).Ok?
  {
    match AnnounceRequest(cid, tid, t.infoHash, Ascii(t.peerId), t.totalSize)
    case Raise(e) => ([], Raise(e))
    case Ok(announce) =>
      match AnnounceReply(net.announceReply)
      case Raise(e) => ([announce], Raise(e))
      case Ok(peers) => ([announce], StrictRecords(peers))
  }

  /** `_get_peers_from_udp_tracker`: the datagrams sent and the outcome.
      The announce goes out only when the connect reply is accepted and the
      request can be packed; it carries the connection id and transaction
      id of the reply. */
  function UdpGetPeers(t: Tracker, net: Network): (res: (seq<seq<byte>>, Result<seq<PeerAddr>>))
    requires IsAsciiText(t.peerId)
    ensures 1 <= |res.0| <= 2 && res.0[0] == ConnectRequest(TRANSACTION_ID)
    ensures |res.0| == 2 <==> ConnectReply(net.connectReply).Ok? && 0 <= t.totalSize < 0x1_0000_0000_0000_0000
    ensures res.1.Ok? ==> |res.0| == 2 && AnnounceReply(net.announceReply).Ok?
  {
    var connect := ConnectRequest(TRANSACTION_ID);
    match ConnectReply(net.connectReply)
    case Raise(e) => ([connect], Raise(e))
    case Ok(ids) =>
      var announced := UdpAnnounce(t, net, ids.0, ids.1);
      ([connect] + announced.0, announced.1)
  }

  /** A connect reply with action 0 is accepted with its ids. */
  lemma ConnectAccepted(tid: u32, cid: u64)
    ensures ConnectReply(U32(0) + U32(tid) + U64(cid)) == Ok((tid, cid))
  {
    var c := U32(0) + U32(tid) + U64(cid);
    assert c[..4] == U32(0) && c[4..8] == U32(tid) && c[8..16] == U64(cid);
  }

  /** An announce reply with action 1 that fits in one `recv(1024)` gives
      the bytes after its 20-byte header. */
  lemma AnnounceAccepted(header: seq<byte>, body: seq<byte>)
    requires |header| == 20 && FromBigEndian(header[..4]) == 1 && |header| + |body| <= 1024
    ensures AnnounceReply(header + body) == Ok(body)
  {
    var a := header + body;
    assert a[..4] == header[..4];
    assert Prefix(a, 1024) == a && a[20..] == body;
  }

  /** The exchange once the connect reply is accepted. */
  lemma UdpConnected(t: Tracker, net: Network)
    requires IsAsciiText(t.peerId) && ConnectReply(net.connectReply).Ok?
    ensures var ids := ConnectReply(net.connectReply).value;
      UdpGetPeers(t, net) == ([ConnectRequest(TRANSACTION_ID)] + UdpAnnounce(t, net, ids.0, ids.1).0, UdpAnnounce(t, net, ids.0, ids.1).1)
  {
  }

  /** The announce once it can be packed and its reply is accepted. */
  lemma UdpAnnounced(t: Tracker, net: Network, tid: u32, cid: u64)
    requires IsAsciiText(t.peerId) && 0 <= t.totalSize < 0x1_0000_0000_0000_0000
    requires AnnounceReply(net.announceReply).Ok?
    ensures UdpAnnounce(t, net, tid, cid)
      == ([AnnounceRequest(cid, tid, t.infoHash, Ascii(t.peerId), t.totalSize).value], StrictRecords(AnnounceReply(net.announceReply).value))
  {
  }

  /** A tracker that accepts the connect request and accepts the announce
      is asked with the ids of its connect reply, and its peer bytes are
      read as a compact list. */
  lemma UdpAccepted(t: Tracker, net: Network, cid: u64, tid: u32, body: seq<byte>)
    requires IsAsciiText(t.peerId) && 0 <= t.totalSize < 0x1_0000_0000_0000_0000
    requires net.connectReply == U32(0) + U32(tid) + U64(cid)
    requires AnnounceReply(net.announceReply) == Ok(body)
    ensures UdpGetPeers(t, net)
      == ([ConnectRequest(TRANSACTION_ID), AnnounceRequest(cid, tid, t.infoHash, Ascii(t.peerId), t.totalSize).value], StrictRecords(body))
  {
    ConnectAccepted(tid, cid);
    UdpConnected(t, net);
    UdpAnnounced(t, net, tid, cid);
    var request := AnnounceRequest(cid, tid, t.infoHash, Ascii(t.peerId), t.totalSize).value;
    assert [ConnectRequest(TRANSACTION_ID)] + [request] == [ConnectRequest(TRANSACTION_ID), request];
  }

  /** A tracker that accepts the connect request and answers the announce
      with a compact list in one datagram is read back as the peers it
      packed; the announce carries its connection and transaction ids. */
  lemma UdpCompactRoundTrip(t: Tracker, net: Network, cid: u64, tid: u32, header: seq<byte>, peers: seq<(seq<byte>, u16)>)
    requires IsAsciiText(t.peerId) && 0 <= t.totalSize < 0x1_0000_0000_0000_0000
    requires forall k :: 0 <= k < |peers| ==> |peers[k].0| == 4
    requires net.connectReply == U32(0) + U32(tid) + U64(cid)
    requires |header| == 20 && FromBigEndian(header[..4]) == 1 && 20 + 6 * |peers| <= 1024
    requires net.announceReply == header + Compact(peers)
    ensures var (sent, r) := UdpGetPeers(t, net);
      && sent == [ConnectRequest(TRANSACTION_ID), AnnounceRequest(cid, tid, t.infoHash, Ascii(t.peerId), t.totalSize).value]
      && r.Ok? && |r.value| == |peers|
      && forall k :: 0 <= k < |peers| ==> r.value[k] == (DottedQuad(peers[k].0), peers[k].1 as int)
  {
    var data := Compact(peers);
    AnnounceAccepted(header, data);
    UdpAccepted(t, net, cid, tid, data);
    StrictCompact(peers);
    RecordsCompact(peers);
  }

  /** A compact list is whole records. */
  lemma StrictCompact(peers: seq<(seq<byte>, u16)>)
    requires forall k :: 0 <= k < |peers| ==> |peers[k].0| == 4
    ensures StrictRecords(Compact(peers)) == Ok(Records(Compact(peers)))
  {
    var n := |Compact(peers)|;
    assert n == 6 * |peers| + 0;
    RecordSplit(|peers|, 0);
  }

  /** 1004 peer bytes are not a whole number of records. */
  lemma LongReplyPeers(datagram: seq<byte>)
    requires |datagram| >= 1024 && FromBigEndian(datagram[..4]) == 1
    ensures AnnounceReply(datagram).Ok? && StrictRecords(AnnounceReply(datagram).value) == Raise(OSError)
  {
    assert |AnnounceReply(datagram).value| == 1004;
  }

  /** The reply is read with `recv(1024)`: a datagram of 1024 bytes or more
      leaves 1004 peer bytes, which is not a whole number of records, so an
      accepted announce with that many peers always raises OSError. */
  lemma UdpLongReplyFails(t: Tracker, net: Network)
    requires IsAsciiText(t.peerId) && 0 <= t.totalSize < 0x1_0000_0000_0000_0000
    requires ConnectReply(net.connectReply).Ok?
    requires |net.announceReply| >= 1024 && FromBigEndian(net.announceReply[..4]) == 1
    ensures UdpGetPeers(t, net).1 == Raise(OSError)
  {
    var ids := ConnectReply(net.connectReply).value;
    UdpConnected(t, net);
    LongReplyPeers(net.announceReply);
    UdpAnnounced(t, net, ids.0, ids.1);
  }

  // ===== Choosing the tracker =====

  /** `get_peers()`: an `http` announce URL goes to the HTTP tracker, a
      `udp` one to the UDP tracker; anything else raises RuntimeError. */
  function GetPeers(t: Tracker, net: Network): (r: Result<seq<PeerAddr>>)
    requires IsAsciiText(t.peerId)
    ensures StartsWith(t.announce, "http") ==> r == HttpGetPeers(t, net).1
    ensures !StartsWith(t.announce, "http") && StartsWith(t.announce, "udp") ==> r == UdpGetPeers(t, net).1
    ensures !StartsWith(t.announce, "http") && !StartsWith(t.announce, "udp") ==>
      r == Raise(RuntimeError("Unsupported tracker protocol: " + t.announce))
  {
    if StartsWith(t.announce, "http") then HttpGetPeers(t, net).1
    else if StartsWith(t.announce, "udp") then UdpGetPeers(t, net).1
    else Raise(RuntimeError("Unsupported tracker protocol: " + t.announce))
  }
}
