/** The `Tracker` of src/tracker.py, the one `BitTorrentClient` uses: it
    asks an HTTP or a UDP tracker for peers and turns every failure into an
    empty list.  As in the other tracker, the network is a parameter
    (`Network`).  Its compact-list loop is more lenient than the other
    one's: a trailing partial record ends the list instead of failing. */
module SimpleTracker {
  import opened Wrappers
  import opened Bytes
  import opened TrackerWire
  import Client
  import CoreTracker

  const DEFAULT_PORT := 6881
  const NUM_WANT := 50

  /** The client's peer id and the port it announces. */
  datatype Tracker = Tracker(peerId: seq<byte>, port: int)

  // ===== The compact peer list =====

  /** `'.'.join(str(b) for b in chunk)`. */
  function JoinDecimal(chunk: seq<byte>): string
  {
    Join(seq(|chunk|, k requires 0 <= k < |chunk| => Decimal(chunk[k])), ".")
  }

  /** For four bytes that is the dotted quad `inet_ntoa` would give. */
  lemma JoinQuad(chunk: seq<byte>)
    requires |chunk| == 4
    ensures JoinDecimal(chunk) == DottedQuad(chunk)
  {
    var parts := seq(|chunk|, k requires 0 <= k < |chunk| => Decimal(chunk[k]));
    assert parts == [Decimal(chunk[0]), Decimal(chunk[1]), Decimal(chunk[2]), Decimal(chunk[3])];
    assert parts[1..][1..][1..] == [Decimal(chunk[3])];
    assert Join(parts[1..][1..], ".") == Decimal(chunk[2]) + "." + Decimal(chunk[3]);
    assert Join(parts[1..], ".") == Decimal(chunk[1]) + "." + (Decimal(chunk[2]) + "." + Decimal(chunk[3]));
  }

  /** `_parse_peers(peers_data)`: six bytes per peer; at a trailing partial
      record the port's `struct.unpack` raises struct.error, which ends the
      loop with the peers read so far.  So the result is exactly the peers
      of the complete records. */
  method ParsePeers(peersData: seq<byte>) returns (peers: seq<PeerAddr>)
    ensures peers == Records(peersData)
  {
    peers := [];
    var i := 0;
    ghost var k := 0;
    while i < |peersData|
      invariant i == 6 * k && i <= |peersData|
      invariant peers == Records(peersData)[..k]
      decreases |peersData| - i
    {
      var ip := JoinDecimal(Slice(peersData, i, i + 4));
      var portBytes := Slice(peersData, i + 4, i + 6);
      if |portBytes| != 2 {
        RecordSplit(k, |peersData| - i);
        assert Records(peersData)[..k] == Records(peersData);
        return;
      }
      JoinQuad(peersData[i..i + 4]);
      RecordSplit(k + 1, |peersData| - i - 6);
      assert Records(peersData)[..k + 1] == Records(peersData)[..k] + [RecordAt(peersData, i)];
      peers := peers + [(ip, ReadU16(portBytes) as int)];
      i, k := i + 6, k + 1;
    }
    RecordSplit(k, 0);
    assert Records(peersData)[..k] == Records(peersData);
  }

  /** The lenient loop agrees with the strict one of src/core/tracker.py
      on whole records; on a trailing partial record the strict one fails
      where the lenient one drops it. */
  lemma LenientVsStrict(data: seq<byte>)
    ensures |data| % 6 == 0 ==> CoreTracker.StrictRecords(data) == Ok(Records(data))
    ensures |data| % 6 != 0 ==> CoreTracker.StrictRecords(data).Raise?
    ensures Records(data) == Records(data[..6 * (|data| / 6)])
  {
    RecordsPrefix(data, |data| / 6);
  }

  /** What `_parse_peers` makes of `data.get(b'peers', b'')`: nothing for a
      missing key; a list of dictionaries makes `struct.unpack` raise
      TypeError at its first entry, so only an empty list passes. */
  function ParseField(v: Option<PeersValue>): (r: Result<seq<PeerAddr>>)
    ensures v.None? ==> r == Ok([])
    ensures v.Some? && v.value.PeerBytes? ==> r == Ok(Records(v.value.data))
    ensures v.Some? && v.value.PeerDicts? ==> (r.Ok? <==> v.value.entries == []) && (r.Ok? ==> r.value == [])
    ensures r.Raise? ==> r.exc == TypeError
  {
    match v
    case None => Ok([])
    case Some(PeerBytes(data)) => Ok(Records(data))
    case Some(PeerDicts(entries)) => if entries == [] then Ok([]) else Raise(TypeError)
  }

  // ===== The network =====

  /** What the tracker's surroundings do: the HTTP GET of a URL with a
      query, what bencode decoding finds under `peers` (None for a missing
      key), whether the connection to the UDP tracker's host opens, and the
      bytes the host then sends, for the first and the second read. */
  datatype Network = Network(
    fetch: (string, Params) -> Result<Response>,
    bdecode: seq<byte> -> Result<Option<PeersValue>>,
    connects: bool,
    connectReply: seq<byte>,
    announceReply: seq<byte>)

  // ===== The HTTP tracker =====

  /** The query of `_http_tracker`: nothing up or down yet, the total file
      length left, 50 peers wanted, compact form. */
  function HttpParams(t: Tracker, m: Client.TorrentMetadata): (ps: Params)
    ensures ps.Keys == {"info_hash", "peer_id", "uploaded", "downloaded", "left", "port", "compact", "numwant"}
    ensures ps["info_hash"] == Raw(m.infoHash) && ps["peer_id"] == Raw(t.peerId)
    ensures ps["uploaded"] == Number(0) && ps["downloaded"] == Number(0)
    ensures ps["left"] == Number(Client.FileSum(m.files)) && ps["port"] == Number(t.port)
    ensures ps["compact"] == Number(1) && ps["numwant"] == Number(NUM_WANT)
  {
    map["info_hash" := Raw(m.infoHash), "peer_id" := Raw(t.peerId), "uploaded" := Number(0),
        "downloaded" := Number(0), "left" := Number(Client.FileSum(m.files)), "port" := Number(t.port),
        "compact" := Number(1), "numwant" := Number(NUM_WANT)]
  }

  /** `_http_tracker(torrent)`: ConnectionError for a status other than 200;
      decoding errors pass through. */
  function HttpTracker(t: Tracker, m: Client.TorrentMetadata, net: Network): (r: Result<seq<PeerAddr>>)
    ensures net.fetch(m.announce, HttpParams(t, m)).Raise? ==> r == Raise(net.fetch(m.announce, HttpParams(t, m)).exc)
    ensures net.fetch(m.announce, HttpParams(t, m)).Ok? ==>
      var response := net.fetch(m.announce, HttpParams(t, m)).value;
      && (response.status != 200 ==> r == Raise(ConnectionError("Tracker returned " + IntToString(response.status))))
      && (response.status == 200 && net.bdecode(response.body).Raise? ==> r == Raise(net.bdecode(response.body).exc))
      && (response.status == 200 && net.bdecode(response.body).Ok? ==> r == ParseField(net.bdecode(response.body).value))
  {
    var response :- net.fetch(m.announce, HttpParams(t, m));
    if response.status != 200 then Raise(ConnectionError("Tracker returned " + IntToString(response.status)))
    else
      var peers :- net.bdecode(response.body);
      ParseField(peers)
  }

  // ===== The UDP tracker =====

  /** `_udp_tracker(torrent)` with `tid1` and `tid2` the two random
      transaction ids.  It writes the connect request, reads up to 16
      bytes and fails with ConnectionError on fewer.  It then packs the
      announce request with key -1 into an unsigned field, which
      `struct.pack` refuses: struct.error, before anything more is
      written.  `sent` is what was written. */
  function UdpTracker(t: Tracker, m: Client.TorrentMetadata, net: Network, tid1: u32, tid2: u32): (res: (seq<seq<byte>>, Result<seq<PeerAddr>>))
    ensures var (sent, r) := res;
      && (!net.connects ==> sent == [] && r == Raise(OSError))
      && (net.connects ==> sent == [ConnectRequest(tid1)])
      && (net.connects && |net.connectReply| < 16 ==> r == Raise(ConnectionError("Invalid UDP tracker response")))
      && (net.connects && |net.connectReply| >= 16 ==> r == Raise(StructError))
  {
    if !net.connects then ([], Raise(OSError))
    else
      var data := Prefix(net.connectReply, 16);
      if |data| < 16 then ([ConnectRequest(tid1)], Raise(ConnectionError("Invalid UDP tracker response")))
      else
        var connectionId := ReadU64(data[8..16]);
        var left := Client.FileSum(m.files);
        match PackAnnounce(connectionId, tid2, m.infoHash, t.peerId, left, -1, NUM_WANT, t.port)
        case Raise(e) => ([ConnectRequest(tid1)], Raise(e))
        case Ok(message) => ([ConnectRequest(tid1), message], Ok(ReplyPeers(net.announceReply)))
  }

  /** What the announce reply would give, were the request ever sent: the
      compact list after the 20-byte header of the first 4096 bytes. */
  function ReplyPeers(reply: seq<byte>): (peers: seq<PeerAddr>)
    ensures |reply| <= 20 ==> peers == []
    ensures 20 < |reply| <= 4096 ==> peers == Records(reply[20..])
    ensures |peers| <= (4096 - 20) / 6
  {
    assert |reply| <= 4096 ==> Prefix(reply, 4096) == reply;
    Records(Suffix(Prefix(reply, 4096), 20))
  }

  /** The UDP path never returns peers. */
  lemma UdpNeverYieldsPeers(t: Tracker, m: Client.TorrentMetadata, net: Network, tid1: u32, tid2: u32)
    ensures UdpTracker(t, m, net, tid1, tid2).1.Raise?
    ensures |UdpTracker(t, m, net, tid1, tid2).0| <= 1
  {
  }

  // ===== `get_peers` =====

  /** `get_peers(torrent)`: by the announce URL's scheme; an unknown scheme
      and every exception give the empty list. */
  function GetPeers(t: Tracker, m: Client.TorrentMetadata, net: Network, tid1: u32, tid2: u32): (peers: seq<PeerAddr>)
    ensures StartsWith(m.announce, "http") ==> peers == HttpTracker(t, m, net).GetOr([])
    ensures !StartsWith(m.announce, "http") ==> peers == []
  {
    if StartsWith(m.announce, "http") then HttpTracker(t, m, net).GetOr([])
    else if StartsWith(m.announce, "udp") then UdpTracker(t, m, net, tid1, tid2).1.GetOr([])
    else []
  }

  /** A compact answer from an HTTP tracker gives back every peer that
      was packed into it. */
  lemma HttpCompactRoundTrip(t: Tracker, m: Client.TorrentMetadata, net: Network, tid1: u32, tid2: u32,
                             body: seq<byte>, packed: seq<(seq<byte>, u16)>)
    requires forall k :: 0 <= k < |packed| ==> |packed[k].0| == 4
    requires StartsWith(m.announce, "http")
    requires net.fetch(m.announce, HttpParams(t, m)) == Ok(Response(200, body))
    requires net.bdecode(body) == Ok(Some(PeerBytes(Compact(packed))))
    ensures var peers := GetPeers(t, m, net, tid1, tid2);
      |peers| == |packed| && forall k :: 0 <= k < |packed| ==> peers[k] == (DottedQuad(packed[k].0), packed[k].1 as int)
  {
    RecordsCompact(packed);
  }

  /** A trailing partial record is dropped, not an error: the peers before
      it still come back. */
  lemma HttpPartialRecord(t: Tracker, m: Client.TorrentMetadata, net: Network, tid1: u32, tid2: u32,
                          body: seq<byte>, data: seq<byte>)
    requires StartsWith(m.announce, "http")
    requires net.fetch(m.announce, HttpParams(t, m)) == Ok(Response(200, body))
    requires net.bdecode(body) == Ok(Some(PeerBytes(data)))
    ensures GetPeers(t, m, net, tid1, tid2) == Records(data[..6 * (|data| / 6)])
  {
    LenientVsStrict(data);
  }

  /** A non-empty list of peer dictionaries, which the tracker of
      src/core/tracker.py reads, gives no peers here. */
  lemma DictionaryPeersIgnored(t: Tracker, m: Client.TorrentMetadata, net: Network, tid1: u32, tid2: u32,
                               body: seq<byte>, entries: seq<(seq<byte>, int)>, utf8: seq<byte> -> string)
    requires entries != [] && StartsWith(m.announce, "http")
    requires net.fetch(m.announce, HttpParams(t, m)) == Ok(Response(200, body))
    requires net.bdecode(body) == Ok(Some(PeerDicts(entries)))
    ensures GetPeers(t, m, net, tid1, tid2) == []
    ensures CoreTracker.DecodeHttpResponse(Some(PeerDicts(entries)), utf8).Ok?
    ensures |CoreTracker.DecodeHttpResponse(Some(PeerDicts(entries)), utf8).value| == |entries|
  {
  }
}
