/** The torrent bookkeeping of `BitTorrentClient` in client.py: the
    dictionaries of torrents, their states and progress, the peers found for
    each, and the operations that add, download, pause, resume and remove a
    torrent.  Parsing a torrent file, peer discovery and the peer handshake
    lie outside: the parsed metadata and the handshake's success are
    parameters. */
module Client {
  import opened Wrappers
  import opened Bytes
  import Metainfo

  const MAX_PEER_CONNECTIONS: nat := 50

  datatype TorrentState = QUEUED | DOWNLOADING | PAUSED | COMPLETED | ERROR

  /** `TorrentState.name`. */
  function StateName(s: TorrentState): string
  {
    match s
    case QUEUED => "QUEUED"
    case DOWNLOADING => "DOWNLOADING"
    case PAUSED => "PAUSED"
    case COMPLETED => "COMPLETED"
    case ERROR => "ERROR"
  }

  datatype TorrentFile = TorrentFile(length: int, path: string, md5sum: Option<string>)

  /** The parsed metainfo: `length` is present for a single-file torrent. */
  datatype TorrentMetadata = TorrentMetadata(
    announce: string, infoHash: seq<byte>, pieceLength: int, pieces: seq<seq<byte>>,
    files: seq<TorrentFile>, name: string, length: Option<int>, private: bool)

  /** A peer of a torrent; `connected` is the flag `_connect_to_peers` sets. */
  datatype Peer = Peer(ip: string, port: int, peerId: Option<seq<byte>>, connected: bool,
                       choked: bool, interested: bool, bitfield: Option<seq<byte>>)

  type Address = (string, int)

  function Addr(p: Peer): Address
  {
    (p.ip, p.port)
  }

  // ===== `_split_pieces` =====

  /** `[pieces[i:i + 20] for i in range(0, len(pieces), 20)]`. */
  function SplitPieces(pieces: seq<byte>): (r: seq<seq<byte>>)
    ensures r == Metainfo.SplitPieces(pieces)
    ensures Metainfo.Concat(r) == pieces
  {
    var n := (|pieces| + 19) / 20;
    var r := seq(n, i requires 0 <= i < n => pieces[20 * i .. if 20 * i + 20 <= |pieces| then 20 * i + 20 else |pieces|]);
    forall i | 0 <= i < n ensures r[i] == Metainfo.SplitPieces(pieces)[i] {
      Metainfo.SplitPiecesAt(pieces, i);
    }
    Metainfo.SplitPiecesConcat(pieces);
    r
  }

  // ===== The peers of a torrent: a dictionary keyed by address =====

  /** The position of the peer with address `a`, or the length when there
      is none. */
  function Find(table: seq<Peer>, a: Address): (k: nat)
    ensures k <= |table|
    ensures k < |table| ==> Addr(table[k]) == a
    ensures forall j :: 0 <= j < k ==> Addr(table[j]) != a
  {
    if table == [] then 0 else if Addr(table[0]) == a then 0 else 1 + Find(table[1..], a)
  }

  /** `table[a]`, None when the dictionary has no such key. */
  function Lookup(table: seq<Peer>, a: Address): Option<Peer>
  {
    var k := Find(table, a);
    if k < |table| then Some(table[k]) else None
  }

  /** No two entries share an address. */
  predicate UniqueAddrs(table: seq<Peer>)
  {
    forall i, j :: 0 <= i < j < |table| ==> Addr(table[i]) != Addr(table[j])
  }

  /** `table[(p.ip, p.port)] = p`: an existing key keeps its place and
      gets the new peer; a new key goes last. */
  function Put(table: seq<Peer>, p: Peer): seq<Peer>
  {
    var k := Find(table, Addr(p));
    if k < |table| then table[k := p] else table + [p]
  }

  /** After `Put`, the address of the new peer finds it, every other
      address finds what it found before, and addresses stay unique. */
  lemma PutLookup(table: seq<Peer>, p: Peer, a: Address)
    requires UniqueAddrs(table)
    ensures UniqueAddrs(Put(table, p))
    ensures Lookup(Put(table, p), a) == if a == Addr(p) then Some(p) else Lookup(table, a)
  {
    var k := Find(table, Addr(p));
    var t := Put(table, p);
    var ka := Find(table, a);
    if a != Addr(p) {
      if ka < |table| {
        FindUnique(t, a, ka);
      } else {
        FindAbsent(t, a);
      }
    } else {
      FindUnique(t, a, k);
    }
  }

  /** In a table with unique addresses, an entry is found at its place. */
  lemma FindUnique(table: seq<Peer>, a: Address, k: nat)
    requires k < |table| && Addr(table[k]) == a
    requires forall j :: 0 <= j < |table| && j != k ==> Addr(table[j]) != a
    ensures Find(table, a) == k
  {
  }

  lemma FindAbsent(table: seq<Peer>, a: Address)
    requires forall j :: 0 <= j < |table| ==> Addr(table[j]) != a
    ensures Find(table, a) == |table|
  {
  }

  /** A later peer with the same address replaces an earlier one. */
  lemma PutReplaces(table: seq<Peer>, p: Peer, q: Peer)
    requires Addr(p) == Addr(q)
    ensures Put(Put(table, p), q) == Put(table, q)
  {
    var k := Find(table, Addr(p));
    var t := Put(table, p);
    if k < |table| {
      FindFirst(t, Addr(q), k);
    } else {
      FindFirst(t, Addr(q), |table|);
    }
  }

  /** The first entry with address a is found. */
  lemma FindFirst(table: seq<Peer>, a: Address, k: nat)
    requires k < |table| && Addr(table[k]) == a
    requires forall j :: 0 <= j < k ==> Addr(table[j]) != a
    ensures Find(table, a) == k
  {
  }

  /** The loop of `_add_peers`: every peer in turn. */
  function PutAll(table: seq<Peer>, ps: seq<Peer>): seq<Peer>
  {
    if ps == [] then table else Put(PutAll(table, ps[..|ps| - 1]), ps[|ps| - 1])
  }

  /** After adding a list of peers, an address finds the last peer of the
      list with that address, or what it found before when the list has
      none. */
  lemma {:induction false} PutAllLookup(table: seq<Peer>, ps: seq<Peer>, a: Address)
    requires UniqueAddrs(table)
    ensures UniqueAddrs(PutAll(table, ps))
    ensures Lookup(PutAll(table, ps), a) == if LastWith(ps, a).Some? then LastWith(ps, a) else Lookup(table, a)
  {
    if ps != [] {
      var init := ps[..|ps| - 1];
      PutAllLookup(table, init, a);
      PutLookup(PutAll(table, init), ps[|ps| - 1], a);
    }
  }

  lemma PutAllSnoc(table: seq<Peer>, ps: seq<Peer>, i: nat)
    requires i < |ps|
    ensures PutAll(table, ps[..i + 1]) == Put(PutAll(table, ps[..i]), ps[i])
  {
    assert ps[..i + 1][..i] == ps[..i];
  }

  /** The last peer of a list with address a. */
  function LastWith(ps: seq<Peer>, a: Address): Option<Peer>
  {
    if ps == [] then None
    else if Addr(ps[|ps| - 1]) == a then Some(ps[|ps| - 1])
    else LastWith(ps[..|ps| - 1], a)
  }

  // ===== `_connect_to_peers` =====

  /** The peers whose handshake would be tried and would succeed. */
  function Candidates(table: seq<Peer>, ok: Address -> bool): nat
  {
    if table == [] then 0 else (if !table[0].connected && ok(Addr(table[0])) then 1 else 0) + Candidates(table[1..], ok)
  }

  /** The loop of `_connect_to_peers` from position `i` on, with `budget`
      connections left: in order, every peer not yet connected whose
      handshake succeeds (`ok`) is marked connected, until the budget is
      spent.  The table keeps its peers and their order, only peers from
      `i` on change, and only from unconnected to connected; the second
      component counts them. */
  function ConnectFrom(table: seq<Peer>, ok: Address -> bool, i: nat, budget: nat): (res: (seq<Peer>, nat))
    requires i <= |table|
    ensures |res.0| == |table| && res.1 <= budget
    ensures forall k :: 0 <= k < |table| ==>
      res.0[k] == table[k] || (i <= k && !table[k].connected && ok(Addr(table[k])) && res.0[k] == table[k].(connected := true))
    decreases |table| - i
  {
    if i == |table| || budget == 0 then (table, 0)
    else
      var p := table[i];
      if !p.connected && ok(Addr(p)) then
        var rest := ConnectFrom(table[i := p.(connected := true)], ok, i + 1, budget - 1);
        (rest.0, rest.1 + 1)
      else
        ConnectFrom(table, ok, i + 1, budget)
  }

  /** The whole loop of `_connect_to_peers`. */
  function Connect(table: seq<Peer>, ok: Address -> bool, budget: nat): (res: (seq<Peer>, nat))
    ensures |res.0| == |table| && res.1 <= budget
    ensures forall k :: 0 <= k < |table| ==>
      res.0[k] == table[k] || (!table[k].connected && ok(Addr(table[k])) && res.0[k] == table[k].(connected := true))
  {
    ConnectFrom(table, ok, 0, budget)
  }

  function Min(a: int, b: int): int
  {
    if a <= b then a else b
  }

  /** The loop connects as many peers as it can, up to the budget, and when
      the budget suffices every peer whose handshake succeeds ends up
      connected. */
  lemma {:induction false} ConnectFromCount(table: seq<Peer>, ok: Address -> bool, i: nat, budget: nat)
    requires i <= |table|
    ensures ConnectFrom(table, ok, i, budget).1 == Min(Candidates(table[i..], ok), budget)
    ensures Candidates(table[i..], ok) <= budget ==>
      forall k :: i <= k < |table| && ok(Addr(table[k])) ==> ConnectFrom(table, ok, i, budget).0[k].connected
    decreases |table| - i
  {
    if i == |table| {
      assert table[i..] == [];
    } else if budget == 0 {
      if Candidates(table[i..], ok) == 0 {
        NoCandidates(table[i..], ok);
        forall k | i <= k < |table| && ok(Addr(table[k])) ensures table[k].connected {
          assert table[i..][k - i] == table[k];
        }
      }
    } else {
      var p := table[i];
      assert table[i..][0] == p && table[i..][1..] == table[i + 1..];
      if !p.connected && ok(Addr(p)) {
        var t := table[i := p.(connected := true)];
        assert t[i + 1..] == table[i + 1..];
        ConnectFromCount(t, ok, i + 1, budget - 1);
      } else {
        ConnectFromCount(table, ok, i + 1, budget);
      }
    }
  }

  /** With no candidates left, every peer whose handshake would succeed is
      already connected. */
  lemma {:induction false} NoCandidates(table: seq<Peer>, ok: Address -> bool)
    requires Candidates(table, ok) == 0
    ensures forall k :: 0 <= k < |table| && ok(Addr(table[k])) ==> table[k].connected
  {
    if table != [] {
      NoCandidates(table[1..], ok);
      assert forall k :: 1 <= k < |table| ==> table[k] == table[1..][k - 1];
    }
  }

  /** `_connect_to_peers` connects min(candidates, 50) peers, all of them
      when there are no more than 50. */
  lemma ConnectCount(table: seq<Peer>, ok: Address -> bool, budget: nat)
    ensures Connect(table, ok, budget).1 == Min(Candidates(table, ok), budget)
    ensures Candidates(table, ok) <= budget ==>
      forall k :: 0 <= k < |table| && ok(Addr(table[k])) ==> Connect(table, ok, budget).0[k].connected
  {
    ConnectFromCount(table, ok, 0, budget);
    assert table[0..] == table;
  }

  // ===== The state machine =====

  datatype Op = Download | Pause | Resume

  /** What each operation does to the state of a known torrent:
      `download_torrent` leaves DOWNLOADING and COMPLETED alone and
      otherwise starts downloading; `pause_torrent` always pauses;
      `resume_torrent` downloads only a paused torrent. */
  function Next(s: TorrentState, op: Op): (s': TorrentState)
    ensures op == Pause ==> s' == PAUSED
    ensures op == Resume ==> s' == (if s == PAUSED then DOWNLOADING else s)
    ensures op == Download ==> (s' == s <==> s == DOWNLOADING || s == COMPLETED)
    ensures op == Download ==> s' == DOWNLOADING || s' == COMPLETED
  {
    match op
    case Download => if s == DOWNLOADING || s == COMPLETED then s else DOWNLOADING
    case Pause => PAUSED
    case Resume => if s == PAUSED then DOWNLOADING else s
  }

  /** Pausing and resuming restarts any torrent, a completed one too. */
  lemma PauseResume(s: TorrentState)
    ensures Next(Next(s, Pause), Resume) == DOWNLOADING
  {
  }

  /** Every operation is idempotent. */
  lemma NextIdempotent(s: TorrentState, op: Op)
    ensures Next(Next(s, op), op) == Next(s, op)
  {
  }

  // ===== `get_torrent_info` =====

  /** `metadata.length or sum(f.length for f in metadata.files)`. */
  function FileSum(files: seq<TorrentFile>): int
  {
    if files == [] then 0 else files[0].length + FileSum(files[1..])
  }

  function Size(m: TorrentMetadata): (size: int)
    ensures m.length.Some? && m.length.value != 0 ==> size == m.length.value
    ensures m.length.None? || m.length == Some(0) ==> size == FileSum(m.files)
  {
    if m.length.Some? && m.length.value != 0 then m.length.value else FileSum(m.files)
  }

  /** A single-file torrent's size is its length, also when that is 0. */
  lemma SizeSingleFile(m: TorrentMetadata)
    requires |m.files| == 1 && m.length == Some(m.files[0].length)
    ensures Size(m) == m.files[0].length
  {
    assert m.files[1..] == [];
    assert FileSum(m.files) == m.files[0].length + FileSum([]);
  }

  datatype Info = Info(name: string, size: int, progress: real, state: string, peers: nat,
                       downloadSpeed: int, uploadSpeed: int, files: seq<(string, int)>)

  /** The peers of a torrent, none when it has no entry. */
  function Table(peers: map<seq<byte>, seq<Peer>>, h: seq<byte>): seq<Peer>
  {
    if h in peers then peers[h] else []
  }

  /** No two peers of a torrent share an address. */
  predicate AllUnique(peers: map<seq<byte>, seq<Peer>>)
  {
    forall h :: h in peers ==> UniqueAddrs(peers[h])
  }

  lemma AllUniqueUpdate(peers: map<seq<byte>, seq<Peer>>, h: seq<byte>, table: seq<Peer>)
    requires AllUnique(peers) && UniqueAddrs(table)
    ensures AllUnique(peers[h := table]) && UniqueAddrs(Table(peers, h))
  {
  }

  class BitTorrentClient {
    var torrents: map<seq<byte>, TorrentMetadata>
    var states: map<seq<byte>, TorrentState>
    var progress: map<seq<byte>, real>
    /** `defaultdict(dict)`: the peers of a torrent by address, in
        insertion order. */
    var peers: map<seq<byte>, seq<Peer>>

    /** A torrent is in the three dictionaries or in none; no two peers of
        a torrent share an address. */
    ghost predicate Valid()
      reads this
    {
      && states.Keys == torrents.Keys && progress.Keys == torrents.Keys
      && AllUnique(peers)
    }

    constructor ()
      ensures Valid()
      ensures torrents == map[] && states == map[] && progress == map[] && peers == map[]
    {
      torrents := map[];
      states := map[];
      progress := map[];
      peers := map[];
    }

    /** `add_torrent(torrent_file)` once the file is parsed (`parsed`).  A
        parse error reaches the `except` branch, whose use of the unbound
        `metadata` raises UnboundLocalError. */
    method AddTorrent(parsed: Result<TorrentMetadata>) returns (r: Result<bool>)
      requires Valid()
      modifies this`torrents, this`states, this`progress
      ensures Valid()
      ensures parsed.Raise? ==> r == Raise(UnboundLocalError)
      ensures parsed.Ok? && parsed.value.infoHash in old(torrents) ==> r == Ok(false)
      ensures r != Ok(true) ==> torrents == old(torrents) && states == old(states) && progress == old(progress)
      ensures parsed.Ok? && parsed.value.infoHash !in old(torrents) ==>
        var h := parsed.value.infoHash;
        && r == Ok(true)
        && torrents == old(torrents)[h := parsed.value]
        && states == old(states)[h := QUEUED] && progress == old(progress)[h := 0.0]
    {
      if parsed.Raise? {
        return Raise(UnboundLocalError);
      }
      var metadata := parsed.value;
      if metadata.infoHash in torrents {
        return Ok(false);
      }
      torrents := torrents[metadata.infoHash := metadata];
      states := states[metadata.infoHash := QUEUED];
      progress := progress[metadata.infoHash := 0.0];
      return Ok(true);
    }

    /** `_add_peers(info_hash, peers)`: every peer is stored under its
        address; the result says whether `_connect_to_peers` is started,
        which happens exactly while the torrent is downloading. */
    method AddPeers(h: seq<byte>, newPeers: seq<Peer>) returns (scheduled: bool)
      requires Valid()
      modifies this`peers
      ensures Valid()
      ensures newPeers == [] ==> peers == old(peers)
      ensures newPeers != [] ==> peers == old(peers)[h := PutAll(Table(old(peers), h), newPeers)]
      ensures scheduled <==> h in states && states[h] == DOWNLOADING
    {
      var table := Table(peers, h);
      ghost var base := table;
      var i := 0;
      while i < |newPeers|
        invariant 0 <= i <= |newPeers| && table == PutAll(base, newPeers[..i])
        invariant peers == if i == 0 then old(peers) else old(peers)[h := table]
      {
        PutAllSnoc(base, newPeers, i);
        table := Put(table, newPeers[i]);
        peers := peers[h := table];
        i := i + 1;
      }
      assert newPeers[..i] == newPeers;
      AllUniqueUpdate(old(peers), h, []);
      PutAllLookup(base, newPeers, ("", 0));
      AllUniqueUpdate(old(peers), h, table);
      scheduled := h in states && states[h] == DOWNLOADING;
    }

    /** `_connect_to_peers(info_hash)`: KeyError for an unknown torrent;
        otherwise the torrent's peers become `Connect(peers, ok, 50)`, where
        `ok` says whose handshake succeeds, and the result is the number
        of peers connected by this call. */
    method ConnectToPeers(h: seq<byte>, ok: Address -> bool) returns (r: Result<nat>)
      requires Valid()
      modifies this`peers
      ensures Valid()
      ensures h !in torrents ==> r == Raise(KeyError) && peers == old(peers)
      ensures h in torrents ==>
        var c := Connect(Table(old(peers), h), ok, MAX_PEER_CONNECTIONS);
        peers == old(peers)[h := c.0] && r == Ok(c.1)
    {
      if h !in torrents {
        return Raise(KeyError);
      }
      var snapshot := Table(peers, h);
      peers := peers[h := snapshot];
      var table, count := ConnectLoop(snapshot, ok);
      ConnectKeepsAddrs(snapshot, ok, MAX_PEER_CONNECTIONS);
      peers := peers[h := table];
      return Ok(count);
    }

    /** `download_torrent(info_hash)`: ValueError for an unknown torrent;
        nothing happens while downloading or completed; otherwise the
        torrent starts downloading and its peers are connected. */
    method DownloadTorrent(h: seq<byte>, ok: Address -> bool) returns (r: Result<()>)
      requires Valid()
      modifies this`states, this`peers
      ensures Valid()
      ensures h !in torrents ==> r == Raise(ValueError("Torrent not found")) && states == old(states) && peers == old(peers)
      ensures h in torrents ==> r == Ok(()) && states == old(states)[h := Next(old(states)[h], Download)]
      ensures h in torrents && old(states)[h] in {DOWNLOADING, COMPLETED} ==> peers == old(peers)
      ensures h in torrents && old(states)[h] !in {DOWNLOADING, COMPLETED} ==>
        peers == old(peers)[h := Connect(Table(old(peers), h), ok, MAX_PEER_CONNECTIONS).0]
    {
      if h !in torrents {
        return Raise(ValueError("Torrent not found"));
      }
      if states[h] == DOWNLOADING || states[h] == COMPLETED {
        return Ok(());
      }
      states := states[h := DOWNLOADING];
      var _ := ConnectToPeers(h, ok);
      return Ok(());
    }

    /** `pause_torrent(info_hash)`: a known torrent is paused whatever its
        state; an unknown one is ignored. */
    method PauseTorrent(h: seq<byte>)
      requires Valid()
      modifies this`states
      ensures Valid()
      ensures h in torrents ==> states == old(states)[h := Next(old(states)[h], Pause)]
      ensures h !in torrents ==> states == old(states)
    {
      if h in torrents {
        states := states[h := PAUSED];
      }
    }

    /** `resume_torrent(info_hash)`: only a paused torrent is downloaded
        again. */
    method ResumeTorrent(h: seq<byte>, ok: Address -> bool)
      requires Valid()
      modifies this`states, this`peers
      ensures Valid()
      ensures h in torrents ==> states == old(states)[h := Next(old(states)[h], Resume)]
      ensures h in torrents && old(states)[h] == PAUSED ==>
        peers == old(peers)[h := Connect(Table(old(peers), h), ok, MAX_PEER_CONNECTIONS).0]
      ensures !(h in torrents && old(states)[h] == PAUSED) ==> states == old(states) && peers == old(peers)
    {
      if h in torrents && states[h] == PAUSED {
        var _ := DownloadTorrent(h, ok);
      }
    }

    /** `remove_torrent(info_hash)`: the torrent leaves the three
        dictionaries; its peers stay. */
    method RemoveTorrent(h: seq<byte>)
      requires Valid()
      modifies this`torrents, this`states, this`progress
      ensures Valid()
      ensures h !in torrents && h !in states && h !in progress
      ensures torrents == old(torrents) - {h} && states == old(states) - {h} && progress == old(progress) - {h}
    {
      if h in torrents {
        torrents := torrents - {h};
        states := states - {h};
        progress := progress - {h};
      }
    }

    /** `get_torrent_info(info_hash)`: None for an unknown torrent;
        otherwise its name, size, progress, state name, number of peers
        and files. */
    function GetTorrentInfo(h: seq<byte>): (r: Option<Info>)
      reads this
      ensures r.None? <==> h !in torrents
      ensures r.Some? ==>
        var m := torrents[h];
        && r.value.name == m.name && r.value.size == Size(m)
        && r.value.progress == (if h in progress then progress[h] else 0.0)
        && r.value.state == StateName(if h in states then states[h] else QUEUED)
        && r.value.peers == |Table(peers, h)| && r.value.downloadSpeed == 0 && r.value.uploadSpeed == 0
        && |r.value.files| == |m.files|
        && forall k :: 0 <= k < |m.files| ==> r.value.files[k] == (m.files[k].path, m.files[k].length)
    {
      if h !in torrents then None
      else
        var m := torrents[h];
        Some(Info(m.name, Size(m), if h in progress then progress[h] else 0.0,
                  StateName(if h in states then states[h] else QUEUED), |Table(peers, h)|, 0, 0,
                  seq(|m.files|, k requires 0 <= k < |m.files| => (m.files[k].path, m.files[k].length))))
    }
  }

  /** The loop of `_connect_to_peers` over the peers of a torrent. */
  method ConnectLoop(snapshot: seq<Peer>, ok: Address -> bool) returns (table: seq<Peer>, count: nat)
    ensures (table, count) == Connect(snapshot, ok, MAX_PEER_CONNECTIONS)
  {
    table := snapshot;
    count := 0;
    var i := 0;
    while i < |snapshot|
      invariant i <= |table| == |snapshot| && count <= MAX_PEER_CONNECTIONS
      invariant var rest := ConnectFrom(table, ok, i, MAX_PEER_CONNECTIONS - count);
        (rest.0, count + rest.1) == Connect(snapshot, ok, MAX_PEER_CONNECTIONS)
    {
      if count >= MAX_PEER_CONNECTIONS {
        break;
      }
      var peer := table[i];
      if !peer.connected {
        if ok(Addr(peer)) {
          table := table[i := peer.(connected := true)];
          count := count + 1;
        } else {
          assert table[i := peer.(connected := false)] == table;
          table := table[i := peer.(connected := false)];
        }
      }
      i := i + 1;
    }
  }

  /** Connecting peers keeps addresses unique. */
  lemma ConnectKeepsAddrs(table: seq<Peer>, ok: Address -> bool, budget: nat)
    requires UniqueAddrs(table)
    ensures UniqueAddrs(Connect(table, ok, budget).0)
  {
    var t := Connect(table, ok, budget).0;
    forall k | 0 <= k < |table| ensures Addr(t[k]) == Addr(table[k]) {
      assert t[k] == table[k] || t[k] == table[k].(connected := true);
    }
  }
}
