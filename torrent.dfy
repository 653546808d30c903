/** The metainfo layout of `Torrent` (src/core/torrent.py): the piece-hash
    list cut into 20-byte SHA-1 digests, the single-file and multi-file
    layouts of section "metainfo files" of BEP 3, and the magnet URI of BEP 9.
    The bencode decoder is not part of this model: `MetaFile` is the already
    decoded dictionary.  SHA-1, bencode encoding and URL quoting are opaque
    functions handed in by the caller. */
module Metainfo {
  import opened Wrappers
  import opened Bytes

  /** `Torrent.block_length`: the 16 KiB request size. */
  const BLOCK_LENGTH: nat := 16384

  /** Length of one SHA-1 digest in the `pieces` string. */
  const HASH_LENGTH: nat := 20

  /** One element of the `files` list of a multi-file info dictionary. */
  datatype FileInfo = FileInfo(path: seq<string>, length: int)

  /** A single-file info dictionary has `length`; a multi-file one has `files`. */
  datatype Layout = SingleFile(length: int) | MultiFile(files: seq<FileInfo>)

  /** The decoded `info` dictionary. */
  datatype Info = Info(name: string, pieceLength: int, pieces: seq<byte>, layout: Layout)

  /** The decoded top-level dictionary: `announce` is optional. */
  datatype MetaFile = MetaFile(announce: Option<string>, info: Info)

  /** One element of `Torrent.files`.  A path is kept as its list of
      components (`os.path.join` is not modelled). */
  datatype FileEntry = FileEntry(path: seq<string>, length: int, offset: int)

  // ----- the piece-hash list -----

  /** `[pieces[i:i+20] for i in range(0, len(pieces), 20)]`. */
  function SplitPieces(pieces: seq<byte>): (r: seq<seq<byte>>)
    ensures |r| == (|pieces| + HASH_LENGTH - 1) / HASH_LENGTH
    ensures forall i :: 0 <= i < |r| ==> 0 < |r[i]| <= HASH_LENGTH
    ensures forall i :: 0 <= i < |r| - 1 ==> |r[i]| == HASH_LENGTH
    ensures |pieces| % HASH_LENGTH == 0 ==> forall i :: 0 <= i < |r| ==> |r[i]| == HASH_LENGTH
    decreases |pieces|
  {
    if pieces == [] then []
    else if |pieces| <= HASH_LENGTH then [pieces]
    else [pieces[..HASH_LENGTH]] + SplitPieces(pieces[HASH_LENGTH..])
  }

  function Concat(chunks: seq<seq<byte>>): seq<byte>
  {
    if chunks == [] then [] else chunks[0] + Concat(chunks[1..])
  }

  /** The digests are consecutive slices: concatenated, they give back the
      original string. */
  lemma {:induction false} SplitPiecesConcat(pieces: seq<byte>)
    ensures Concat(SplitPieces(pieces)) == pieces
    decreases |pieces|
  {
    if |pieces| > HASH_LENGTH {
      SplitPiecesConcat(pieces[HASH_LENGTH..]);
      assert pieces == pieces[..HASH_LENGTH] + pieces[HASH_LENGTH..];
    }
  }

  /** Digest i is the slice `pieces[20*i : 20*i+20]`. */
  lemma {:induction false} SplitPiecesAt(pieces: seq<byte>, i: nat)
    requires i < |SplitPieces(pieces)|
    ensures 20 * i < |pieces|
    ensures SplitPieces(pieces)[i] == pieces[20 * i .. if 20 * i + 20 <= |pieces| then 20 * i + 20 else |pieces|]
    decreases |pieces|
  {
    if i > 0 {
      SplitPiecesAt(pieces[HASH_LENGTH..], i - 1);
    }
  }

  // ----- file layouts -----

  function SumLengths(fs: seq<FileInfo>): int
  {
    if fs == [] then 0 else SumLengths(fs[..|fs| - 1]) + fs[|fs| - 1].length
  }

  /** The entries `_parse_multi_file` appends, one per input file, in input
      order: the path is prefixed with the torrent name and the offset is the
      sum of the lengths of the files before it. */
  function MultiFileEntries(name: string, fs: seq<FileInfo>): (r: seq<FileEntry>)
    ensures |r| == |fs|
  {
    seq(|fs|, i requires 0 <= i < |fs| => FileEntry([name] + fs[i].path, fs[i].length, SumLengths(fs[..i])))
  }

  /** `Torrent.files` for an info dictionary. */
  function FilesOf(info: Info): seq<FileEntry>
  {
    match info.layout
    case SingleFile(length) => [FileEntry([info.name], length, 0)]
    case MultiFile(fs) => MultiFileEntries(info.name, fs)
  }

  /** `Torrent.total_size` for an info dictionary. */
  function TotalSizeOf(info: Info): int
  {
    match info.layout
    case SingleFile(length) => length
    case MultiFile(fs) => SumLengths(fs)
  }

  /** Multi-file entries lie end to end: the first starts at 0, each next one
      starts where the previous one ends, and the last ends at `total_size`. */
  lemma MultiFileContiguous(name: string, fs: seq<FileInfo>)
    ensures var r := MultiFileEntries(name, fs);
      && (|r| > 0 ==> r[0].offset == 0)
      && (forall i :: 0 <= i < |r| - 1 ==> r[i + 1].offset == r[i].offset + r[i].length)
      && (|r| > 0 ==> r[|r| - 1].offset + r[|r| - 1].length == SumLengths(fs))
      && (|r| == 0 ==> SumLengths(fs) == 0)
  {
    var r := MultiFileEntries(name, fs);
    forall i | 0 <= i < |r| - 1
      ensures r[i + 1].offset == r[i].offset + r[i].length
    {
      assert fs[..i + 1][..i] == fs[..i];
    }
    if |r| > 0 {
      assert fs[..|fs|] == fs;
      assert fs[..|fs|][..|fs| - 1] == fs[..|fs| - 1];
    }
  }

  /** The single-file layout has one entry at offset 0 covering the whole
      torrent, named after the torrent. */
  lemma SingleFileLayout(info: Info)
    requires info.layout.SingleFile?
    ensures |FilesOf(info)| == 1
    ensures FilesOf(info)[0] == FileEntry([info.name], TotalSizeOf(info), 0)
  {
  }

  /** `is_multi_file` looks only at the number of entries: a multi-file
      dictionary listing a single file is reported as single-file. */
  lemma IsMultiFileOf(info: Info)
    ensures (|FilesOf(info)| > 1) <==> (info.layout.MultiFile? && |info.layout.files| > 1)
  {
  }

  // ----- the object -----

  class Torrent {
    var totalSize: int
    var pieceLength: int
    var pieces: seq<seq<byte>>
    var announce: string
    var infoHash: seq<byte>
    const blockLength: nat
    var files: seq<FileEntry>
    var outputFile: string

    /** `Torrent(path)`: the fields start empty and `_parse` fills them from
        the decoded file.  `sha1` and `bencode` stand for `hashlib.sha1` and
        `bencodepy.encode`. */
    constructor (meta: MetaFile, sha1: seq<byte> -> seq<byte>, bencode: Info -> seq<byte>)
      ensures announce == meta.announce.GetOr("")
      ensures infoHash == sha1(bencode(meta.info))
      ensures pieceLength == meta.info.pieceLength
      ensures pieces == SplitPieces(meta.info.pieces)
      ensures blockLength == BLOCK_LENGTH
      ensures files == FilesOf(meta.info)
      ensures totalSize == TotalSizeOf(meta.info)
      ensures outputFile == meta.info.name
    {
      totalSize := 0;
      pieceLength := 0;
      pieces := [];
      announce := "";
      infoHash := [];
      blockLength := BLOCK_LENGTH;
      files := [];
      outputFile := "";
      new;
      Parse(meta, sha1, bencode);
    }

    method Parse(meta: MetaFile, sha1: seq<byte> -> seq<byte>, bencode: Info -> seq<byte>)
      requires files == []
      modifies this
      ensures announce == meta.announce.GetOr("")
      ensures infoHash == sha1(bencode(meta.info))
      ensures pieceLength == meta.info.pieceLength
      ensures pieces == SplitPieces(meta.info.pieces)
      ensures files == FilesOf(meta.info)
      ensures totalSize == TotalSizeOf(meta.info)
      ensures outputFile == meta.info.name
    {
      announce := meta.announce.GetOr("");
      var info := meta.info;
      infoHash := sha1(bencode(info));
      pieceLength := info.pieceLength;
      pieces := SplitPieces(info.pieces);
      if info.layout.MultiFile? {
        ParseMultiFile(info);
      } else {
        ParseSingleFile(info);
      }
    }

    method ParseSingleFile(info: Info)
      requires info.layout.SingleFile?
      modifies this`outputFile, this`totalSize, this`files
      ensures outputFile == info.name
      ensures totalSize == info.layout.length
      ensures files == [FileEntry([outputFile], info.layout.length, 0)]
    {
      outputFile := info.name;
      var fileLength := info.layout.length;
      totalSize := fileLength;
      files := [FileEntry([outputFile], fileLength, 0)];
    }

    /** Appends one entry per file, accumulating the running offset. */
    method ParseMultiFile(info: Info)
      requires info.layout.MultiFile?
      modifies this`outputFile, this`totalSize, this`files
      ensures outputFile == info.name
      ensures files == old(files) + MultiFileEntries(info.name, info.layout.files)
      ensures totalSize == SumLengths(info.layout.files)
    {
      var directory := info.name;
      outputFile := directory;
      var offset := 0;
      var fs := info.layout.files;
      var i := 0;
      while i < |fs|
        invariant 0 <= i <= |fs|
        invariant offset == SumLengths(fs[..i]) && outputFile == directory
        invariant files == old(files) + MultiFileEntries(directory, fs)[..i]
      {
        var fileLength := fs[i].length;
        files := files + [FileEntry([directory] + fs[i].path, fileLength, offset)];
        offset := offset + fileLength;
        assert fs[..i + 1][..i] == fs[..i];
        i := i + 1;
      }
      assert fs[..i] == fs;
      totalSize := offset;
    }

    /** `is_multi_file`. */
    predicate IsMultiFile()
      reads this
    {
      |files| > 1
    }
  }

  // ----- magnet link -----

  /** `get_magnet_link`: `trackers` is what `get_announce_list` returned and
      `quote` stands for `urllib.parse.quote`. */
  function MagnetLink(infoHash: seq<byte>, outputFile: string, trackers: seq<string>, quote: string -> string): (link: string)
  {
    var quoted := seq(|trackers|, i requires 0 <= i < |trackers| => quote(trackers[i]));
    "magnet:?xt=" + "urn:btih:" + Hex(infoHash) + "&dn=" + quote(outputFile) + "&tr=" + Join(quoted, "&tr=")
  }

  const MagnetPrefix: string := "magnet:?xt=urn:btih:"

  /** The info-hash can be read back from the link: it is the hexadecimal
      text right after the prefix, followed by the display name. */
  lemma MagnetLinkInfoHash(infoHash: seq<byte>, outputFile: string, trackers: seq<string>, quote: string -> string)
    ensures var link := MagnetLink(infoHash, outputFile, trackers, quote);
      && |link| >= |MagnetPrefix| + 2 * |infoHash| + 4
      && link[..|MagnetPrefix|] == MagnetPrefix
      && UnHex(link[|MagnetPrefix| .. |MagnetPrefix| + 2 * |infoHash|]) == infoHash
      && link[|MagnetPrefix| + 2 * |infoHash| ..][..4] == "&dn="
  {
    var link := MagnetLink(infoHash, outputFile, trackers, quote);
    var quoted := seq(|trackers|, i requires 0 <= i < |trackers| => quote(trackers[i]));
    var rest := "&dn=" + quote(outputFile) + "&tr=" + Join(quoted, "&tr=");
    assert link == MagnetPrefix + Hex(infoHash) + rest;
    assert link[|MagnetPrefix| .. |MagnetPrefix| + 2 * |infoHash|] == Hex(infoHash);
    assert link[|MagnetPrefix| + 2 * |infoHash| ..] == rest;
    UnHexHex(infoHash);
  }

  /** With no trackers the link still ends in an empty `&tr=` parameter. */
  lemma MagnetLinkNoTrackers(infoHash: seq<byte>, outputFile: string, quote: string -> string)
    ensures var link := MagnetLink(infoHash, outputFile, [], quote);
      |link| >= 4 && link[|link| - 4..] == "&tr="
  {
  }
}
