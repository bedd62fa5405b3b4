/** The announce bookkeeping of bitTorrentClient/announce.go: the total size
    of a torrent (`GetTotalLength`), the counters and event an `Announcer`
    keeps for its tracker requests, and the parameters of the request.

    Go's `+=` and `-` on int64 wrap around; the model writes that out with
    Wrap64 and proves that the results are exact whenever the mathematical
    values fit in an int64. */
module Announce {
  import opened Base
  import opened Decimal
  import opened Bencode
  import opened Metainfo

  /** The errors of GetTotalLength, one per `fmt.Errorf` message. */
  datatype TotalLengthError =
    | NoInfoDictionary
    | NoFilesList
    | InvalidFileEntry
    | FileEntryMissingLength

  /** The length GetTotalLength's loop reads from one entry of `files`. */
  function FileLengthOf(v: Value): Result<int64, TotalLengthError>
  {
    if !v.Dict? then Err(InvalidFileEntry)
    else if LengthKey in v.entries && v.entries[LengthKey].Int? then Ok(v.entries[LengthKey].n)
    else Err(FileEntryMissingLength)
  }

  /** The mathematical sum of some lengths. */
  function Sum(xs: seq<int64>): int
  {
    if xs == [] then 0 else Sum(xs[..|xs| - 1]) + xs[|xs| - 1]
  }

  /** What GetTotalLength returns for a decoded torrent: the single-file
      `length` if there is an integer one, otherwise the int64 sum (with
      wrap-around) of the lengths of all of `files`. */
  function TotalLengthOf(decoded: Dictionary): Result<int64, TotalLengthError>
  {
    if InfoKey !in decoded || !decoded[InfoKey].Dict? then Err(NoInfoDictionary)
    else
      var info := decoded[InfoKey].entries;
      if LengthKey in info && info[LengthKey].Int? then Ok(info[LengthKey].n)
      else if FilesKey !in info || !info[FilesKey].List? then Err(NoFilesList)
      else match MapAll(info[FilesKey].items, FileLengthOf)
        case Err(e) => Err(e)
        case Ok(lengths) => Ok(Wrap64(Sum(lengths)))
  }

  /** GetTotalLength over a bencode-decoded torrent: the loop accumulates
      into an int64 `total`. */
  method GetTotalLength(decoded: Dictionary) returns (r: Result<int64, TotalLengthError>)
    ensures r == TotalLengthOf(decoded)
  {
    if InfoKey !in decoded || !decoded[InfoKey].Dict? {
      return Err(NoInfoDictionary);
    }
    var info := decoded[InfoKey].entries;
    if LengthKey in info && info[LengthKey].Int? {
      return Ok(info[LengthKey].n);
    }
    if FilesKey !in info || !info[FilesKey].List? {
      return Err(NoFilesList);
    }
    var files := info[FilesKey].items;
    var total: int64 := 0;
    ghost var lengths: seq<int64> := [];
    var i := 0;
    while i < |files|
      invariant i <= |files|
      invariant MapAll(files[..i], FileLengthOf) == Ok(lengths)
      invariant total == Wrap64(Sum(lengths))
    {
      var f := files[i];
      if !f.Dict? {
        MapAllFirstError(files, FileLengthOf, i);
        return Err(InvalidFileEntry);
      }
      if LengthKey !in f.entries || !f.entries[LengthKey].Int? {
        MapAllFirstError(files, FileLengthOf, i);
        return Err(FileEntryMissingLength);
      }
      var length := f.entries[LengthKey].n;
      MapAllSnoc(files, FileLengthOf, i, lengths);
      SumSnoc(lengths, length);
      Wrap64Add(Sum(lengths), length);
      total := Wrap64(total + length);
      lengths := lengths + [length];
      i := i + 1;
    }
    assert files[..i] == files;
    return Ok(total);
  }

  lemma {:induction false} SumSnoc(xs: seq<int64>, x: int64)
    ensures Sum(xs + [x]) == Sum(xs) + x
  {
    assert (xs + [x])[..|xs|] == xs;
  }

  /** For a torrent that parseTorrentInfo accepts, GetTotalLength agrees
      with the parsed info: the single file's length, or the sum of the
      files' lengths (exact when it fits in an int64). */
  lemma TotalLengthOfValidInfo(decoded: Dictionary)
    requires InfoKey in decoded && decoded[InfoKey].Dict?
    requires InfoOf(decoded[InfoKey].entries).Ok?
    ensures var info := InfoOf(decoded[InfoKey].entries).value;
      TotalLengthOf(decoded) == Ok(Wrap64(info.length + FileLengths(info.files)))
  {
    var m := decoded[InfoKey].entries;
    var info := InfoOf(m).value;
    LengthOrFiles(m);
    hide InfoOf, MapAll;
    if FilesKey in m {
      var items := m[FilesKey].items;
      FileLengthsAgree(items, info.files);
      var lengths := MapAll(items, FileLengthOf).value;
      assert TotalLengthOf(decoded) == Ok(Wrap64(Sum(lengths)));
    } else {
      assert TotalLengthOf(decoded) == Ok(info.length);
      assert FileLengths(info.files) == 0;
    }
  }

  /** Entries that parseTorrentInfo accepts as `files` are entries whose
      lengths GetTotalLength reads, and they add up to the same total. */
  lemma FileLengthsAgree(items: seq<Value>, files: seq<TorrentFile>)
    requires |files| == |items|
    requires forall i :: 0 <= i < |items| ==> FileOf(items[i]) == Ok(files[i])
    ensures MapAll(items, FileLengthOf).Ok?
    ensures Sum(MapAll(items, FileLengthOf).value) == FileLengths(files)
  {
    var lengths := seq(|files|, i requires 0 <= i < |files| => files[i].length);
    forall i | 0 <= i < |items| ensures FileLengthOf(items[i]) == Ok(lengths[i]) {
      FileOfIff(items[i], files[i]);
    }
    var r := MapAll(items, FileLengthOf);
    assert r.Ok?;
    assert r.value == lengths;
    FileLengthsSum(files, lengths);
  }

  /** The mathematical total of the files' lengths. */
  function FileLengths(files: seq<TorrentFile>): int
  {
    if files == [] then 0 else FileLengths(files[..|files| - 1]) + files[|files| - 1].length
  }

  lemma {:induction false} FileLengthsSum(files: seq<TorrentFile>, lengths: seq<int64>)
    requires |lengths| == |files|
    requires forall i :: 0 <= i < |files| ==> lengths[i] == files[i].length
    ensures FileLengths(files) == Sum(lengths)
    decreases |files|
  {
    if files != [] {
      FileLengthsSum(files[..|files| - 1], lengths[..|lengths| - 1]);
    }
  }

  /** The request parameters an Announcer keeps (`urlParams`). */
  datatype UrlParams = UrlParams(
    infoHash: seq<byte>,
    peerId: seq<byte>,
    port: seq<byte>,
    uploaded: int64,
    downloaded: int64,
    left: int64,
    compact: seq<byte>,
    event: seq<byte>)

  const Started: seq<byte> := Ascii("started")
  const Completed: seq<byte> := Ascii("completed")
  const Stopped: seq<byte> := Ascii("stopped")

  /** The event setEvent stores: one of the three tracker events, or "". */
  function EventFor(newEvent: seq<byte>): (r: seq<byte>)
  {
    if newEvent == Started || newEvent == Completed || newEvent == Stopped then newEvent else []
  }

  /** setEvent keeps exactly the three tracker events and turns everything
      else into "", so applying it again changes nothing. */
  lemma EventForSpec(e: seq<byte>)
    ensures EventFor(e) == e <==> e == Started || e == Completed || e == Stopped || e == []
    ensures EventFor(e) in {Started, Completed, Stopped, []}
    ensures EventFor(EventFor(e)) == EventFor(e)
  {
    assert |Started| == 7 && |Completed| == 9 && |Stopped| == 7;
  }

  /** The new parameters after handleNewPieceLeeched(b). */
  function Leeched(p: UrlParams, totalSize: int64, b: int64): UrlParams
  {
    var downloaded := Wrap64(p.downloaded + b);
    p.(downloaded := downloaded, left := Wrap64(totalSize - downloaded))
  }

  /** handleNewPieceLeeched adds exactly b to `downloaded` when no overflow
      occurs, leaves `left` equal to TotalSize - downloaded when that fits,
      and changes no other parameter. */
  lemma LeechedSpec(p: UrlParams, totalSize: int64, b: int64)
    ensures MinInt64 <= p.downloaded + b <= MaxInt64 ==> Leeched(p, totalSize, b).downloaded == p.downloaded + b
    ensures var q := Leeched(p, totalSize, b);
      MinInt64 <= totalSize - q.downloaded <= MaxInt64 ==> q.left == totalSize - q.downloaded
    ensures Leeched(p, totalSize, b).(downloaded := p.downloaded, left := p.left) == p
  {
  }

  /** Two calls of handleNewPieceLeeched count like one call with the sum
      of their arguments (in int64 arithmetic). */
  lemma LeechedTwice(p: UrlParams, totalSize: int64, a: int64, b: int64)
    ensures Leeched(Leeched(p, totalSize, a), totalSize, b) == Leeched(p, totalSize, Wrap64(a + b))
  {
    hide Wrap64;
    var d := p.downloaded;
    calc {
      Wrap64(Wrap64(d + a) + b);
      { Wrap64Add(d + a, b); }
      Wrap64(d + a + b);
      { assert d + a + b == a + b + d; }
      Wrap64(a + b + d);
      { Wrap64Add(a + b, d); }
      Wrap64(Wrap64(a + b) + d);
    }
    assert Wrap64(Wrap64(a + b) + d) == Wrap64(d + Wrap64(a + b));
  }

  const InfoHashParam: seq<byte> := Ascii("info_hash")
  const PeerIdParam: seq<byte> := Ascii("peer_id")
  const PortParam: seq<byte> := Ascii("port")
  const UploadedParam: seq<byte> := Ascii("uploaded")
  const DownloadedParam: seq<byte> := Ascii("downloaded")
  const LeftParam: seq<byte> := Ascii("left")
  const CompactParam: seq<byte> := Ascii("compact")
  const EventParam: seq<byte> := Ascii("event")

  /** An Announcer: the tracker URL, the piece size, the total size and the
      request parameters. */
  class Announcer {
    const announceUrl: seq<byte>
    const pieceSize: int64
    var totalSize: int64
    var urlParams: UrlParams

    /** The struct literal that ends NewAnnouncer, given the announce URL,
        piece length, total length, info hash and peer id it computes:
        nothing uploaded or downloaded, port 6881, compact responses, event
        "started". TotalSize is left at zero, as the literal leaves it. */
    constructor (announceUrl: seq<byte>, pieceSize: int64, totalLength: int64, infoHash: seq<byte>, peerId: seq<byte>)
      ensures this.announceUrl == announceUrl && this.pieceSize == pieceSize && totalSize == 0
      ensures urlParams == UrlParams(infoHash, peerId, Ascii("6881"), 0, 0, totalLength, Ascii("1"), Started)
    {
      this.announceUrl := announceUrl;
      this.pieceSize := pieceSize;
      totalSize := 0;
      urlParams := UrlParams(infoHash, peerId, Ascii("6881"), 0, 0, totalLength, Ascii("1"), Started);
    }

    /** handleNewPieceLeeched: count b more bytes downloaded and recompute
        `left`. */
    method HandleNewPieceLeeched(bytesDownloaded: int64)
      modifies this
      ensures urlParams == Leeched(old(urlParams), totalSize, bytesDownloaded)
      ensures totalSize == old(totalSize)
    {
      urlParams := urlParams.(downloaded := Wrap64(urlParams.downloaded + bytesDownloaded));
      urlParams := urlParams.(left := Wrap64(totalSize - urlParams.downloaded));
    }

    /** handleNewPieceSeeded: count one more piece uploaded. */
    method HandleNewPieceSeeded()
      modifies this
      ensures urlParams == old(urlParams).(uploaded := Wrap64(old(urlParams).uploaded + pieceSize))
      ensures totalSize == old(totalSize)
    {
      urlParams := urlParams.(uploaded := Wrap64(urlParams.uploaded + pieceSize));
    }

    /** setEvent: store a tracker event, or "" for anything else. */
    method SetEvent(newEvent: seq<byte>)
      modifies this
      ensures urlParams == old(urlParams).(event := EventFor(newEvent))
      ensures totalSize == old(totalSize)
    {
      if newEvent == Started {
        urlParams := urlParams.(event := newEvent);
      } else if newEvent == Completed {
        urlParams := urlParams.(event := newEvent);
      } else if newEvent == Stopped {
        urlParams := urlParams.(event := newEvent);
      } else {
        urlParams := urlParams.(event := []);
      }
    }

    /** The parameter set generateEncodedURL builds before encoding it: the
        seven fixed parameters, the counters in decimal, and `event` only
        when there is one. */
    method GenerateParams() returns (params: map<seq<byte>, seq<byte>>)
      ensures params.Keys == RequiredParams() + (if urlParams.event != [] then {EventParam} else {})
      ensures params[InfoHashParam] == urlParams.infoHash && params[PeerIdParam] == urlParams.peerId
      ensures params[PortParam] == urlParams.port && params[CompactParam] == urlParams.compact
      ensures params[UploadedParam] == FormatInt(urlParams.uploaded) && ParseInt(params[UploadedParam]) == Ok(urlParams.uploaded)
      ensures params[DownloadedParam] == FormatInt(urlParams.downloaded) && ParseInt(params[DownloadedParam]) == Ok(urlParams.downloaded)
      ensures params[LeftParam] == FormatInt(urlParams.left) && ParseInt(params[LeftParam]) == Ok(urlParams.left)
      ensures EventParam in params ==> params[EventParam] == urlParams.event
    {
      params := map[];
      params := params[InfoHashParam := urlParams.infoHash];
      params := params[PeerIdParam := urlParams.peerId];
      params := params[PortParam := urlParams.port];
      params := params[UploadedParam := FormatInt(urlParams.uploaded)];
      params := params[DownloadedParam := FormatInt(urlParams.downloaded)];
      params := params[LeftParam := FormatInt(urlParams.left)];
      params := params[CompactParam := urlParams.compact];
      if urlParams.event != [] {
        params := params[EventParam := urlParams.event];
      }
      assert PortParam[0] != LeftParam[0] && PeerIdParam[0] != CompactParam[0];
      FormatParse(urlParams.uploaded);
      FormatParse(urlParams.downloaded);
      FormatParse(urlParams.left);
    }
  }

  function RequiredParams(): set<seq<byte>>
  {
    {InfoHashParam, PeerIdParam, PortParam, UploadedParam, DownloadedParam, LeftParam, CompactParam}
  }
}
