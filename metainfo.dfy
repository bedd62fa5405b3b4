/** The typed view of a torrent file: `DecodeTorrent`, `parseTorrent` and
    `parseTorrentInfo` of bitTorrentClient/bencodeDecoder.go, and the
    `Torrent`, `TorrentInfo` and `TorrentFile` structs they fill.

    TorrentOf and InfoOf state, as functions of the decoded value, what the
    Go functions return; the methods ParseTorrent and ParseTorrentInfo do it
    the way the Go code does (field by field, appending in loops) and are
    proved to return exactly that. The lemmas state the rules the
    projection enforces. */
module Metainfo {
  import opened Base
  import opened Bencode
  import Canonical

  const AnnounceKey: seq<byte> := Ascii("announce")
  const AnnounceListKey: seq<byte> := Ascii("announce-list")
  const CreationDateKey: seq<byte> := Ascii("creation date")
  const CommentKey: seq<byte> := Ascii("comment")
  const CreatedByKey: seq<byte> := Ascii("created by")
  const InfoKey: seq<byte> := Ascii("info")
  const PieceLengthKey: seq<byte> := Ascii("piece length")
  const PiecesKey: seq<byte> := Ascii("pieces")
  const NameKey: seq<byte> := Ascii("name")
  const PrivateKey: seq<byte> := Ascii("private")
  const LengthKey: seq<byte> := Ascii("length")
  const FilesKey: seq<byte> := Ascii("files")
  const PathKey: seq<byte> := Ascii("path")

  type Dictionary = map<seq<byte>, Value>

  datatype TorrentFile = TorrentFile(length: int64, path: seq<seq<byte>>)

  datatype TorrentInfo = TorrentInfo(
    pieceLength: int64,
    pieces: seq<byte>,
    private: int64,
    name: seq<byte>,
    length: int64,
    files: seq<TorrentFile>)

  datatype Torrent = Torrent(
    announce: seq<byte>,
    announceList: seq<seq<seq<byte>>>,
    creationDate: int64,
    comment: seq<byte>,
    createdBy: seq<byte>,
    info: TorrentInfo)

  /** Go's zero values for the two structs. */
  const NoInfo: TorrentInfo := TorrentInfo(0, [], 0, [], 0, [])
  const NoTorrent: Torrent := Torrent([], [], 0, [], [], NoInfo)

  /** The errors of parseTorrentInfo, one per `errors.New` message. */
  datatype InfoError =
    | MissingPieceLength
    | PieceLengthNotInteger
    | MissingPieces
    | PiecesNotString
    | MissingName
    | PrivateNotInteger
    | BothLengthAndFiles
    | LengthNotInteger
    | FilesNotList
    | FileEntryNotDict
    | FileMissingLength
    | FileLengthNotInteger
    | FileMissingPath
    | FilePathNotList
    | PathPartNotString
    | MissingLengthAndFiles

  /** The errors of parseTorrent; InfoInvalid is "error parsing info: ..."
      wrapped around the error of parseTorrentInfo. */
  datatype TorrentError =
    | TopLevelNotDict
    | MissingAnnounce
    | AnnounceListNotList
    | TierNotList
    | NonStringUrl
    | CreationDateNotInteger
    | MissingInfo
    | InfoNotDict
    | InfoInvalid(cause: InfoError)

  /** DecodeTorrent fails with the decoder's error or with parseTorrent's. */
  datatype LoadError = DecodeFailed(decodeError: DecodeError) | Invalid(reason: TorrentError)

  /** The Go loops `for _, x := range xs { y, ok := ...; if !ok { return
      err }; ys = append(ys, y) }`: convert every element in order, and stop
      at the first one that does not convert. */
  function MapAll<T, E>(xs: seq<Value>, f: Value -> Result<T, E>): (r: Result<seq<T>, E>)
    ensures r.Ok? <==> forall i :: 0 <= i < |xs| ==> f(xs[i]).Ok?
    ensures r.Ok? ==> |r.value| == |xs| && forall i :: 0 <= i < |xs| ==> f(xs[i]) == Ok(r.value[i])
    ensures r.Err? ==> exists i :: 0 <= i < |xs| && f(xs[i]) == Err(r.error) && AllOk(xs[..i], f)
  {
    if xs == [] then Ok([])
    else
      var init, last := xs[..|xs| - 1], xs[|xs| - 1];
      match MapAll(init, f)
      case Err(e) =>
        assert forall j :: 0 <= j < |init| ==> init[j] == xs[j];
        assert forall i :: 0 <= i < |init| ==> init[..i] == xs[..i];
        Err(e)
      case Ok(ys) =>
        match f(last)
        case Err(e) =>
          assert xs[..|xs| - 1] == init;
          Err(e)
        case Ok(y) => Ok(ys + [y])
  }

  predicate AllOk<T, E>(xs: seq<Value>, f: Value -> Result<T, E>)
  {
    forall i :: 0 <= i < |xs| ==> f(xs[i]).Ok?
  }

  /** The first element that does not convert decides the error. */
  lemma {:induction false} MapAllFirstError<T, E>(xs: seq<Value>, f: Value -> Result<T, E>, i: nat)
    requires i < |xs| && AllOk(xs[..i], f) && f(xs[i]).Err?
    ensures MapAll(xs, f) == Err(f(xs[i]).error)
  {
    var r := MapAll(xs, f);
    assert !AllOk(xs, f) && r.Err?;
    var k :| 0 <= k < |xs| && f(xs[k]) == Err(r.error) && AllOk(xs[..k], f);
    assert k == i;
  }

  /** One more turn of a conversion loop. */
  lemma {:induction false} MapAllSnoc<T, E>(xs: seq<Value>, f: Value -> Result<T, E>, i: nat, ys: seq<T>)
    requires i < |xs| && MapAll(xs[..i], f) == Ok(ys) && f(xs[i]).Ok?
    ensures MapAll(xs[..i + 1], f) == Ok(ys + [f(xs[i]).value])
  {
    assert xs[..i + 1][..i] == xs[..i];
  }

  /** A URL of an announce-list tier. */
  function UrlOf(v: Value): Result<seq<byte>, TorrentError>
  {
    if v.Str? then Ok(v.bytes) else Err(NonStringUrl)
  }

  /** One tier of announce-list: a list of URLs. */
  function TierOf(v: Value): Result<seq<seq<byte>>, TorrentError>
  {
    if v.List? then MapAll(v.items, UrlOf) else Err(TierNotList)
  }

  /** A part of a file's path. */
  function PathPartOf(v: Value): Result<seq<byte>, InfoError>
  {
    if v.Str? then Ok(v.bytes) else Err(PathPartNotString)
  }

  /** One entry of `files`: a dictionary with an integer `length` and a
      `path` that is a list of strings, checked in that order. */
  function FileOf(v: Value): Result<TorrentFile, InfoError>
  {
    if !v.Dict? then Err(FileEntryNotDict)
    else
      var m := v.entries;
      if LengthKey !in m then Err(FileMissingLength)
      else if !m[LengthKey].Int? then Err(FileLengthNotInteger)
      else if PathKey !in m then Err(FileMissingPath)
      else if !m[PathKey].List? then Err(FilePathNotList)
      else match MapAll(m[PathKey].items, PathPartOf)
        case Err(e) => Err(e)
        case Ok(path) => Ok(TorrentFile(m[LengthKey].n, path))
  }

  /** The string under `key`, or "" when it is absent or not a string. */
  function TextOr(m: Dictionary, key: seq<byte>): seq<byte>
  {
    if key in m && m[key].Str? then m[key].bytes else []
  }

  /** What parseTorrentInfo returns for the info dictionary `m`. */
  function InfoOf(m: Dictionary): Result<TorrentInfo, InfoError>
  {
    if PieceLengthKey !in m then Err(MissingPieceLength)
    else if !m[PieceLengthKey].Int? then Err(PieceLengthNotInteger)
    else if PiecesKey !in m then Err(MissingPieces)
    else if !m[PiecesKey].Str? then Err(PiecesNotString)
    else if NameKey !in m || !m[NameKey].Str? then Err(MissingName)
    else if PrivateKey in m && !m[PrivateKey].Int? then Err(PrivateNotInteger)
    else if LengthKey in m && FilesKey in m then Err(BothLengthAndFiles)
    else
      var info := TorrentInfo(m[PieceLengthKey].n, m[PiecesKey].bytes,
        if PrivateKey in m then m[PrivateKey].n else 0, m[NameKey].bytes, 0, []);
      if LengthKey in m then
        if m[LengthKey].Int? then Ok(info.(length := m[LengthKey].n)) else Err(LengthNotInteger)
      else if FilesKey in m then
        if !m[FilesKey].List? then Err(FilesNotList)
        else match MapAll(m[FilesKey].items, FileOf)
          case Err(e) => Err(e)
          case Ok(files) => Ok(info.(files := files))
      else Err(MissingLengthAndFiles)
  }

  /** What parseTorrent returns for the decoded value `v`. */
  function TorrentOf(v: Value): Result<Torrent, TorrentError>
  {
    if !v.Dict? then Err(TopLevelNotDict)
    else
      var m := v.entries;
      if AnnounceKey !in m || !m[AnnounceKey].Str? then Err(MissingAnnounce)
      else if AnnounceListKey in m && !m[AnnounceListKey].List? then Err(AnnounceListNotList)
      else
        var tiers := if AnnounceListKey in m then MapAll(m[AnnounceListKey].items, TierOf) else Ok([]);
        if tiers.Err? then Err(tiers.error)
        else if CreationDateKey in m && !m[CreationDateKey].Int? then Err(CreationDateNotInteger)
        else if InfoKey !in m then Err(MissingInfo)
        else if !m[InfoKey].Dict? then Err(InfoNotDict)
        else match InfoOf(m[InfoKey].entries)
          case Err(e) => Err(InfoInvalid(e))
          case Ok(info) =>
            Ok(Torrent(m[AnnounceKey].bytes, tiers.value,
              if CreationDateKey in m then m[CreationDateKey].n else 0,
              TextOr(m, CommentKey), TextOr(m, CreatedByKey), info))
  }

  /** What DecodeTorrent returns for a stream holding `input`. */
  function LoadOf(input: seq<byte>): Result<Torrent, LoadError>
  {
    match ValueAt(input, 0)
    case Err(e) => Err(DecodeFailed(e))
    case Ok(data) =>
      match TorrentOf(data.value)
      case Err(e) => Err(Invalid(e))
      case Ok(t) => Ok(t)
  }

  /** parseTorrentInfo: check and copy the fields in the order the Go code
      does, then either `length` or every entry of `files`. */
  method ParseTorrentInfo(infoMap: Dictionary) returns (r: Result<TorrentInfo, InfoError>)
    ensures r == InfoOf(infoMap)
  {
    var info := NoInfo;
    if PieceLengthKey in infoMap {
      var pieceLength := infoMap[PieceLengthKey];
      if !pieceLength.Int? {
        return Err(PieceLengthNotInteger);
      }
      info := info.(pieceLength := pieceLength.n);
    } else {
      return Err(MissingPieceLength);
    }
    if PiecesKey in infoMap {
      var pieces := infoMap[PiecesKey];
      if !pieces.Str? {
        return Err(PiecesNotString);
      }
      info := info.(pieces := pieces.bytes);
    } else {
      return Err(MissingPieces);
    }
    if NameKey in infoMap && infoMap[NameKey].Str? {
      info := info.(name := infoMap[NameKey].bytes);
    } else {
      return Err(MissingName);
    }
    if PrivateKey in infoMap {
      var private := infoMap[PrivateKey];
      if !private.Int? {
        return Err(PrivateNotInteger);
      }
      info := info.(private := private.n);
    }
    var hasLength, hasFiles := LengthKey in infoMap, FilesKey in infoMap;
    if hasLength && hasFiles {
      return Err(BothLengthAndFiles);
    }
    if hasLength {
      var length := infoMap[LengthKey];
      if !length.Int? {
        return Err(LengthNotInteger);
      }
      info := info.(length := length.n);
    } else if hasFiles {
      var filesList := infoMap[FilesKey];
      if !filesList.List? {
        return Err(FilesNotList);
      }
      var files := ParseFiles(filesList.items);
      if files.Err? {
        return Err(files.error);
      }
      info := info.(files := files.value);
    } else {
      return Err(MissingLengthAndFiles);
    }
    return Ok(info);
  }

  /** parseTorrentInfo's loop over `files`: every entry in order. */
  method ParseFiles(files: seq<Value>) returns (r: Result<seq<TorrentFile>, InfoError>)
    ensures r == MapAll(files, FileOf)
  {
    var parsed: seq<TorrentFile> := [];
    var i := 0;
    while i < |files|
      invariant i <= |files|
      invariant MapAll(files[..i], FileOf) == Ok(parsed)
    {
      var file := ParseFile(files[i]);
      if file.Err? {
        MapAllFirstError(files, FileOf, i);
        return Err(file.error);
      }
      MapAllSnoc(files, FileOf, i, parsed);
      parsed := parsed + [file.value];
      i := i + 1;
    }
    assert files[..i] == files;
    return Ok(parsed);
  }

  /** The body of parseTorrentInfo's loop over `files`: one entry. */
  method ParseFile(fileInterface: Value) returns (r: Result<TorrentFile, InfoError>)
    ensures r == FileOf(fileInterface)
  {
    if !fileInterface.Dict? {
      return Err(FileEntryNotDict);
    }
    var fileMap := fileInterface.entries;
    if LengthKey !in fileMap {
      return Err(FileMissingLength);
    }
    var length := fileMap[LengthKey];
    if !length.Int? {
      return Err(FileLengthNotInteger);
    }
    if PathKey !in fileMap {
      return Err(FileMissingPath);
    }
    var pathList := fileMap[PathKey];
    if !pathList.List? {
      return Err(FilePathNotList);
    }
    var parts := pathList.items;
    var path: seq<seq<byte>> := [];
    var j := 0;
    while j < |parts|
      invariant j <= |parts|
      invariant MapAll(parts[..j], PathPartOf) == Ok(path)
    {
      if !parts[j].Str? {
        MapAllFirstError(parts, PathPartOf, j);
        return Err(PathPartNotString);
      }
      MapAllSnoc(parts, PathPartOf, j, path);
      path := path + [parts[j].bytes];
      j := j + 1;
    }
    assert parts[..j] == parts;
    return Ok(TorrentFile(length.n, path));
  }

  /** parseTorrent: the top level must be a dictionary; copy `announce`,
      every tier of `announce-list`, the optional fields, then the parsed
      `info`. */
  method ParseTorrent(data: Value) returns (r: Result<Torrent, TorrentError>)
    ensures r == TorrentOf(data)
  {
    if !data.Dict? {
      return Err(TopLevelNotDict);
    }
    var topLevel := data.entries;
    var torrent := NoTorrent;
    if AnnounceKey in topLevel && topLevel[AnnounceKey].Str? {
      torrent := torrent.(announce := topLevel[AnnounceKey].bytes);
    } else {
      return Err(MissingAnnounce);
    }
    if AnnounceListKey in topLevel {
      var announceList := topLevel[AnnounceListKey];
      if !announceList.List? {
        return Err(AnnounceListNotList);
      }
      var tiers := ParseAnnounceList(announceList.items);
      if tiers.Err? {
        return Err(tiers.error);
      }
      torrent := torrent.(announceList := tiers.value);
    }
    if CreationDateKey in topLevel {
      var creationDate := topLevel[CreationDateKey];
      if !creationDate.Int? {
        return Err(CreationDateNotInteger);
      }
      torrent := torrent.(creationDate := creationDate.n);
    }
    if CommentKey in topLevel && topLevel[CommentKey].Str? {
      torrent := torrent.(comment := topLevel[CommentKey].bytes);
    }
    if CreatedByKey in topLevel && topLevel[CreatedByKey].Str? {
      torrent := torrent.(createdBy := topLevel[CreatedByKey].bytes);
    }
    if InfoKey !in topLevel {
      return Err(MissingInfo);
    }
    var infoMap := topLevel[InfoKey];
    if !infoMap.Dict? {
      return Err(InfoNotDict);
    }
    var info := ParseTorrentInfo(infoMap.entries);
    if info.Err? {
      return Err(InfoInvalid(info.error));
    }
    torrent := torrent.(info := info.value);
    return Ok(torrent);
  }

  /** parseTorrent's two nested loops over announce-list: every tier must
      be a list and every URL in it a string. */
  method ParseAnnounceList(announceList: seq<Value>) returns (r: Result<seq<seq<seq<byte>>>, TorrentError>)
    ensures r == MapAll(announceList, TierOf)
  {
    var tiers: seq<seq<seq<byte>>> := [];
    var i := 0;
    while i < |announceList|
      invariant i <= |announceList|
      invariant MapAll(announceList[..i], TierOf) == Ok(tiers)
    {
      var tier := announceList[i];
      if !tier.List? {
        MapAllFirstError(announceList, TierOf, i);
        return Err(TierNotList);
      }
      var urls := tier.items;
      var tierUrls: seq<seq<byte>> := [];
      var j := 0;
      while j < |urls|
        invariant j <= |urls|
        invariant MapAll(urls[..j], UrlOf) == Ok(tierUrls)
      {
        if !urls[j].Str? {
          MapAllFirstError(urls, UrlOf, j);
          MapAllFirstError(announceList, TierOf, i);
          return Err(NonStringUrl);
        }
        MapAllSnoc(urls, UrlOf, j, tierUrls);
        tierUrls := tierUrls + [urls[j].bytes];
        j := j + 1;
      }
      assert urls[..j] == urls;
      MapAllSnoc(announceList, TierOf, i, tiers);
      tiers := tiers + [tierUrls];
      i := i + 1;
    }
    assert announceList[..i] == announceList;
    return Ok(tiers);
  }

  /** DecodeTorrent: decode one value from the start of the stream, then
      project it. */
  method DecodeTorrent(input: seq<byte>) returns (r: Result<Torrent, LoadError>)
    ensures r == LoadOf(input)
  {
    var decoder := new Decoder(input);
    var data := decoder.Decode();
    if data.Err? {
      return Err(DecodeFailed(data.error));
    }
    var torrent := ParseTorrent(data.value);
    if torrent.Err? {
      return Err(Invalid(torrent.error));
    }
    return Ok(torrent.value);
  }

  /** The top level must be a dictionary holding a string `announce` and an
      `info` dictionary; an error of parseTorrentInfo comes back wrapped. */
  lemma TorrentRequiredFields(v: Value)
    ensures !v.Dict? ==> TorrentOf(v) == Err(TopLevelNotDict)
    ensures v.Dict? && (AnnounceKey !in v.entries || !v.entries[AnnounceKey].Str?) ==>
      TorrentOf(v) == Err(MissingAnnounce)
    ensures TorrentOf(v).Ok? ==>
      && v.Dict? && AnnounceKey in v.entries && InfoKey in v.entries
      && v.entries[AnnounceKey] == Str(TorrentOf(v).value.announce)
      && v.entries[InfoKey].Dict? && InfoOf(v.entries[InfoKey].entries) == Ok(TorrentOf(v).value.info)
    ensures TorrentOf(v).Err? && TorrentOf(v).error.InfoInvalid? ==>
      && v.Dict? && InfoKey in v.entries && v.entries[InfoKey].Dict?
      && InfoOf(v.entries[InfoKey].entries) == Err(TorrentOf(v).error.cause)
  {
  }

  /** announce-list keeps its tiers, and the URLs within each tier, in
      order; without it the list is empty. */
  lemma AnnounceListOrder(v: Value)
    requires TorrentOf(v).Ok?
    ensures var m, list := v.entries, TorrentOf(v).value.announceList;
      if AnnounceListKey in m then
        && m[AnnounceListKey].List?
        && |list| == |m[AnnounceListKey].items|
        && forall i :: 0 <= i < |list| ==>
             && m[AnnounceListKey].items[i].List?
             && |list[i]| == |m[AnnounceListKey].items[i].items|
             && forall j :: 0 <= j < |list[i]| ==> m[AnnounceListKey].items[i].items[j] == Str(list[i][j])
      else list == []
  {
    var m, list := v.entries, TorrentOf(v).value.announceList;
    if AnnounceListKey in m {
      var tiers := m[AnnounceListKey].items;
      forall i | 0 <= i < |list|
        ensures tiers[i].List? && |list[i]| == |tiers[i].items|
        ensures forall j :: 0 <= j < |list[i]| ==> tiers[i].items[j] == Str(list[i][j])
      {
        assert TierOf(tiers[i]) == Ok(list[i]);
        forall j | 0 <= j < |list[i]| ensures tiers[i].items[j] == Str(list[i][j]) {
          assert UrlOf(tiers[i].items[j]) == Ok(list[i][j]);
        }
      }
    }
  }

  /** A `comment` or `created by` that is not a string is ignored: the
      result is the one without the field at all. */
  lemma IgnoredTextField(m: Dictionary, key: seq<byte>, x: Value)
    requires key == CommentKey || key == CreatedByKey
    requires !x.Str?
    ensures TorrentOf(Dict(m[key := x])) == TorrentOf(Dict(m - {key}))
  {
    var m1, m2 := m[key := x], m - {key};
    forall k | k != key
      ensures k in m1 <==> k in m2
      ensures k in m1 ==> m1[k] == m2[k]
    {
    }
    assert |key| != |AnnounceKey| && |key| != |AnnounceListKey| && |key| != |CreationDateKey| && |key| != |InfoKey|;
    assert TextOr(m1, key) == TextOr(m2, key);
    assert CommentKey != CreatedByKey;
  }

  /** An info dictionary is accepted only with exactly one of `length` and
      `files`; with `length` it records that integer and no files, with
      `files` it records every entry, in order, and length 0. */
  lemma LengthOrFiles(m: Dictionary)
    requires InfoOf(m).Ok?
    ensures (LengthKey in m) != (FilesKey in m)
    ensures LengthKey in m ==> m[LengthKey] == Int(InfoOf(m).value.length) && InfoOf(m).value.files == []
    ensures FilesKey in m ==>
      && InfoOf(m).value.length == 0
      && m[FilesKey].List?
      && |InfoOf(m).value.files| == |m[FilesKey].items|
      && forall i :: 0 <= i < |m[FilesKey].items| ==> FileOf(m[FilesKey].items[i]) == Ok(InfoOf(m).value.files[i])
  {
  }

  /** An accepted info dictionary holds an integer `piece length`, a string
      `pieces` and a string `name`, which the parsed info copies; `private`
      is copied when present (and must be an integer) and is 0 otherwise. */
  lemma InfoScalarFields(m: Dictionary)
    requires InfoOf(m).Ok?
    ensures var info := InfoOf(m).value;
      && PieceLengthKey in m && m[PieceLengthKey] == Int(info.pieceLength)
      && PiecesKey in m && m[PiecesKey] == Str(info.pieces)
      && NameKey in m && m[NameKey] == Str(info.name)
      && (if PrivateKey in m then m[PrivateKey] == Int(info.private) else info.private == 0)
  {
  }

  /** `creation date` is optional: an accepted torrent records the integer
      found there, or 0 without it; once `announce` and `announce-list` are
      accepted, a non-integer `creation date` is the error reported. */
  lemma CreationDateRule(m: Dictionary)
    ensures TorrentOf(Dict(m)).Ok? ==>
      if CreationDateKey in m then m[CreationDateKey] == Int(TorrentOf(Dict(m)).value.creationDate)
      else TorrentOf(Dict(m)).value.creationDate == 0
    ensures
      && AnnounceKey in m && m[AnnounceKey].Str?
      && (AnnounceListKey in m ==> m[AnnounceListKey].List? && MapAll(m[AnnounceListKey].items, TierOf).Ok?)
      && CreationDateKey in m && !m[CreationDateKey].Int?
      ==> TorrentOf(Dict(m)) == Err(CreationDateNotInteger)
  {
  }

  /** Both `length` and `files` present is an error whatever they hold: it
      is reported exactly when the fields checked before would pass. */
  lemma BothLengthAndFilesFirst(m: Dictionary)
    requires LengthKey in m && FilesKey in m
    ensures InfoOf(m) == Err(BothLengthAndFiles) <==> InfoOf(m - {LengthKey, FilesKey}) == Err(MissingLengthAndFiles)
  {
    var m2 := m - {LengthKey, FilesKey};
    assert LengthKey[0] != PiecesKey[0];
    forall k | k != LengthKey && k != FilesKey
      ensures k in m <==> k in m2
      ensures k in m2 ==> m[k] == m2[k]
    {
    }
    assert |PieceLengthKey| != |LengthKey| && |PieceLengthKey| != |FilesKey|;
    assert |NameKey| != |LengthKey| && |NameKey| != |FilesKey|;
    assert |PrivateKey| != |LengthKey| && |PrivateKey| != |FilesKey| && |PiecesKey| != |FilesKey|;
  }

  /** A file entry is accepted exactly when it is a dictionary with an
      integer `length` and a `path` list of strings; the path parts are
      kept in order. */
  lemma FileOfIff(v: Value, f: TorrentFile)
    ensures FileOf(v) == Ok(f) <==>
      && v.Dict? && LengthKey in v.entries && PathKey in v.entries
      && v.entries[LengthKey] == Int(f.length)
      && v.entries[PathKey].List?
      && |f.path| == |v.entries[PathKey].items|
      && forall i :: 0 <= i < |f.path| ==> v.entries[PathKey].items[i] == Str(f.path[i])
  {
    if v.Dict? && LengthKey in v.entries && PathKey in v.entries && v.entries[PathKey].List? {
      var parts := v.entries[PathKey].items;
      var r := MapAll(parts, PathPartOf);
      if r.Ok? {
        forall i | 0 <= i < |parts| ensures parts[i] == Str(r.value[i]) {
          assert PathPartOf(parts[i]) == Ok(r.value[i]);
        }
      }
      if |f.path| == |parts| && forall i :: 0 <= i < |f.path| ==> parts[i] == Str(f.path[i]) {
        assert forall i :: 0 <= i < |parts| ==> PathPartOf(parts[i]) == Ok(f.path[i]);
        assert r.Ok?;
        assert r.value == f.path;
      }
    }
  }

  /** DecodeTorrent reads one value and never looks at the bytes after it. */
  lemma TrailingBytesIgnored(input: seq<byte>, rest: seq<byte>)
    requires ValueAt(input, 0).Ok?
    ensures LoadOf(input + rest) == LoadOf(input)
  {
    Canonical.ValueAtExtend(input, rest, 0);
  }

  /** The bencoding of a value, followed by anything, loads as parseTorrent
      of that value. */
  lemma LoadEncoded(v: Value, rest: seq<byte>)
    requires Canonical.Representable(v)
    ensures TorrentOf(v).Ok? ==> LoadOf(Canonical.Encode(v) + rest) == Ok(TorrentOf(v).value)
    ensures TorrentOf(v).Err? ==> LoadOf(Canonical.Encode(v) + rest) == Err(Invalid(TorrentOf(v).error))
  {
    Canonical.RoundTrip(v);
    TrailingBytesIgnored(Canonical.Encode(v), rest);
  }
}
