# Bencode decoding, torrent metainfo and announce bookkeeping, in Dafny

This project models the BitTorrent client core of the goNet repository:

- the bencode decoder of `bitTorrentClient/bencodeDecoder.go`: `BencodeDecoder` with `next`, `peek`, `decode`, `decodeInt`, `decodeString`, `decodeList` and `decodeDict`;
- the typed projection `DecodeTorrent` / `parseTorrent` / `parseTorrentInfo` into the `Torrent`, `TorrentInfo` and `TorrentFile` structs;
- the announce bookkeeping of `bitTorrentClient/announce.go`: `GetTotalLength`, the `Announcer` and its `urlParams`, `handleNewPieceLeeched`, `handleNewPieceSeeded` and `setEvent`, and the parameter set that `generateEncodedURL` builds.

Modules, one per file:

- `base.dfy` (`Base`): bytes, int64 and its wrap-around (`Wrap64`), and `Option`/`Result`.
- `decimal.dfy` (`Decimal`): Go's `strconv.ParseInt(s, 10, 64)` and `strconv.FormatInt(n, 10)`.
  - ParseInt is written as the Go library scans, so it reports the same syntax or range error.
  - It is also characterised independently (`IntegerText`).
- `bencode.dfy` (`Bencode`): the decoded `Value`, the decoder's errors, and the decoder itself.
  - The `bufio.Reader` becomes a `Decoder` object holding the input bytes and a cursor `pos`.
  - Each decoding method is proved to return what a pure specification function of (input, start position) says: `ValueAt`, `IntAt`, `StringAt`, `ListAt`/`ItemsFrom` and `DictAt`/`EntriesFrom`.
  - On success the method also leaves the cursor just after the value.
- `canonical.dfy` (`Canonical`): a specification aid, not a model of source code.
  - The repository has no encoder. `Encode` is written from the grammar in the header comment of bencodeDecoder.go, with dictionary keys in ascending byte order as BEP 3 ("The BitTorrent Protocol Specification", section "bencoding") requires.
  - It is used to state the round trip and the decoder's framing.
- `worked.dfy` (`Worked`): the header comment's examples and the decoder's behaviour on malformed inputs, as facts about the specification functions.
- `metainfo.dfy` (`Metainfo`): the structs, `TorrentOf`/`InfoOf`/`LoadOf` as functions of the decoded value, and the methods `ParseTorrent`, `ParseTorrentInfo` and `DecodeTorrent`.
  - These methods fill the structs field by field, as the Go code does. They are proved to return exactly what the functions say.
  - The Go loops over `announce-list` and `files` are the helper methods `ParseAnnounceList`, `ParseFiles` and `ParseFile`.
- `announce.dfy` (`Announce`): `GetTotalLength` (a loop with int64 accumulation), the `Announcer` class and `GenerateParams`.

Choices made where the Go code panics or is silent:

- `make([]byte, n)` in `decodeString` panics when the length prefix is negative, and also when it is above the Go runtime's largest allocation, 2^48 bytes on a 64-bit platform. Here these are the errors `NegativeLength(n)` and `LengthTooLarge(n)`. Any string can reach the second case, not only dictionary keys.
- `io.ReadFull` distinguishes a stream already at its end (`EndOfInput`, Go's `io.EOF`) from one that ends part-way through the string (`UnexpectedEndOfInput`, Go's `io.ErrUnexpectedEOF`).
- A repeated dictionary key keeps the value written last, as Go's map assignment does.
- int64 `+=` and `-` wrap around in Go. The model writes this out with `Wrap64`, and the lemmas show the results are exact whenever the true value fits in an int64.

What the code accepts, stated as facts about it:

- BEP 3 calls `i-0e` and `i03e` invalid, and its integers carry no `+` sign. The decoder accepts `i-0e`, `i03e` and `i+5e` as 0, 3 and 5, because `strconv.ParseInt` does.
- `parseTorrent` reports a missing `announce` and a non-string `announce` with the same error (`MissingAnnounce`).
- A dictionary key is read by `decodeString`, so a key that is not a string fails as a bad length prefix or as the end of input (`NonStringKey`).
- BEP 3 requires dictionary keys in sorted order. The decoder does not check the order (`DecodeAnyKeyOrder`), and it does not reject a repeated key either: it stores entries in a Go map, and a later entry overwrites an earlier one (`EntriesFromOverride`).
- Decoding reads one value and ignores whatever follows it, so trailing bytes are never an error.
- `handleNewPieceLeeched` computes `left` from `TotalSize`, which nothing in the repository sets. `left` after leeching is therefore `0 - downloaded`; the model keeps that.

The `Announcer` constructor models the struct literal at announce.go:70-83, given the values `NewAnnouncer` computes. As written, `NewAnnouncer` cannot reach that literal:
- It decodes the torrent with `encoding/json`, which yields float64 numbers.
- It takes `torrent["piece length"].(int64)` at announce.go:65 with a single-value type assertion, which panics on such a map.

For the same reason, the `.(int64)` assertions in `GetTotalLength` (announce.go:109 and 126) never hold on the JSON data its only caller passes. The model states `GetTotalLength` over bencode-decoded dictionaries, as `DecodeTorrent` produces them.

## Model

| member | source | states |
|---|---|---|
| Base.Wrap64 | bitTorrentClient/announce.go:131 | the int64 result of Go's wrapping `+=`; it equals the true sum whenever that fits in an int64 |
| Base.Wrap64Congruent | bitTorrentClient/announce.go:131 | Wrap64(x) is the unique int64 congruent to x modulo 2^64 (both directions) |
| Base.Wrap64Add | bitTorrentClient/announce.go:131 | wrapping after every addition gives the same int64 as wrapping once at the end |
| Decimal.ParseInt | bitTorrentClient/bencodeDecoder.go:109 | strconv.ParseInt(s, 10, 64): a failure carries the whole input text as the Go NumError does |
| Decimal.ParseIntIff | bitTorrentClient/bencodeDecoder.go:109 | ParseInt succeeds exactly on an optional sign followed by at least one digit whose value lies in int64, and returns that value |
| Decimal.PermissiveForms | bitTorrentClient/bencodeDecoder.go:109 | `-0`, `03` and `+5` are accepted (as 0, 3, 5); the empty text and a lone `-` are syntax errors |
| Decimal.FormatParse | bitTorrentClient/announce.go:143-145 | the decimal text FormatInt writes for a counter parses back to the same int64 |
| Bencode.IndexOf | bitTorrentClient/bencodeDecoder.go:98-107 | the position of the first occurrence of a byte at or after a position, or none; nothing before it matches |
| Bencode.IntAt | bitTorrentClient/bencodeDecoder.go:91-110 | decodeInt, when it succeeds, ends past the `i` and within the input |
| Bencode.IntAtIff | bitTorrentClient/bencodeDecoder.go:91-110 | decodeInt yields n ending at e exactly when byte e-1 is the first `e` after the `i` and the bytes between parse to n |
| Bencode.IntAtEnd | bitTorrentClient/bencodeDecoder.go:92-102 | decodeInt reports end of input exactly when the input ends before any `e` follows |
| Bencode.StringAt | bitTorrentClient/bencodeDecoder.go:112-134 | decodeString, when it succeeds, ends past its start and within the input, with a string of at most MaxAlloc (2^48) bytes, the most `make` allocates |
| Bencode.StringAtIff | bitTorrentClient/bencodeDecoder.go:112-134 | decodeString yields b exactly when the text before the first `:` parses to \|b\|, `make` accepts \|b\| (at most 2^48), and b is the next \|b\| bytes; the cursor moves by prefix + 1 + \|b\| |
| Bencode.ValueAt | bitTorrentClient/bencodeDecoder.go:71-89 | decode, when it succeeds, consumes at least one byte and stays within the input |
| Bencode.ValueAtKind | bitTorrentClient/bencodeDecoder.go:77-88 | the kind of value decoded is fixed by the peeked byte (`i`, a digit, `l`, `d`); any other byte is UnexpectedCharacter of that byte |
| Bencode.ListAt | bitTorrentClient/bencodeDecoder.go:136-161 | decodeList, when it succeeds, ends just after a closing `e` |
| Bencode.ItemsFrom | bitTorrentClient/bencodeDecoder.go:143-158 | the loop of decodeList stops just after a closing `e` |
| Bencode.ItemsFromPrefix | bitTorrentClient/bencodeDecoder.go:153-157 | decodeList only appends: the items already decoded begin the final list, in order |
| Bencode.DictAt | bitTorrentClient/bencodeDecoder.go:163-194 | decodeDict, when it succeeds, ends just after a closing `e` |
| Bencode.EntriesFrom | bitTorrentClient/bencodeDecoder.go:170-191 | the loop of decodeDict stops just after a closing `e` |
| Bencode.EntriesFromKeys | bitTorrentClient/bencodeDecoder.go:180-190 | decodeDict never drops a key it has stored |
| Bencode.EntriesFromOverride | bitTorrentClient/bencodeDecoder.go:170-191 | for every input and every map of entries already stored, decodeDict's loop returns that map overridden by the entries it reads afterwards (a later key wins), ending where the loop alone would; success does not depend on what was stored |
| Bencode.IndexOfAt | bitTorrentClient/bencodeDecoder.go:98-107 | a byte with no earlier occurrence is the one the scan finds |
| Bencode.Decoder.constructor | bitTorrentClient/bencodeDecoder.go:54-56 | NewDecoder: a reader over the input at position 0 |
| Bencode.Decoder.Next | bitTorrentClient/bencodeDecoder.go:58-60 | next returns the byte at the cursor and advances, or reports end of input without moving |
| Bencode.Decoder.Peek | bitTorrentClient/bencodeDecoder.go:62-69 | peek returns the byte at the cursor and leaves the cursor where it was, or reports end of input |
| Bencode.Decoder.ReadFull | bitTorrentClient/bencodeDecoder.go:131-133 | io.ReadFull of n bytes: the next n bytes and the cursor after them; nothing left is EndOfInput, too few is UnexpectedEndOfInput |
| Bencode.Decoder.Decode | bitTorrentClient/bencodeDecoder.go:71-89 | decode returns ValueAt's value with the cursor just after it, or ValueAt's error |
| Bencode.Decoder.DecodeInt | bitTorrentClient/bencodeDecoder.go:91-110 | decodeInt returns IntAt's integer and cursor, or its error |
| Bencode.Decoder.DecodeString | bitTorrentClient/bencodeDecoder.go:112-134 | decodeString returns StringAt's bytes and cursor, or its error |
| Bencode.Decoder.DecodeList | bitTorrentClient/bencodeDecoder.go:136-161 | decodeList returns ListAt's items in input order, with the closing `e` consumed, or the first nested error unchanged |
| Bencode.NonStringKey | bitTorrentClient/bencodeDecoder.go:180-183 | a dictionary key that starts with `i`, `l` or `d` fails in decodeString: the length prefix is a strconv syntax error, or no `:` follows and the result is io.EOF |
| Bencode.Decoder.DecodeDict | bitTorrentClient/bencodeDecoder.go:163-194 | decodeDict returns DictAt's map (a repeated key keeps its last value, see EntriesFromOverride), with the closing `e` consumed, or the first error |
| Canonical.SortedKeysOrder | bitTorrentClient/bencodeDecoder.go:13-15 | the encoder's key order lists every key once, in strictly ascending byte order |
| Canonical.DecodeEncode | bitTorrentClient/bencodeDecoder.go:1-16 | wherever the encoding of v appears in an input, decode at that position returns v and stops exactly after it |
| Canonical.DecodeAnyKeyOrder | bitTorrentClient/bencodeDecoder.go:163-194 | decodeDict does not check key order: the entries of a map written in any order that lists every key, repeats included, decode back to that map, ending just after the closing `e` |
| Canonical.RoundTrip | bitTorrentClient/bencodeDecoder.go:1-16 | decoding the encoding of any representable value returns that value, reads all of it, and re-encodes to the same bytes |
| Canonical.ValueAtExtend | bitTorrentClient/bencodeDecoder.go:71-89 | decode never reads past the value it returns: appending bytes leaves its result unchanged |
| Canonical.FoldSorted | bitTorrentClient/bencodeDecoder.go:190 | storing a map's entries in the encoder's key order rebuilds that map |
| Worked.IntegerExample | bitTorrentClient/bencodeDecoder.go:2-3 | `i11e` decodes to the integer 11, ending after 4 bytes |
| Worked.StringExample | bitTorrentClient/bencodeDecoder.go:5-7 | `10:helicopter` decodes to the string "helicopter", ending after 13 bytes |
| Worked.ListExample | bitTorrentClient/bencodeDecoder.go:9-11 | `li11e10:helicoptere` decodes to the list [11, "helicopter"], ending after 19 bytes |
| Worked.LenientIntegers | bitTorrentClient/bencodeDecoder.go:109 | `i-0e` decodes to 0 and `i+5e` to 5 |
| Worked.TruncatedInteger | bitTorrentClient/bencodeDecoder.go:86-102 | `i12` is EndOfInput and `x` is UnexpectedCharacter('x') |
| Worked.TruncatedStrings | bitTorrentClient/bencodeDecoder.go:131-133 | `3:` is EndOfInput and `3:ab` is UnexpectedEndOfInput |
| Worked.NegativeKeyLength | bitTorrentClient/bencodeDecoder.go:112-134 | `d-1:ae` is NegativeLength(-1) |
| Worked.OversizedLength | bitTorrentClient/bencodeDecoder.go:112-134 | `300000000000000:` (more than 2^48) is LengthTooLarge, before any string byte is read |
| Worked.DuplicateKey | bitTorrentClient/bencodeDecoder.go:190 | `d1:ai1e1:ai2ee` decodes to the dictionary {a: 2} |
| Metainfo.MapAll | bitTorrentClient/bencodeDecoder.go:224-238 | an append loop that stops at the first element that fails: Ok exactly when every element converts, element i converted in place i; otherwise the error of an element all of whose predecessors convert |
| Metainfo.MapAllFirstError | bitTorrentClient/bencodeDecoder.go:330-363 | the first element that fails to convert decides the loop's error |
| Metainfo.ParseTorrentInfo | bitTorrentClient/bencodeDecoder.go:274-369 | parseTorrentInfo returns exactly InfoOf of the info dictionary |
| Metainfo.ParseFiles | bitTorrentClient/bencodeDecoder.go:330-363 | the loop over `files` converts every entry in order, or fails at the first bad one |
| Metainfo.ParseFile | bitTorrentClient/bencodeDecoder.go:331-361 | one entry of `files`: exactly FileOf of it |
| Metainfo.ParseTorrent | bitTorrentClient/bencodeDecoder.go:205-272 | parseTorrent returns exactly TorrentOf of the decoded value |
| Metainfo.ParseAnnounceList | bitTorrentClient/bencodeDecoder.go:224-238 | the two loops over announce-list convert every tier and URL in order, or fail at the first bad one |
| Metainfo.DecodeTorrent | bitTorrentClient/bencodeDecoder.go:196-203 | DecodeTorrent returns LoadOf of the input: the decoder's error, parseTorrent's error, or the torrent |
| Metainfo.TorrentRequiredFields | bitTorrentClient/bencodeDecoder.go:205-272 | non-dictionary top level is TopLevelNotDict; absent or non-string announce is MissingAnnounce; a success has a string announce and an info dictionary that InfoOf accepts; InfoInvalid carries InfoOf's error |
| Metainfo.AnnounceListOrder | bitTorrentClient/bencodeDecoder.go:219-239 | announce-list keeps its tiers and each tier's URLs in order; without the key it is empty |
| Metainfo.IgnoredTextField | bitTorrentClient/bencodeDecoder.go:249-255 | a `comment` or `created by` that is not a string gives the same result as leaving it out |
| Metainfo.CreationDateRule | bitTorrentClient/bencodeDecoder.go:241-247 | an accepted torrent records the integer `creation date`, or 0 without one; once announce and announce-list pass, a non-integer `creation date` is CreationDateNotInteger |
| Metainfo.LengthOrFiles | bitTorrentClient/bencodeDecoder.go:311-366 | an accepted info dictionary has exactly one of `length` and `files`; length is that integer with no files, or files mirrors every entry in order with length 0 |
| Metainfo.InfoScalarFields | bitTorrentClient/bencodeDecoder.go:277-309 | an accepted info dictionary has an integer `piece length`, a string `pieces` and a string `name`, copied into the info; `private` is copied when present and is 0 otherwise |
| Metainfo.BothLengthAndFilesFirst | bitTorrentClient/bencodeDecoder.go:311-316 | both keys present is reported exactly when the fields checked before pass, whatever the two keys hold |
| Metainfo.FileOfIff | bitTorrentClient/bencodeDecoder.go:331-361 | a file entry is accepted as f exactly when it is a dictionary with integer length f.length and a path list of strings equal, in order, to f.path |
| Metainfo.TrailingBytesIgnored | bitTorrentClient/bencodeDecoder.go:196-203 | bytes after the first value never change what DecodeTorrent returns |
| Metainfo.LoadEncoded | bitTorrentClient/bencodeDecoder.go:196-203 | DecodeTorrent of the encoding of v, followed by anything, is parseTorrent of v |
| Announce.GetTotalLength | bitTorrentClient/announce.go:102-135 | GetTotalLength returns exactly TotalLengthOf: the `length` integer, or the wrapped sum of all file lengths, or the first error |
| Announce.TotalLengthOfValidInfo | bitTorrentClient/announce.go:102-135 | for an info dictionary parseTorrentInfo accepts, GetTotalLength is its length plus the sum of its files' lengths (wrapped to int64) |
| Announce.FileLengthsAgree | bitTorrentClient/announce.go:120-132 | file entries parseTorrentInfo accepts are all read by GetTotalLength's loop, and their lengths sum to the same total |
| Announce.EventForSpec | bitTorrentClient/announce.go:166-177 | setEvent keeps its argument exactly when it is started, completed, stopped (or already ""); the result is always one of those four; setting twice is setting once |
| Announce.LeechedSpec | bitTorrentClient/announce.go:155-158 | downloaded grows by exactly b and left is TotalSize - downloaded whenever these fit in int64; no other parameter changes |
| Announce.LeechedTwice | bitTorrentClient/announce.go:155-158 | two leeched pieces count like one piece of their combined (int64) size |
| Announce.Announcer.constructor | bitTorrentClient/announce.go:70-83 | the struct literal NewAnnouncer ends with, given its computed values: port 6881, counters 0, left the total length, compact 1, event started, TotalSize 0 |
| Announce.Announcer.HandleNewPieceLeeched | bitTorrentClient/announce.go:155-158 | the new parameters are Leeched of the old ones; TotalSize is unchanged |
| Announce.Announcer.HandleNewPieceSeeded | bitTorrentClient/announce.go:161-163 | uploaded grows by the piece size (int64 wrap-around); nothing else changes |
| Announce.Announcer.SetEvent | bitTorrentClient/announce.go:166-177 | only the event changes, to EventFor of the argument |
| Announce.Announcer.GenerateParams | bitTorrentClient/announce.go:138-149 | the request always carries info_hash, peer_id, port, uploaded, downloaded, left and compact, and carries event exactly when it is non-empty; the counters are `strconv.FormatInt`'s decimal texts of their values, which parse back to those values |

## Left out

- `NewAnnouncer` is modelled only by its closing struct literal. The rest of it is file I/O, JSON decoding, `log.Fatalf`, panics, and hashing through an external bencode `Marshal`. The info hash, peer id, announce URL, piece size and total length are the constructor's inputs.
- The JSON-decoded map that `NewAnnouncer` passes to `GetTotalLength` is not modelled (its numbers are float64, so the `.(int64)` assertions fail). Announce.GetTotalLength takes a bencode-decoded dictionary instead.
- `computeInfoHash` and `generatePeerId` are not modelled. They are SHA-1, `crypto/rand` and `url.QueryEscape`; their results enter the constructor as opaque byte strings.
- Bencode.Decoder.Decode, DecodeInt, DecodeString, DecodeList and DecodeDict: after an error the cursor position is not specified. Every Go caller drops the decoder once it returns an error, so no caller can observe it.
- `url.Values.Encode` and the final URL string are left out. Its percent-encoding and key sorting are library behaviour, so `GenerateParams` returns the parameter map that is encoded.
- `bufio.Reader` and `io` internals are replaced by a byte sequence and a cursor. Read errors other than the end of the stream cannot occur in the model.
- The `UnreadByte` error that `peek` discards is not modelled. It cannot happen after a successful `ReadByte`.
- `tcp-udp_server/server.go` and `tcp-udp_server/client.go` are not part of this model. They are socket and goroutine code with no decoding or bookkeeping logic.
- Canonical.Encode models no source code. It is the specification aid for the round trip. It covers only values whose strings have at most 2^48 bytes (`Representable`), the only ones `make` can allocate.
- Bencode.StringAt / Bencode.Decoder.DecodeString: a length at or below 2^48 that the machine still cannot allocate ends the Go program with an out-of-memory error. That limit depends on the machine, so here such a length reads as far as the input allows.
- The Go error values are modelled as one constructor per message. The message texts themselves are not modelled.
