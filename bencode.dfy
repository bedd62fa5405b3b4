/** The bencode decoder of bitTorrentClient/bencodeDecoder.go.

    The Go decoder reads from a `bufio.Reader` with one byte of lookahead.
    Here the reader is the byte sequence `input` and the cursor `pos` of a
    `Decoder` object; `Next` and `Peek` are the two reader operations the
    decoder uses. Each decoding method is proved to agree with a pure
    function of (input, starting position): ValueAt, IntAt, StringAt,
    ListAt, DictAt. Those functions are the specification that the lemmas
    of module Canonical reason about. */
module Bencode {
  import opened Base
  import opened Decimal

  const TagInt: byte := 105   // 'i'
  const TagList: byte := 108  // 'l'
  const TagDict: byte := 100  // 'd'
  const End: byte := 101      // 'e'
  const Colon: byte := 58     // ':'

  /** The largest byte slice `make` accepts on a 64-bit platform (the Go
      runtime's maxAlloc, 2^48); a larger length panics. */
  const MaxAlloc: int := 0x1_0000_0000_0000

  /** A decoded bencode value: Go's `interface{}` holding an int64, a
      string, a []interface{} or a map[string]interface{}. */
  datatype Value =
    | Int(n: int64)
    | Str(bytes: seq<byte>)
    | List(items: seq<Value>)
    | Dict(entries: map<seq<byte>, Value>)

  /** The errors the Go decoder can return. EndOfInput is io.EOF from the
      reader; UnexpectedEndOfInput is io.ErrUnexpectedEOF from io.ReadFull;
      BadNumber is strconv's error for an integer or a length prefix;
      NegativeLength and LengthTooLarge stand for the two panics of
      `make([]byte, n)`: n < 0, and n above the largest allocation Go's
      runtime accepts (MaxAlloc). */
  datatype DecodeError =
    | EndOfInput
    | UnexpectedEndOfInput
    | UnexpectedCharacter(ch: byte)
    | BadNumber(err: NumError)
    | NegativeLength(n: int64)
    | LengthTooLarge(n: int64)

  /** A decoded item and the position just after its last byte. */
  datatype Parsed<T> = Parsed(value: T, end: nat)

  type Decoded<T> = Result<Parsed<T>, DecodeError>

  /** The position of the first `b` at or after `from`, if any. */
  function IndexOf(s: seq<byte>, from: nat, b: byte): (r: Option<nat>)
    requires from <= |s|
    ensures r.Some? ==> from <= r.value < |s| && s[r.value] == b
    ensures r.Some? ==> forall i :: from <= i < r.value ==> s[i] != b
    ensures r.None? ==> forall i :: from <= i < |s| ==> s[i] != b
    decreases |s| - from
  {
    if from == |s| then None
    else if s[from] == b then Some(from)
    else IndexOf(s, from + 1, b)
  }

  /** decodeInt from position p: consume one byte (the `i`), collect every
      byte up to the first `e`, and parse them with ParseInt. */
  function IntAt(s: seq<byte>, p: nat): (r: Decoded<int64>)
    requires p <= |s|
    ensures r.Ok? ==> p < r.value.end <= |s|
  {
    if p == |s| then Err(EndOfInput)
    else match IndexOf(s, p + 1, End)
      case None => Err(EndOfInput)
      case Some(j) =>
        match ParseInt(s[p + 1..j])
        case Err(e) => Err(BadNumber(e))
        case Ok(n) => Ok(Parsed(n, j + 1))
  }

  /** decodeString from position p: a length prefix up to the first `:`,
      parsed with ParseInt, then exactly that many raw bytes. */
  function StringAt(s: seq<byte>, p: nat): (r: Decoded<seq<byte>>)
    requires p <= |s|
    ensures r.Ok? ==> p < r.value.end <= |s|
    ensures r.Ok? ==> |r.value.value| <= MaxAlloc
  {
    match IndexOf(s, p, Colon)
    case None => Err(EndOfInput)
    case Some(j) =>
      match ParseInt(s[p..j])
      case Err(e) => Err(BadNumber(e))
      case Ok(n) =>
        if n < 0 then Err(NegativeLength(n))
        else if n > MaxAlloc then Err(LengthTooLarge(n))
        else if j + 1 + n <= |s| then Ok(Parsed(s[j + 1..j + 1 + n], j + 1 + n))
        else if j + 1 == |s| then Err(EndOfInput)
        else Err(UnexpectedEndOfInput)
  }

  /** decode from position p: dispatch on the byte at p without consuming it. */
  function ValueAt(s: seq<byte>, p: nat): (r: Decoded<Value>)
    requires p <= |s|
    ensures r.Ok? ==> p < r.value.end <= |s|
    decreases |s| - p, 1
  {
    if p == |s| then Err(EndOfInput)
    else if s[p] == TagInt then
      match IntAt(s, p)
      case Err(e) => Err(e)
      case Ok(n) => Ok(Parsed(Int(n.value), n.end))
    else if IsDigit(s[p]) then
      match StringAt(s, p)
      case Err(e) => Err(e)
      case Ok(b) => Ok(Parsed(Str(b.value), b.end))
    else if s[p] == TagList then
      match ListAt(s, p)
      case Err(e) => Err(e)
      case Ok(l) => Ok(Parsed(List(l.value), l.end))
    else if s[p] == TagDict then
      match DictAt(s, p)
      case Err(e) => Err(e)
      case Ok(m) => Ok(Parsed(Dict(m.value), m.end))
    else Err(UnexpectedCharacter(s[p]))
  }

  /** decodeList from position p: consume one byte (the `l`), then items. */
  function ListAt(s: seq<byte>, p: nat): (r: Decoded<seq<Value>>)
    requires p <= |s|
    ensures r.Ok? ==> p + 2 <= r.value.end <= |s| && s[r.value.end - 1] == End
    decreases |s| - p, 0
  {
    if p == |s| then Err(EndOfInput) else ItemsFrom(s, p + 1, [])
  }

  /** The loop of decodeList from position p, with the items `acc` decoded
      so far: stop at `e`, otherwise decode one more item. */
  function ItemsFrom(s: seq<byte>, p: nat, acc: seq<Value>): (r: Decoded<seq<Value>>)
    requires p <= |s|
    ensures r.Ok? ==> p < r.value.end <= |s| && s[r.value.end - 1] == End
    decreases |s| - p, 2
  {
    if p == |s| then Err(EndOfInput)
    else if s[p] == End then Ok(Parsed(acc, p + 1))
    else match ValueAt(s, p)
      case Err(e) => Err(e)
      case Ok(item) => ItemsFrom(s, item.end, acc + [item.value])
  }

  /** decodeDict from position p: consume one byte (the `d`), then entries. */
  function DictAt(s: seq<byte>, p: nat): (r: Decoded<map<seq<byte>, Value>>)
    requires p <= |s|
    ensures r.Ok? ==> p + 2 <= r.value.end <= |s| && s[r.value.end - 1] == End
    decreases |s| - p, 0
  {
    if p == |s| then Err(EndOfInput) else EntriesFrom(s, p + 1, map[])
  }

  /** The loop of decodeDict from position p, with the entries `acc` stored
      so far: stop at `e`, otherwise a key read by decodeString and a value
      read by decode; a repeated key overwrites the earlier value. */
  function EntriesFrom(s: seq<byte>, p: nat, acc: map<seq<byte>, Value>): (r: Decoded<map<seq<byte>, Value>>)
    requires p <= |s|
    ensures r.Ok? ==> p < r.value.end <= |s| && s[r.value.end - 1] == End
    decreases |s| - p, 2
  {
    if p == |s| then Err(EndOfInput)
    else if s[p] == End then Ok(Parsed(acc, p + 1))
    else match StringAt(s, p)
      case Err(e) => Err(e)
      case Ok(key) =>
        match ValueAt(s, key.end)
        case Err(e) => Err(e)
        case Ok(v) => EntriesFrom(s, v.end, acc[key.value := v.value])
  }

  /** decodeInt succeeds with n exactly when an `e` follows the `i`, the
      bytes before the first such `e` are an integer text for n, and the
      decoder stops just after that `e`. */
  lemma {:induction false} IntAtIff(s: seq<byte>, p: nat, n: int64, e: nat)
    requires p <= |s|
    ensures IntAt(s, p) == Ok(Parsed(n, e)) <==>
      && p + 1 < e <= |s|
      && s[e - 1] == End && End !in s[p + 1..e - 1]
      && ParseInt(s[p + 1..e - 1]) == Ok(n)
  {
    if p + 1 < e <= |s| && s[e - 1] == End && End !in s[p + 1..e - 1] {
      IndexOfAt(s, p + 1, e - 1, End);
    }
  }

  /** decodeInt reports the end of input exactly when no `e` follows. */
  lemma {:induction false} IntAtEnd(s: seq<byte>, p: nat)
    requires p <= |s|
    ensures IntAt(s, p) == Err(EndOfInput) <==> p == |s| || End !in s[p + 1..]
  {
    if p < |s| {
      var r := IndexOf(s, p + 1, End);
      if r.Some? {
        assert s[r.value] == End && s[p + 1..][r.value - (p + 1)] == End;
      }
    }
  }

  /** decodeString succeeds with b exactly when the bytes before the first
      `:` are an integer text for |b|, `make` accepts |b|, and b is the |b|
      bytes after the `:`. */
  lemma {:induction false} StringAtIff(s: seq<byte>, p: nat, b: seq<byte>, e: nat)
    requires p <= |s|
    ensures StringAt(s, p) == Ok(Parsed(b, e)) <==>
      var j := e - |b| - 1;
      && p < j < e <= |s|
      && s[j] == Colon && Colon !in s[p..j]
      && ParseInt(s[p..j]) == Ok(|b|) && |b| <= MaxAlloc
      && b == s[j + 1..e]
  {
    var j := e - |b| - 1;
    if p < j < e <= |s| && s[j] == Colon && Colon !in s[p..j] {
      IndexOfAt(s, p, j, Colon);
    }
    if StringAt(s, p).Ok? {
      var k := IndexOf(s, p, Colon).value;
      assert s[p..k] != [] by {
        assert ParseInt(s[p..k]).Ok?;
      }
    }
  }

  /** decode chooses the kind of value by the byte it peeks: `i`, a digit,
      `l` or `d`; any other byte is an unexpected character. */
  lemma {:induction false} ValueAtKind(s: seq<byte>, p: nat)
    requires p <= |s|
    ensures ValueAt(s, p).Ok? ==> p < |s| && match ValueAt(s, p).value.value
      case Int(_) => s[p] == TagInt
      case Str(_) => IsDigit(s[p])
      case List(_) => s[p] == TagList
      case Dict(_) => s[p] == TagDict
    ensures p < |s| && s[p] != TagInt && !IsDigit(s[p]) && s[p] != TagList && s[p] != TagDict ==>
      ValueAt(s, p) == Err(UnexpectedCharacter(s[p]))
  {
  }

  /** decodeList only appends: the items decoded so far begin the list. */
  lemma {:induction false} ItemsFromPrefix(s: seq<byte>, p: nat, acc: seq<Value>)
    requires p <= |s|
    ensures ItemsFrom(s, p, acc).Ok? ==> acc <= ItemsFrom(s, p, acc).value.value
    decreases |s| - p
  {
    if p < |s| && s[p] != End && ValueAt(s, p).Ok? {
      var item := ValueAt(s, p).value;
      ItemsFromPrefix(s, item.end, acc + [item.value]);
    }
  }

  /** decodeDict never forgets a key: the keys stored so far are kept. */
  lemma {:induction false} EntriesFromKeys(s: seq<byte>, p: nat, acc: map<seq<byte>, Value>)
    requires p <= |s|
    ensures EntriesFrom(s, p, acc).Ok? ==> acc.Keys <= EntriesFrom(s, p, acc).value.value.Keys
    decreases |s| - p
  {
    if p < |s| && s[p] != End && StringAt(s, p).Ok? {
      var key := StringAt(s, p).value;
      if ValueAt(s, key.end).Ok? {
        var v := ValueAt(s, key.end).value;
        EntriesFromKeys(s, v.end, acc[key.value := v.value]);
      }
    }
  }

  /** decodeDict reads every key with decodeString, so a key that starts as
      an integer, a list or a dictionary fails: its tag byte makes the length
      prefix a strconv syntax error, or no `:` follows and the input ends. */
  lemma NonStringKey(s: seq<byte>, p: nat, acc: map<seq<byte>, Value>)
    requires p < |s| && (s[p] == TagInt || s[p] == TagList || s[p] == TagDict)
    ensures var r := EntriesFrom(s, p, acc);
      r == Err(EndOfInput) || (r.Err? && r.error.BadNumber? && r.error.err.Syntax?)
  {
  }

  /** decodeDict's map assignment lets a later entry win: decoding from p
      with entries `acc` already stored gives `acc` overridden by exactly the
      map decoded from p on its own (keys read later replace earlier values),
      ending at the same place, and either both succeed or neither does. */
  lemma {:induction false} EntriesFromOverride(s: seq<byte>, p: nat, acc: map<seq<byte>, Value>)
    requires p <= |s|
    ensures EntriesFrom(s, p, acc).Ok? <==> EntriesFrom(s, p, map[]).Ok?
    ensures EntriesFrom(s, p, acc).Ok? ==>
      EntriesFrom(s, p, acc) == Ok(Parsed(acc + EntriesFrom(s, p, map[]).value.value, EntriesFrom(s, p, map[]).value.end))
    decreases |s| - p
  {
    if p < |s| && s[p] != End && StringAt(s, p).Ok? {
      var key := StringAt(s, p).value;
      if ValueAt(s, key.end).Ok? {
        var v := ValueAt(s, key.end).value;
        var k := key.value;
        hide StringAt, ValueAt;
        assert EntriesFrom(s, p, acc) == EntriesFrom(s, v.end, acc[k := v.value]);
        assert EntriesFrom(s, p, map[]) == EntriesFrom(s, v.end, map[k := v.value]);
        EntriesFromOverride(s, v.end, acc[k := v.value]);
        EntriesFromOverride(s, v.end, map[k := v.value]);
        if EntriesFrom(s, v.end, map[]).Ok? {
          var later := EntriesFrom(s, v.end, map[]).value.value;
          StoreThenOverride(acc, k, v.value, later);
        }
      }
    } else if p < |s| && s[p] == End {
      assert acc + map[] == acc;
    }
  }

  lemma StoreThenOverride(acc: map<seq<byte>, Value>, k: seq<byte>, v: Value, later: map<seq<byte>, Value>)
    ensures acc[k := v] + later == acc + (map[k := v] + later)
  {
  }

  /** The result of a decoding method agrees with its specification: the
      same value, with the cursor just after it, or the same error. */
  ghost predicate Follows<T>(r: Result<T, DecodeError>, spec: Decoded<T>, pos: nat)
  {
    match spec
    case Ok(p) => r == Ok(p.value) && pos == p.end
    case Err(e) => r == Err(e)
  }

  /** The first occurrence found by a left-to-right scan is IndexOf's answer. */
  lemma {:induction false} IndexOfAt(s: seq<byte>, from: nat, j: nat, b: byte)
    requires from <= j < |s| && s[j] == b && b !in s[from..j]
    ensures IndexOf(s, from, b) == Some(j)
  {
  }

  /** BencodeDecoder: a reader over `input` whose next byte is input[pos]. */
  class Decoder {
    const input: seq<byte>
    var pos: nat

    ghost predicate Valid()
      reads this
    {
      pos <= |input|
    }

    /** NewDecoder: a reader positioned at the first byte. */
    constructor (input: seq<byte>)
      ensures Valid() && this.input == input && pos == 0
    {
      this.input := input;
      pos := 0;
    }

    /** next: read one byte, or report the end of input. */
    method Next() returns (r: Result<byte, DecodeError>)
      requires Valid()
      modifies this
      ensures Valid()
      ensures old(pos) < |input| ==> r == Ok(input[old(pos)]) && pos == old(pos) + 1
      ensures old(pos) == |input| ==> r == Err(EndOfInput) && pos == old(pos)
    {
      if pos == |input| {
        r := Err(EndOfInput);
      } else {
        r := Ok(input[pos]);
        pos := pos + 1;
      }
    }

    /** peek: read one byte and unread it, so the cursor does not move. */
    method Peek() returns (r: Result<byte, DecodeError>)
      requires Valid()
      ensures r.Ok? <==> pos < |input|
      ensures r.Ok? ==> r.value == input[pos]
      ensures r.Err? ==> r.error == EndOfInput
    {
      if pos == |input| {
        r := Err(EndOfInput);
      } else {
        r := Ok(input[pos]);
      }
    }

    /** io.ReadFull of n bytes: all n of them, or io.EOF when none is left,
        or io.ErrUnexpectedEOF when only some are; a short read consumes
        what is left. */
    method ReadFull(n: nat) returns (r: Result<seq<byte>, DecodeError>)
      requires Valid()
      modifies this
      ensures Valid()
      ensures old(pos) + n <= |input| ==>
        r == Ok(input[old(pos)..old(pos) + n]) && pos == old(pos) + n
      ensures old(pos) + n > |input| ==>
        pos == |input| && r == Err(if old(pos) == |input| then EndOfInput else UnexpectedEndOfInput)
    {
      if pos + n <= |input| {
        r := Ok(input[pos..pos + n]);
        pos := pos + n;
      } else {
        r := Err(if pos == |input| then EndOfInput else UnexpectedEndOfInput);
        pos := |input|;
      }
    }

    /** decode: peek at the next byte and dispatch on it. */
    method Decode() returns (r: Result<Value, DecodeError>)
      requires Valid()
      modifies this
      ensures Valid()
      ensures Follows(r, ValueAt(input, old(pos)), pos)
      decreases |input| - pos, 1
    {
      var ch := Peek();
      if ch.Err? {
        return Err(ch.error);
      }
      var c := ch.value;
      if c == TagInt {
        var n := DecodeInt();
        r := if n.Ok? then Ok(Int(n.value)) else Err(n.error);
      } else if IsDigit(c) {
        var b := DecodeString();
        r := if b.Ok? then Ok(Str(b.value)) else Err(b.error);
      } else if c == TagList {
        var l := DecodeList();
        r := if l.Ok? then Ok(List(l.value)) else Err(l.error);
      } else if c == TagDict {
        var m := DecodeDict();
        r := if m.Ok? then Ok(Dict(m.value)) else Err(m.error);
      } else {
        r := Err(UnexpectedCharacter(c));
      }
    }

    /** decodeInt: skip the `i`, collect the bytes before the first `e`,
        parse them. */
    method DecodeInt() returns (r: Result<int64, DecodeError>)
      requires Valid()
      modifies this
      ensures Valid()
      ensures Follows(r, IntAt(input, old(pos)), pos)
    {
      var opening := Next();
      if opening.Err? {
        return Err(opening.error);
      }
      var numStr: seq<byte> := [];
      while true
        invariant Valid() && old(pos) + 1 <= pos
        invariant numStr == input[old(pos) + 1..pos]
        invariant forall i :: old(pos) + 1 <= i < pos ==> input[i] != End
        decreases |input| - pos
      {
        var ch := Next();
        if ch.Err? {
          return Err(ch.error);
        }
        if ch.value == End {
          assert IndexOf(input, old(pos) + 1, End) == Some(pos - 1);
          break;
        }
        numStr := numStr + [ch.value];
      }
      var n := ParseInt(numStr);
      r := if n.Ok? then Ok(n.value) else Err(BadNumber(n.error));
    }

    /** decodeString: collect the length prefix before the first `:`, parse
        it, then read exactly that many bytes. */
    method DecodeString() returns (r: Result<seq<byte>, DecodeError>)
      requires Valid()
      modifies this
      ensures Valid()
      ensures Follows(r, StringAt(input, old(pos)), pos)
    {
      var lengthStr: seq<byte> := [];
      while true
        invariant Valid() && old(pos) <= pos
        invariant lengthStr == input[old(pos)..pos]
        invariant forall i :: old(pos) <= i < pos ==> input[i] != Colon
        decreases |input| - pos
      {
        var ch := Next();
        if ch.Err? {
          return Err(ch.error);
        }
        if ch.value == Colon {
          assert IndexOf(input, old(pos), Colon) == Some(pos - 1);
          break;
        }
        lengthStr := lengthStr + [ch.value];
      }
      var length := ParseInt(lengthStr);
      if length.Err? {
        return Err(BadNumber(length.error));
      }
      if length.value < 0 {
        return Err(NegativeLength(length.value));
      }
      if length.value > MaxAlloc {
        return Err(LengthTooLarge(length.value));
      }
      r := ReadFull(length.value);
    }

    /** decodeList: skip the `l`, then decode items until a peeked `e`,
        which is consumed. */
    method DecodeList() returns (r: Result<seq<Value>, DecodeError>)
      requires Valid()
      modifies this
      ensures Valid()
      ensures Follows(r, ListAt(input, old(pos)), pos)
      decreases |input| - pos, 0
    {
      var opening := Next();
      if opening.Err? {
        return Err(opening.error);
      }
      var list: seq<Value> := [];
      while true
        invariant Valid() && old(pos) < pos
        invariant ItemsFrom(input, pos, list) == ListAt(input, old(pos))
        decreases |input| - pos
      {
        var ch := Peek();
        if ch.Err? {
          return Err(ch.error);
        }
        if ch.value == End {
          var closing := Next();
          break;
        }
        var item := Decode();
        if item.Err? {
          return Err(item.error);
        }
        list := list + [item.value];
      }
      r := Ok(list);
    }

    /** decodeDict: skip the `d`, then read key/value pairs until a peeked
        `e`, which is consumed; each pair is stored with `dict[key] = value`. */
    method DecodeDict() returns (r: Result<map<seq<byte>, Value>, DecodeError>)
      requires Valid()
      modifies this
      ensures Valid()
      ensures Follows(r, DictAt(input, old(pos)), pos)
      decreases |input| - pos, 0
    {
      var opening := Next();
      if opening.Err? {
        return Err(opening.error);
      }
      var dict: map<seq<byte>, Value> := map[];
      while true
        invariant Valid() && old(pos) < pos
        invariant EntriesFrom(input, pos, dict) == DictAt(input, old(pos))
        decreases |input| - pos
      {
        var ch := Peek();
        if ch.Err? {
          return Err(ch.error);
        }
        if ch.value == End {
          var closing := Next();
          break;
        }
        var key := DecodeString();
        if key.Err? {
          return Err(key.error);
        }
        var value := Decode();
        if value.Err? {
          return Err(value.error);
        }
        dict := dict[key.value := value.value];
      }
      r := Ok(dict);
    }
  }
}
