/** The examples of the header comment of bitTorrentClient/bencodeDecoder.go,
    and the decoder's behaviour on a few inputs outside them, each stated as
    a fact about the specification functions of module Bencode (and so, by
    the contracts of its methods, about Decoder.Decode). */
module Worked {
  import opened Base
  import opened Decimal
  import opened Bencode

  /** `i11e` is the integer 11. */
  lemma IntegerExample()
    ensures ValueAt(Ascii("i11e"), 0) == Ok(Parsed(Int(11), 4))
  {
    var s := Ascii("i11e");
    assert s == [TagInt, 49, 49, End];
    assert IndexOf(s, 1, End) == Some(3);
    assert s[1..3] == [49, 49];
    assert ScanUint([49, 49], 0, 0) == Scanned(11);
  }

  /** `10:helicopter` is the string "helicopter". */
  lemma StringExample()
    ensures ValueAt(Ascii("10:helicopter"), 0) == Ok(Parsed(Str(Ascii("helicopter")), 13))
  {
    var h: seq<byte> := [104, 101, 108, 105, 99, 111, 112, 116, 101, 114];
    assert Ascii("helicopter") == h;
    var s: seq<byte> := [49, 48, Colon] + h;
    assert Ascii("10:helicopter") == s;
    StringExampleText(s, h);
  }

  lemma StringExampleText(s: seq<byte>, h: seq<byte>)
    requires |h| == 10 && s == [49, 48, Colon] + h
    ensures StringAt(s, 0) == Ok(Parsed(h, 13))
  {
    assert s[0] == 49 && s[1] == 48 && s[2] == Colon;
    assert IndexOf(s, 0, Colon) == Some(2);
    assert s[0..2] == [49, 48];
    assert ScanUint([49, 48], 0, 0) == Scanned(10);
    assert s[3..13] == h;
  }

  /** `li11e10:helicoptere` is the list [11, "helicopter"]. */
  lemma ListExample()
    ensures ValueAt(Ascii("li11e10:helicoptere"), 0)
         == Ok(Parsed(List([Int(11), Str(Ascii("helicopter"))]), 19))
  {
    var h: seq<byte> := [104, 101, 108, 105, 99, 111, 112, 116, 101, 114];
    assert Ascii("helicopter") == h;
    var s: seq<byte> := [TagList, TagInt, 49, 49, End, 49, 48, Colon] + h + [End];
    assert Ascii("li11e10:helicoptere") == s;
    ListExampleItems(s, h);
  }

  lemma ListExampleItems(s: seq<byte>, h: seq<byte>)
    requires |h| == 10
    requires s == [TagList, TagInt, 49, 49, End, 49, 48, Colon] + h + [End]
    ensures ItemsFrom(s, 1, []) == Ok(Parsed([Int(11), Str(h)], 19))
  {
    assert s[1] == TagInt && s[2] == 49 && s[3] == 49 && s[4] == End;
    assert s[5] == 49 && s[6] == 48 && s[7] == Colon && s[18] == End;
    assert IndexOf(s, 2, End) == Some(4);
    assert s[2..4] == [49, 49];
    assert ScanUint([49, 49], 0, 0) == Scanned(11);
    assert ValueAt(s, 1) == Ok(Parsed(Int(11), 5));
    assert IndexOf(s, 5, Colon) == Some(7);
    assert s[5..7] == [49, 48];
    assert ScanUint([49, 48], 0, 0) == Scanned(10);
    assert s[8..18] == h;
    assert ValueAt(s, 5) == Ok(Parsed(Str(h), 18));
    assert ItemsFrom(s, 18, [Int(11), Str(h)]) == Ok(Parsed([Int(11), Str(h)], 19));
    assert [Int(11)] + [Str(h)] == [Int(11), Str(h)];
    assert ItemsFrom(s, 5, [Int(11)]) == ItemsFrom(s, 18, [Int(11), Str(h)]);
    assert [] + [Int(11)] == [Int(11)];
  }

  /** ParseInt's leniency passes through: `i-0e` is 0 and `i+5e` is 5. */
  lemma LenientIntegers()
    ensures ValueAt(Ascii("i-0e"), 0) == Ok(Parsed(Int(0), 4))
    ensures ValueAt(Ascii("i+5e"), 0) == Ok(Parsed(Int(5), 4))
  {
    var s := Ascii("i-0e");
    assert s == [TagInt, Minus, Zero, End];
    assert IndexOf(s, 1, End) == Some(3);
    assert s[1..3] == [Minus, Zero];
    assert ScanUint([Zero], 0, 0) == Scanned(0);
    var t := Ascii("i+5e");
    assert t == [TagInt, Plus, 53, End];
    assert IndexOf(t, 1, End) == Some(3);
    assert t[1..3] == [Plus, 53];
    assert ScanUint([53], 0, 0) == Scanned(5);
  }

  /** An integer with no closing `e` ends at the end of the input; a byte
      that starts no value is reported as it is. */
  lemma TruncatedInteger()
    ensures ValueAt(Ascii("i12"), 0) == Err(EndOfInput)
    ensures ValueAt(Ascii("x"), 0) == Err(UnexpectedCharacter(120))
  {
    var s := Ascii("i12");
    assert s == [TagInt, 49, 50];
    assert IndexOf(s, 1, End) == None;
    assert Ascii("x") == [120];
  }

  /** A string cut short: with nothing after the colon, the reader reports
      the end of the input; with some but too few bytes, io.ReadFull reports
      an unexpected end. */
  lemma TruncatedStrings()
    ensures ValueAt(Ascii("3:"), 0) == Err(EndOfInput)
    ensures ValueAt(Ascii("3:ab"), 0) == Err(UnexpectedEndOfInput)
  {
    var s := Ascii("3:");
    assert s == [51, Colon];
    assert IndexOf(s, 0, Colon) == Some(1);
    assert s[0..1] == [51];
    assert ScanUint([51], 0, 0) == Scanned(3);
    var t := Ascii("3:ab");
    assert t == [51, Colon, 97, 98];
    assert IndexOf(t, 0, Colon) == Some(1);
    assert t[0..1] == [51];
  }

  /** A negative length prefix of a dictionary key reaches `make` with a
      negative size. */
  lemma NegativeKeyLength()
    ensures ValueAt(Ascii("d-1:ae"), 0) == Err(NegativeLength(-1))
  {
    var s := Ascii("d-1:ae");
    assert s == [TagDict, Minus, 49, Colon, 97, End];
    assert IndexOf(s, 1, Colon) == Some(3);
    assert s[1..3] == [Minus, 49];
    assert ScanUint([49], 0, 0) == Scanned(1);
  }

  /** A length prefix beyond what `make` can allocate: `300000000000000:`
      (3 * 10^14 > 2^48) stops the decoder before anything is read. */
  lemma OversizedLength()
    ensures ValueAt(Ascii("300000000000000:"), 0) == Err(LengthTooLarge(300000000000000))
  {
    var d: seq<byte> := [51] + seq(14, _ => Zero);
    var s := d + [Colon];
    assert Ascii("300000000000000:") == s;
    OversizedScan(d);
    hide ScanUint, IntAt, ListAt, DictAt;
    assert s[0..15] == d;
    IndexOfAt(s, 0, 15, Colon);
  }

  /** The digits of 3 * 10^14 scan, one digit at a time, to that number. */
  lemma OversizedScan(d: seq<byte>)
    requires d == [51] + seq(14, _ => Zero)
    ensures ScanUint(d, 0, 0) == Scanned(300000000000000)
  {
    assert forall i :: 1 <= i < 15 ==> d[i] == Zero;
    assert ScanUint(d, 15, 300000000000000) == Scanned(300000000000000);
    assert ScanUint(d, 14, 30000000000000) == Scanned(300000000000000);
    assert ScanUint(d, 13, 3000000000000) == Scanned(300000000000000);
    assert ScanUint(d, 12, 300000000000) == Scanned(300000000000000);
    assert ScanUint(d, 11, 30000000000) == Scanned(300000000000000);
    assert ScanUint(d, 10, 3000000000) == Scanned(300000000000000);
    assert ScanUint(d, 9, 300000000) == Scanned(300000000000000);
    assert ScanUint(d, 8, 30000000) == Scanned(300000000000000);
    assert ScanUint(d, 7, 3000000) == Scanned(300000000000000);
    assert ScanUint(d, 6, 300000) == Scanned(300000000000000);
    assert ScanUint(d, 5, 30000) == Scanned(300000000000000);
    assert ScanUint(d, 4, 3000) == Scanned(300000000000000);
    assert ScanUint(d, 3, 300) == Scanned(300000000000000);
    assert ScanUint(d, 2, 30) == Scanned(300000000000000);
    assert ScanUint(d, 1, 3) == Scanned(300000000000000);
    assert ScanUint(d, 0, 0) == Scanned(300000000000000);
  }

  /** A repeated key keeps the value written last. */
  lemma DuplicateKey()
    ensures ValueAt(Ascii("d1:ai1e1:ai2ee"), 0)
         == Ok(Parsed(Dict(map[[97 as byte] := Int(2)]), 14))
  {
    var s: seq<byte> := [TagDict, 49, Colon, 97, TagInt, 49, End, 49, Colon, 97, TagInt, 50, End, End];
    assert Ascii("d1:ai1e1:ai2ee") == s;
    DuplicateKeyDict(s);
  }

  lemma DuplicateKeyDict(s: seq<byte>)
    requires s == [TagDict, 49, Colon, 97, TagInt, 49, End, 49, Colon, 97, TagInt, 50, End, End]
    ensures ValueAt(s, 0) == Ok(Parsed(Dict(map[[97 as byte] := Int(2)]), 14))
  {
    DuplicateKeyEntries(s);
    hide IntAt, StringAt, ListAt, EntriesFrom;
    assert s[0] == TagDict && DictAt(s, 0) == EntriesFrom(s, 1, map[]);
  }

  lemma DuplicateKeyEntries(s: seq<byte>)
    requires s == [TagDict, 49, Colon, 97, TagInt, 49, End, 49, Colon, 97, TagInt, 50, End, End]
    ensures EntriesFrom(s, 1, map[]) == Ok(Parsed(map[[97 as byte] := Int(2)], 14))
  {
    assert s[1..7] == [49, Colon, 97, TagInt, 49, End];
    assert s[7..13] == [49, Colon, 97, TagInt, 50, End];
    DuplicateKeyEntry(s, 1, 49, 1);
    DuplicateKeyEntry(s, 7, 50, 2);
    hide StringAt, ValueAt;
    var a: seq<byte> := [97];
    assert s[1] != End && s[7] != End && s[13] == End;
    assert EntriesFrom(s, 1, map[]) == EntriesFrom(s, 7, map[a := Int(1)]);
    assert map[a := Int(1)][a := Int(2)] == map[a := Int(2)];
    assert EntriesFrom(s, 7, map[a := Int(1)]) == EntriesFrom(s, 13, map[a := Int(2)]);
  }

  /** The entry `1:ai<d>e` at position p: key "a", then the integer digit d. */
  lemma DuplicateKeyEntry(s: seq<byte>, p: nat, d: byte, n: int64)
    requires p + 6 <= |s| && IsDigit(d) && n == (d - Zero) as int
    requires s[p..p + 6] == [49, Colon, 97, TagInt, d, End]
    ensures StringAt(s, p) == Ok(Parsed([97], p + 3))
    ensures ValueAt(s, p + 3) == Ok(Parsed(Int(n), p + 6))
  {
    assert s[p] == 49 && s[p + 1] == Colon && s[p + 2] == 97;
    assert s[p + 3] == TagInt && s[p + 4] == d && s[p + 5] == End;
    assert s[p..p + 3] == [49, Colon, 97];
    assert s[p + 3..p + 6] == [TagInt, d, End];
    SingleByteKey(s, p);
    DigitInteger(s, p + 3, d, n);
  }

  /** `1:a` at position p is the key "a". */
  lemma SingleByteKey(s: seq<byte>, p: nat)
    requires p + 3 <= |s| && s[p..p + 3] == [49, Colon, 97]
    ensures StringAt(s, p) == Ok(Parsed([97], p + 3))
  {
    hide ValueAt, IntAt, ListAt, DictAt;
    assert s[p] == 49 && s[p + 1] == Colon && s[p + 2] == 97;
    IndexOfAt(s, p, p + 1, Colon);
    assert s[p..p + 1] == [49] && s[p + 2..p + 3] == [97];
    assert ScanUint([49], 0, 0) == Scanned(1);
  }

  /** `i<d>e` at position q is the integer the digit d denotes. */
  lemma DigitInteger(s: seq<byte>, q: nat, d: byte, n: int64)
    requires q + 3 <= |s| && IsDigit(d) && n == (d - Zero) as int
    requires s[q..q + 3] == [TagInt, d, End]
    ensures ValueAt(s, q) == Ok(Parsed(Int(n), q + 3))
  {
    hide StringAt, ListAt, DictAt;
    assert s[q] == TagInt && s[q + 1] == d && s[q + 2] == End;
    IndexOfAt(s, q + 1, q + 2, End);
    assert s[q + 1..q + 2] == [d];
    assert ScanUint([d], 0, 0) == Scanned(n);
  }
}
