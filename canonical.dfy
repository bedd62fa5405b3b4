/** The bencoding of BEP 3 ("The BitTorrent Protocol Specification", section
    "bencoding") as a specification aid, and what the decoder of module
    Bencode does with it.

    The Go repository has no encoder: `Encode` below is written from the
    grammar in the header comment of bitTorrentClient/bencodeDecoder.go, with
    dictionary keys emitted in ascending byte order as BEP 3 requires. It
    models no source code; it exists to state the round trip
    `ValueAt(Encode(v)) == v` and the decoder's framing. */
module Canonical {
  import opened Base
  import opened Decimal
  import opened Bencode

  /** Byte-wise lexicographic order on byte strings ("keys must be strings
      and appear in sorted order, sorted as raw strings"). */
  predicate LexLe(a: seq<byte>, b: seq<byte>)
    decreases |a|
  {
    a == [] || (b != [] && (a[0] < b[0] || (a[0] == b[0] && LexLe(a[1..], b[1..]))))
  }

  lemma {:induction false} LexLeRefl(a: seq<byte>)
    ensures LexLe(a, a)
    decreases |a|
  {
    if a != [] {
      LexLeRefl(a[1..]);
    }
  }

  lemma {:induction false} LexLeTotal(a: seq<byte>, b: seq<byte>)
    ensures LexLe(a, b) || LexLe(b, a)
    decreases |a|
  {
    if a != [] && b != [] && a[0] == b[0] {
      LexLeTotal(a[1..], b[1..]);
    }
  }

  lemma {:induction false} LexLeTrans(a: seq<byte>, b: seq<byte>, c: seq<byte>)
    requires LexLe(a, b) && LexLe(b, c)
    ensures LexLe(a, c)
    decreases |a|
  {
    if a != [] && a[0] == b[0] && b[0] == c[0] {
      LexLeTrans(a[1..], b[1..], c[1..]);
    }
  }

  ghost predicate IsLeast(m: seq<byte>, ks: set<seq<byte>>)
  {
    m in ks && forall k :: k in ks ==> LexLe(m, k)
  }

  /** Every non-empty finite set of keys has a least element. */
  lemma {:induction false} HasLeast(ks: set<seq<byte>>)
    requires ks != {}
    ensures exists m :: IsLeast(m, ks)
    decreases |ks|
  {
    var x :| x in ks;
    LexLeRefl(x);
    if ks != {x} {
      var rest := ks - {x};
      HasLeast(rest);
      var m :| IsLeast(m, rest);
      LexLeTotal(x, m);
      if LexLe(x, m) {
        forall k | k in ks ensures LexLe(x, k) {
          if k != x {
            LexLeTrans(x, m, k);
          }
        }
        assert IsLeast(x, ks);
      } else {
        assert IsLeast(m, ks);
      }
    } else {
      assert IsLeast(x, ks);
    }
  }

  /** The least key of a non-empty set (LeastIsLeast). */
  ghost function Least(ks: set<seq<byte>>): (m: seq<byte>)
    requires ks != {}
    ensures m in ks
  {
    HasLeast(ks);
    var m :| IsLeast(m, ks);
    m
  }

  lemma {:induction false} LeastIsLeast(ks: set<seq<byte>>)
    requires ks != {}
    ensures IsLeast(Least(ks), ks)
  {
  }

  /** The keys of a dictionary in the order the canonical encoding emits
      them (SortedKeysOrder: each key once, ascending). */
  ghost function SortedKeys(ks: set<seq<byte>>): seq<seq<byte>>
    decreases |ks|
  {
    if ks == {} then [] else [Least(ks)] + SortedKeys(ks - {Least(ks)})
  }

  /** SortedKeys lists exactly the keys of `ks`. */
  lemma {:induction false} SortedKeysHas(ks: set<seq<byte>>)
    ensures forall k :: k in ks <==> k in SortedKeys(ks)
    decreases |ks|
  {
    if ks != {} {
      SortedKeysHas(ks - {Least(ks)});
    }
  }

  /** SortedKeys lists each key once, in strictly ascending order. */
  lemma {:induction false} SortedKeysOrder(ks: set<seq<byte>>)
    ensures |SortedKeys(ks)| == |ks|
    ensures forall i, j :: 0 <= i < j < |SortedKeys(ks)| ==>
      LexLe(SortedKeys(ks)[i], SortedKeys(ks)[j]) && SortedKeys(ks)[i] != SortedKeys(ks)[j]
    decreases |ks|
  {
    if ks != {} {
      var m := Least(ks);
      LeastIsLeast(ks);
      var rest := SortedKeys(ks - {m});
      SortedKeysHas(ks - {m});
      SortedKeysOrder(ks - {m});
      assert SortedKeys(ks) == [m] + rest;
      forall i, j | 0 <= i < j < |SortedKeys(ks)|
        ensures LexLe(SortedKeys(ks)[i], SortedKeys(ks)[j]) && SortedKeys(ks)[i] != SortedKeys(ks)[j]
      {
        assert SortedKeys(ks)[j] == rest[j - 1] && rest[j - 1] in rest;
        if i > 0 {
          assert SortedKeys(ks)[i] == rest[i - 1];
        }
      }
    }
  }

  /** Values the decoder can return: `make` refuses any length above
      MaxAlloc, so every string (and key) has at most MaxAlloc bytes. */
  ghost predicate Representable(v: Value)
    decreases v, 1
  {
    match v
    case Int(_) => true
    case Str(b) => |b| <= MaxAlloc
    case List(items) => AllRepresentable(items)
    case Dict(m) => EntriesRepresentable(m, SortedKeys(m.Keys))
  }

  ghost predicate AllRepresentable(items: seq<Value>)
    decreases items
  {
    items == [] || (Representable(items[0]) && AllRepresentable(items[1..]))
  }

  /** The entries of `m` under `keys` have representable keys and values. */
  ghost predicate EntriesRepresentable(m: map<seq<byte>, Value>, keys: seq<seq<byte>>)
    decreases Dict(m), 0, |keys|
  {
    keys == [] ||
    ((keys[0] in m ==> |keys[0]| <= MaxAlloc && Representable(m[keys[0]]))
     && EntriesRepresentable(m, keys[1..]))
  }

  /** `<length in base 10>:<byte string>` */
  function EncodeString(b: seq<byte>): (r: seq<byte>)
    ensures r != [] && IsDigit(r[0])
  {
    Digits(|b|) + [Colon] + b
  }

  /** The canonical bencoding of a value (specification aid, see above). */
  ghost function Encode(v: Value): (r: seq<byte>)
    ensures r != [] && r[0] != End
    decreases v, 1
  {
    match v
    case Int(n) => [TagInt] + FormatInt(n) + [End]
    case Str(b) => EncodeString(b)
    case List(items) => [TagList] + EncodeItems(items) + [End]
    case Dict(m) => [TagDict] + EncodeEntries(m, SortedKeys(m.Keys)) + [End]
  }

  ghost function EncodeItems(items: seq<Value>): seq<byte>
    decreases items
  {
    if items == [] then [] else Encode(items[0]) + EncodeItems(items[1..])
  }

  /** The entries of `m` under `keys`, in that order (keys not in `m` are
      skipped). */
  ghost function EncodeEntries(m: map<seq<byte>, Value>, keys: seq<seq<byte>>): seq<byte>
    decreases Dict(m), 0, |keys|
  {
    if keys == [] then []
    else if keys[0] in m then EncodeString(keys[0]) + Encode(m[keys[0]]) + EncodeEntries(m, keys[1..])
    else EncodeEntries(m, keys[1..])
  }

  /** decodeDict's map after storing, in order, the entries of `m` under
      `keys` into `acc` (FoldAll: with every key of `m` listed, starting
      from the empty map, this is `m` itself). */
  function Fold(acc: map<seq<byte>, Value>, m: map<seq<byte>, Value>, keys: seq<seq<byte>>): map<seq<byte>, Value>
    decreases |keys|
  {
    if keys == [] then acc
    else if keys[0] in m then Fold(acc[keys[0] := m[keys[0]]], m, keys[1..])
    else Fold(acc, m, keys[1..])
  }

  /** `s` holds `w` starting at position p (HoldsAtSlice). Stated byte by
      byte, one byte per unfolding, so that the round-trip proofs can split
      it without reasoning about whole slices. */
  ghost predicate HoldsAt(s: seq<byte>, p: nat, w: seq<byte>)
  {
    p + |w| <= |s| && HoldsFrom(s, p, w, 0)
  }

  /** Bytes i, i + 1, ... of `w` are at p + i, p + i + 1, ... in `s`. */
  ghost predicate HoldsFrom(s: seq<byte>, p: nat, w: seq<byte>, i: nat)
    decreases |w| - i
  {
    i >= |w| || (p + i < |s| && s[p + i] == w[i] && HoldsFrom(s, p, w, i + 1))
  }

  lemma {:induction false} HoldsFromAll(s: seq<byte>, p: nat, w: seq<byte>, i: nat)
    requires p + |w| <= |s|
    ensures HoldsFrom(s, p, w, i) <==> forall j :: i <= j < |w| ==> s[p + j] == w[j]
    decreases |w| - i
  {
    if i < |w| {
      HoldsFromAll(s, p, w, i + 1);
    }
  }

  lemma {:induction false} HoldsAtSlice(s: seq<byte>, p: nat, w: seq<byte>)
    ensures HoldsAt(s, p, w) <==> p + |w| <= |s| && s[p..p + |w|] == w
  {
    if p + |w| <= |s| {
      HoldsFromAll(s, p, w, 0);
      if s[p..p + |w|] == w {
        forall j | 0 <= j < |w| ensures s[p + j] == w[j] {
          assert s[p..p + |w|][j] == w[j];
        }
      }
    }
  }

  lemma {:induction false} HoldsAtSplit(s: seq<byte>, p: nat, a: seq<byte>, b: seq<byte>)
    requires HoldsAt(s, p, a + b)
    ensures HoldsAt(s, p, a) && HoldsAt(s, p + |a|, b)
  {
    HoldsFromAll(s, p, a + b, 0);
    HoldsFromAll(s, p, a, 0);
    HoldsFromAll(s, p + |a|, b, 0);
    forall j | 0 <= j < |a| ensures s[p + j] == a[j] {
      assert (a + b)[j] == a[j];
    }
    forall j | 0 <= j < |b| ensures s[p + |a| + j] == b[j] {
      assert (a + b)[|a| + j] == b[j];
    }
  }

  lemma {:induction false} HoldsAtJoin(s: seq<byte>, p: nat, a: seq<byte>, b: seq<byte>)
    requires HoldsAt(s, p, a) && HoldsAt(s, p + |a|, b)
    ensures HoldsAt(s, p, a + b)
  {
    HoldsFromAll(s, p, a + b, 0);
    HoldsFromAll(s, p, a, 0);
    HoldsFromAll(s, p + |a|, b, 0);
    forall j | 0 <= j < |a + b| ensures s[p + j] == (a + b)[j] {
      if j >= |a| {
        assert s[p + |a| + (j - |a|)] == b[j - |a|];
      }
    }
  }

  lemma {:induction false} HoldsAtFirst(s: seq<byte>, p: nat, w: seq<byte>)
    requires HoldsAt(s, p, w) && w != []
    ensures p < |s| && s[p] == w[0]
  {
  }

  /** A token framed by a one-byte tag and the closing `e`. */
  lemma {:induction false} HoldsAtFramed(s: seq<byte>, p: nat, tag: byte, body: seq<byte>)
    requires HoldsAt(s, p, [tag] + body + [End])
    ensures p < |s| && s[p] == tag && HoldsAt(s, p + 1, body)
  {
    HoldsAtSplit(s, p, [tag] + body, [End]);
    HoldsAtSplit(s, p, [tag], body);
    HoldsAtFirst(s, p, [tag]);
  }

  /** The closing `e` of a framed encoding is at `close`. */
  lemma {:induction false} HoldsAtClosed(s: seq<byte>, p: nat, tag: byte, body: seq<byte>, close: nat)
    requires HoldsAt(s, p, [tag] + body + [End]) && close == p + 1 + |body|
    ensures close < |s| && s[close] == End
  {
    HoldsAtSplit(s, p, [tag] + body, [End]);
    HoldsAtFirst(s, close, [End]);
  }

  /** The decoder reads a length-prefixed string back, stopping right after it. */
  lemma {:induction false} DecodeEncodeString(b: seq<byte>, s: seq<byte>, p: nat)
    requires |b| <= MaxAlloc && HoldsAt(s, p, EncodeString(b))
    ensures StringAt(s, p) == Ok(Parsed(b, p + |EncodeString(b)|))
  {
    var d := Digits(|b|);
    HoldsAtSplit(s, p, d + [Colon], b);
    HoldsAtSplit(s, p, d, [Colon]);
    HoldsAtSlice(s, p, d);
    HoldsAtFirst(s, p + |d|, [Colon]);
    HoldsAtSlice(s, p + |d| + 1, b);
    IndexOfAt(s, p, p + |d|, Colon);
    FormatParse(|b|);
    assert FormatInt(|b|) == d;
  }

  /** The decoder reads `i<decimal>e` back as the integer. */
  lemma {:induction false} DecodeEncodeInt(n: int64, s: seq<byte>, p: nat)
    requires HoldsAt(s, p, [TagInt] + FormatInt(n) + [End])
    ensures p < |s| && s[p] == TagInt
    ensures IntAt(s, p) == Ok(Parsed(n, p + |FormatInt(n)| + 2))
  {
    hide ParseInt, ValueAt, StringAt, ListAt, DictAt, HoldsAt;
    var f := FormatInt(n);
    HoldsAtFramed(s, p, TagInt, f);
    HoldsAtClosed(s, p, TagInt, f, p + 1 + |f|);
    HoldsAtSlice(s, p + 1, f);
    FormatParse(n);
    assert End !in f;
    IndexOfAt(s, p + 1, p + 1 + |f|, End);
  }

  /** Round trip with framing: wherever the encoding of v sits in the input,
      the decoder started on its first byte returns v and stops exactly
      after its last byte. */
  lemma {:induction false} DecodeEncode(v: Value, s: seq<byte>, p: nat)
    requires Representable(v) && HoldsAt(s, p, Encode(v))
    ensures ValueAt(s, p) == Ok(Parsed(v, p + |Encode(v)|))
    decreases v, 3
  {
    hide IntAt, StringAt, ListAt, DictAt;

    match v
    case Int(n) =>
      DecodeEncodeInt(n, s, p);
    case Str(b) =>
      HoldsAtFirst(s, p, Encode(v));
      DecodeEncodeString(b, s, p);
    case List(items) =>
      var e := DecodeEncodeList(items, s, p);
    case Dict(m) =>
      var e := DecodeEncodeDict(m, s, p);
  }

  lemma {:induction false} DecodeEncodeList(items: seq<Value>, s: seq<byte>, p: nat) returns (e: nat)
    requires AllRepresentable(items)
    requires HoldsAt(s, p, [TagList] + EncodeItems(items) + [End])
    ensures e == p + |EncodeItems(items)| + 2
    ensures p < |s| && s[p] == TagList && ListAt(s, p) == Ok(Parsed(items, e))
    decreases items, 2
  {
    hide *;

    HoldsAtFramed(s, p, TagList, EncodeItems(items));
    var f := DecodeEncodeItems(items, s, p + 1, []);
    HoldsAtClosed(s, p, TagList, EncodeItems(items), f);
    e := f + 1;
    ListAtItems(s, p, f, [] + items);
    assert [] + items == items;
  }

  lemma {:induction false} DecodeEncodeDict(m: map<seq<byte>, Value>, s: seq<byte>, p: nat) returns (e: nat)
    requires EntriesRepresentable(m, SortedKeys(m.Keys))
    requires HoldsAt(s, p, [TagDict] + EncodeEntries(m, SortedKeys(m.Keys)) + [End])
    ensures e == p + |EncodeEntries(m, SortedKeys(m.Keys))| + 2
    ensures p < |s| && s[p] == TagDict && DictAt(s, p) == Ok(Parsed(m, e))
    decreases Dict(m), 2
  {
    hide *;

    HoldsAtFramed(s, p, TagDict, EncodeEntries(m, SortedKeys(m.Keys)));
    var f := DecodeEncodeEntries(m, SortedKeys(m.Keys), s, p + 1, map[]);
    HoldsAtClosed(s, p, TagDict, EncodeEntries(m, SortedKeys(m.Keys)), f);
    e := f + 1;
    FoldSorted(m);
    DictAtEntries(s, p, f, m);
  }

  /** decodeDict does not check key order: the entries of `m` written in
      any order that lists every key (repeats included) decode to `m`. */
  lemma {:induction false} DecodeAnyKeyOrder(m: map<seq<byte>, Value>, keys: seq<seq<byte>>, s: seq<byte>, p: nat)
    requires forall k :: k in m ==> k in keys
    requires EntriesRepresentable(m, keys)
    requires HoldsAt(s, p, [TagDict] + EncodeEntries(m, keys) + [End])
    ensures p < |s| && s[p] == TagDict
    ensures DictAt(s, p) == Ok(Parsed(m, p + |EncodeEntries(m, keys)| + 2))
  {
    hide *;
    HoldsAtFramed(s, p, TagDict, EncodeEntries(m, keys));
    var f := DecodeEncodeEntries(m, keys, s, p + 1, map[]);
    HoldsAtClosed(s, p, TagDict, EncodeEntries(m, keys), f);
    FoldAll(m, keys);
    DictAtEntries(s, p, f, m);
  }

  /** decodeList's loop over the encodings of `items`: it reaches the end
      of them having appended them all. */
  lemma {:induction false} DecodeEncodeItems(items: seq<Value>, s: seq<byte>, q: nat, acc: seq<Value>)
    returns (e: nat)
    requires AllRepresentable(items) && HoldsAt(s, q, EncodeItems(items))
    ensures e == q + |EncodeItems(items)|
    ensures ItemsFrom(s, q, acc) == ItemsFrom(s, e, acc + items)
    decreases items, 1
  {
    if items == [] {
      e := q;
      assert acc + items == acc;
    } else {
      var q1 := DecodeEncodeItem(items[0], EncodeItems(items[1..]), s, q, acc);
      e := DecodeEncodeItems(items[1..], s, q1, acc + [items[0]]);
      AppendFirst(acc, items);
    }
  }

  /** The value v, encoded and followed by `rest`, is decoded back; `e` is
      where `rest` starts. */
  lemma {:induction false} DecodeEncodeThen(v: Value, rest: seq<byte>, s: seq<byte>, q: nat) returns (e: nat)
    requires Representable(v) && HoldsAt(s, q, Encode(v) + rest)
    ensures e == q + |Encode(v)| && HoldsAt(s, e, rest)
    ensures q < |s| && s[q] != End && ValueAt(s, q) == Ok(Parsed(v, e))
    decreases v, 4
  {
    hide ValueAt;

    e := q + |Encode(v)|;
    HoldsAtSplit(s, q, Encode(v), rest);
    HoldsAtFirst(s, q, Encode(v));
    DecodeEncode(v, s, q);
  }

  /** One turn of decodeList's loop over the encoding of the item v, followed
      by `rest`; `e` is where `rest` starts. */
  lemma {:induction false} DecodeEncodeItem(v: Value, rest: seq<byte>, s: seq<byte>, q: nat, acc: seq<Value>)
    returns (e: nat)
    requires Representable(v) && HoldsAt(s, q, Encode(v) + rest)
    ensures e == q + |Encode(v)| && HoldsAt(s, e, rest)
    ensures ItemsFrom(s, q, acc) == ItemsFrom(s, e, acc + [v])
    decreases v, 5
  {
    e := DecodeEncodeThen(v, rest, s, q);
    ItemsFromStep(s, q, acc, v, e);
  }

  /** decodeList's loop stops at `e`. */
  lemma {:induction false} ItemsFromEnd(s: seq<byte>, q: nat, acc: seq<Value>)
    requires q < |s| && s[q] == End
    ensures ItemsFrom(s, q, acc) == Ok(Parsed(acc, q + 1))
  {
  }

  /** decodeDict's loop stops at `e`. */
  lemma {:induction false} EntriesFromEnd(s: seq<byte>, q: nat, acc: map<seq<byte>, Value>)
    requires q < |s| && s[q] == End
    ensures EntriesFrom(s, q, acc) == Ok(Parsed(acc, q + 1))
  {
  }

  /** decodeList returns what its loop, started after the `l`, returns. */
  lemma {:induction false} ListAtItems(s: seq<byte>, p: nat, f: nat, items: seq<Value>)
    requires p < |s| && f < |s| && s[f] == End && ItemsFrom(s, p + 1, []) == ItemsFrom(s, f, items)
    ensures ListAt(s, p) == Ok(Parsed(items, f + 1))
  {
  }

  /** decodeDict returns what its loop, started after the `d`, returns. */
  lemma {:induction false} DictAtEntries(s: seq<byte>, p: nat, f: nat, m: map<seq<byte>, Value>)
    requires p < |s| && f < |s| && s[f] == End && EntriesFrom(s, p + 1, map[]) == EntriesFrom(s, f, m)
    ensures DictAt(s, p) == Ok(Parsed(m, f + 1))
  {
  }

  /** One turn of decodeList's loop: an item that is not `e` is decoded and
      appended. */
  lemma {:induction false} ItemsFromStep(s: seq<byte>, q: nat, acc: seq<Value>, v: Value, e: nat)
    requires q < |s| && s[q] != End && ValueAt(s, q) == Ok(Parsed(v, e))
    ensures ItemsFrom(s, q, acc) == ItemsFrom(s, e, acc + [v])
  {
  }

  /** decodeDict's loop over the encodings of the entries under `keys`:
      it reaches the end of them having stored them all. */
  lemma {:induction false} DecodeEncodeEntries(m: map<seq<byte>, Value>, keys: seq<seq<byte>>,
                                               s: seq<byte>, q: nat, acc: map<seq<byte>, Value>)
    returns (e: nat)
    requires EntriesRepresentable(m, keys) && HoldsAt(s, q, EncodeEntries(m, keys))
    ensures e == q + |EncodeEntries(m, keys)|
    ensures EntriesFrom(s, q, acc) == EntriesFrom(s, e, Fold(acc, m, keys))
    decreases Dict(m), 1, |keys|, 1
  {
    if keys == [] {
      e := q;
    } else if keys[0] in m {
      e := DecodeEncodeEntriesCons(keys[0], m[keys[0]], m, keys[1..], s, q, acc);
    } else {
      e := DecodeEncodeEntries(m, keys[1..], s, q, acc);
    }
  }

  /** The entry k: v followed by the entries of `m` under `keys`. */
  lemma {:induction false} DecodeEncodeEntriesCons(k: seq<byte>, v: Value, m: map<seq<byte>, Value>,
                                                   keys: seq<seq<byte>>, s: seq<byte>, q: nat,
                                                   acc: map<seq<byte>, Value>)
    returns (f: nat)
    requires k in m && m[k] == v
    requires |k| <= MaxAlloc && Representable(v) && EntriesRepresentable(m, keys)
    requires HoldsAt(s, q, EncodeString(k) + Encode(v) + EncodeEntries(m, keys))
    ensures f == q + |EncodeString(k)| + |Encode(v)| + |EncodeEntries(m, keys)|
    ensures EntriesFrom(s, q, acc) == EntriesFrom(s, f, Fold(acc[k := v], m, keys))
    decreases Dict(m), 1, |keys| + 1, 0
  {
    var e := DecodeEncodeEntry(k, v, EncodeEntries(m, keys), s, q, acc);
    f := DecodeEncodeEntries(m, keys, s, e, acc[k := v]);
  }

  /** One turn of decodeDict's loop over the encoding of the entry k: v,
      followed by `rest`; `e` is where `rest` starts. */
  lemma {:induction false} DecodeEncodeEntry(k: seq<byte>, v: Value, rest: seq<byte>,
                          s: seq<byte>, q: nat, acc: map<seq<byte>, Value>)
    returns (e: nat)
    requires |k| <= MaxAlloc && Representable(v)
    requires HoldsAt(s, q, EncodeString(k) + Encode(v) + rest)
    ensures e == q + |EncodeString(k)| + |Encode(v)| && HoldsAt(s, e, rest)
    ensures EntriesFrom(s, q, acc) == EntriesFrom(s, e, acc[k := v])
    decreases v, 5
  {
    var ke := DecodeEncodeKey(k, Encode(v), rest, s, q);
    e := DecodeEncodeThen(v, rest, s, ke);
    EntriesFromStep(s, q, acc, k, ke, v, e);
  }

  /** A dictionary key, encoded and followed by `b + c`, is read back by
      decodeString; `ke` is where `b` starts. */
  lemma {:induction false} DecodeEncodeKey(k: seq<byte>, b: seq<byte>, c: seq<byte>, s: seq<byte>, q: nat) returns (ke: nat)
    requires |k| <= MaxAlloc && HoldsAt(s, q, EncodeString(k) + b + c)
    ensures ke == q + |EncodeString(k)| && HoldsAt(s, ke, b + c)
    ensures q < |s| && s[q] != End && StringAt(s, q) == Ok(Parsed(k, ke))
  {
    var key := EncodeString(k);
    ke := q + |key|;
    HoldsAtSplit(s, q, key + b, c);
    HoldsAtSplit(s, q, key, b);
    HoldsAtJoin(s, ke, b, c);
    HoldsAtFirst(s, q, key);
    DecodeEncodeString(k, s, q);
  }

  /** One turn of decodeDict's loop: a key and a value are decoded and the
      entry stored. */
  lemma {:induction false} EntriesFromStep(s: seq<byte>, q: nat, acc: map<seq<byte>, Value>,
                        k: seq<byte>, ke: nat, v: Value, e: nat)
    requires q < |s| && s[q] != End
    requires StringAt(s, q) == Ok(Parsed(k, ke)) && ke <= |s| && ValueAt(s, ke) == Ok(Parsed(v, e))
    ensures EntriesFrom(s, q, acc) == EntriesFrom(s, e, acc[k := v])
  {
  }

  /** Decoding the canonical encoding of v gives v back, having read all of
      it; re-encoding that result reproduces the input byte for byte. */
  lemma {:induction false} RoundTrip(v: Value)
    requires Representable(v)
    ensures ValueAt(Encode(v), 0) == Ok(Parsed(v, |Encode(v)|))
    ensures Encode(ValueAt(Encode(v), 0).value.value) == Encode(v)
  {
    assert Encode(v)[0..|Encode(v)|] == Encode(v);
    HoldsAtSlice(Encode(v), 0, Encode(v));
    DecodeEncode(v, Encode(v), 0);
  }

  lemma {:induction false} IndexOfExtend(s: seq<byte>, t: seq<byte>, from: nat, b: byte)
    requires from <= |s| && IndexOf(s, from, b).Some?
    ensures IndexOf(s + t, from, b) == IndexOf(s, from, b)
  {
    var j := IndexOf(s, from, b).value;
    assert (s + t)[from..j] == s[from..j];
    IndexOfAt(s + t, from, j, b);
  }

  /** The decoder never looks past the end of the value it returns: bytes
      appended to the input do not change the result. */
  lemma {:induction false} ValueAtExtend(s: seq<byte>, t: seq<byte>, p: nat)
    requires p <= |s| && ValueAt(s, p).Ok?
    ensures ValueAt(s + t, p) == ValueAt(s, p)
    decreases |s| - p, 1
  {
    assert (s + t)[p] == s[p];
    if s[p] == TagInt {
      var j := IndexOf(s, p + 1, End).value;
      IndexOfExtend(s, t, p + 1, End);
      assert (s + t)[p + 1..j] == s[p + 1..j];
    } else if IsDigit(s[p]) {
      StringAtExtend(s, t, p);
    } else if s[p] == TagList {
      ItemsFromExtend(s, t, p + 1, []);
    } else {
      EntriesFromExtend(s, t, p + 1, map[]);
    }
  }

  lemma {:induction false} StringAtExtend(s: seq<byte>, t: seq<byte>, p: nat)
    requires p <= |s| && StringAt(s, p).Ok?
    ensures StringAt(s + t, p) == StringAt(s, p)
  {
    var j := IndexOf(s, p, Colon).value;
    IndexOfExtend(s, t, p, Colon);
    assert (s + t)[p..j] == s[p..j];
    var n := StringAt(s, p).value.end;
    assert (s + t)[j + 1..n] == s[j + 1..n];
  }

  lemma {:induction false} ItemsFromExtend(s: seq<byte>, t: seq<byte>, p: nat, acc: seq<Value>)
    requires p <= |s| && ItemsFrom(s, p, acc).Ok?
    ensures ItemsFrom(s + t, p, acc) == ItemsFrom(s, p, acc)
    decreases |s| - p, 2
  {
    assert (s + t)[p] == s[p];
    if s[p] != End {
      ValueAtExtend(s, t, p);
      var item := ValueAt(s, p).value;
      ItemsFromExtend(s, t, item.end, acc + [item.value]);
    }
  }

  lemma {:induction false} EntriesFromExtend(s: seq<byte>, t: seq<byte>, p: nat, acc: map<seq<byte>, Value>)
    requires p <= |s| && EntriesFrom(s, p, acc).Ok?
    ensures EntriesFrom(s + t, p, acc) == EntriesFrom(s, p, acc)
    decreases |s| - p, 2
  {
    assert (s + t)[p] == s[p];
    if s[p] != End {
      StringAtExtend(s, t, p);
      var key := StringAt(s, p).value;
      ValueAtExtend(s, t, key.end);
      var v := ValueAt(s, key.end).value;
      EntriesFromExtend(s, t, v.end, acc[key.value := v.value]);
    }
  }

  lemma {:induction false} AppendFirst<T>(acc: seq<T>, items: seq<T>)
    requires items != []
    ensures acc + [items[0]] + items[1..] == acc + items
  {
    assert items == [items[0]] + items[1..];
  }

  lemma {:induction false} FoldStore(acc: map<seq<byte>, Value>, m: map<seq<byte>, Value>, keys: seq<seq<byte>>)
    ensures forall k :: k in Fold(acc, m, keys) <==> k in acc || (k in keys && k in m)
    ensures forall k :: k in Fold(acc, m, keys) ==>
      Fold(acc, m, keys)[k] == if k in keys && k in m then m[k] else acc[k]
    decreases |keys|
  {
    if keys != [] {
      FoldStore(if keys[0] in m then acc[keys[0] := m[keys[0]]] else acc, m, keys[1..]);
      assert forall k :: k in keys <==> k == keys[0] || k in keys[1..];
    }
  }

  /** Storing the entries of `m` in ascending key order rebuilds `m`. */
  lemma {:induction false} FoldSorted(m: map<seq<byte>, Value>)
    ensures Fold(map[], m, SortedKeys(m.Keys)) == m
  {
    SortedKeysHas(m.Keys);
    FoldAll(m, SortedKeys(m.Keys));
  }

  lemma {:induction false} FoldAll(m: map<seq<byte>, Value>, keys: seq<seq<byte>>)
    requires forall k :: k in m ==> k in keys
    ensures Fold(map[], m, keys) == m
  {
    FoldStore(map[], m, keys);
    var f := Fold(map[], m, keys);
    forall k ensures k in f <==> k in m {
    }
    assert forall k :: k in f ==> f[k] == m[k];
  }
}
