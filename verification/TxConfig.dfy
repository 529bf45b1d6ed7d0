/**
 The configuration file of TxConfig.cpp: what MakeConfig writes and what ParseConfig makes of a buffer.
 */
module TxConfig {
  import opened Wrappers
  import opened Bits
  import opened Bitwise

  type Wide = w: nat | w < 0x1_0000
  type Key = seq<Wide>
  type Value = seq<Byte>

  datatype Item = Item(key: Key, value: Value)

  // ----- fields

  function Octet(n: nat): Byte {
    n % 256
  }

  function Word(n: nat): (r: seq<Byte>)
    ensures |r| == 2
  {
    [Octet(n), Octet(n / 256)]
  }

  function DWord(n: nat): (r: seq<Byte>)
    ensures |r| == 4
  {
    Word(n % 0x1_0000) + Word(n / 0x1_0000)
  }

  function GetWord(b: seq<Byte>): (r: Wide)
    requires |b| >= 2
  {
    var lo: nat, hi: nat := b[0], b[1];
    lo + 256 * hi
  }

  function GetDWord(b: seq<Byte>): nat
    requires |b| >= 4
  {
    GetWord(b) + 0x1_0000 * GetWord(b[2..])
  }

  lemma WordBack(n: nat, rest: seq<Byte>)
    requires n < 0x1_0000
    ensures GetWord(Word(n) + rest) == n
  {
    assert n == n % 256 + 256 * (n / 256);
  }

  lemma DWordBack(n: nat, rest: seq<Byte>)
    requires n < 0x1_0000_0000
    ensures GetDWord(DWord(n) + rest) == n
  {
    hide GetWord, Word;
    var lo, hi := n % 0x1_0000, n / 0x1_0000;
    assert DWord(n) + rest == Word(lo) + (Word(hi) + rest);
    assert (DWord(n) + rest)[2..] == Word(hi) + rest;
    WordBack(lo, Word(hi) + rest);
    WordBack(hi, rest);
  }

  // ----- the coding of keys and values

  function Mask(len: nat): nat {
    Xor(Octet(len), Octet(len / 256))
  }

  /** The mask exclusive-or the complement of b. */
  function Flip(mask: nat, b: Byte): Byte
    requires mask < 256
  {
    FlipBound(mask, b);
    Xor(mask, Xor(b, 0xff))
  }

  lemma FlipBound(mask: nat, b: Byte)
    requires mask < 256
    ensures Xor(mask, Xor(b, 0xff)) < 256
  {
    assert Pow2(8) == 256;
    hide Pow2;
    XorBound(b, 0xff, 8);
    XorBound(mask, Xor(b, 0xff), 8);
  }

  lemma MaskBound(len: nat)
    ensures Mask(len) < 256
  {
    assert Pow2(8) == 256;
    hide Pow2;
    XorBound(Octet(len), Octet(len / 256), 8);
  }

  /** Bit i of a coded byte is that of the byte, of both bytes of the length, and a one, taken together. */
  lemma FlippedBit(len: nat, b: Byte, i: nat)
    requires i < 8
    ensures Mask(len) < 256
    ensures Bit(Flip(Mask(len), b), i) <==> (Bit(Octet(len), i) != Bit(Octet(len / 256), i)) == Bit(b, i)
  {
    hide Xor, Bit;
    MaskBound(len);
    XorBit(Octet(len), Octet(len / 256), i);
    XorBit(b, 0xff, i);
    XorBit(Mask(len), Xor(b, 0xff), i);
    BitOfOnes(i);
  }

  lemma BitOfOnes(i: nat)
    requires i < 8
    ensures Bit(0xff, i)
  {
    assert Pow2(8) == 256;
    BitOfAllOnes(8, i);
  }

  function Coded(b: seq<Byte>, len: nat): (r: seq<Byte>)
    ensures |r| == |b|
  {
    MaskBound(len);
    seq(|b|, i requires 0 <= i < |b| => Flip(Mask(len), b[i]))
  }

  lemma FlipTwice(mask: nat, b: Byte)
    requires mask < 256
    ensures Flip(mask, Flip(mask, b)) == b
  {
    hide Xor;
    var c := Xor(b, 0xff);
    XorGroups(mask, c, 0xff);
    XorGroups(b, 0xff, 0xff);
    XorSelf(0xff);
    XorZero(b);
    XorGroups(mask, mask, b);
    XorSelf(mask);
    XorSwaps(0, b);
  }

  /** The coding is its own inverse. */
  lemma CodedTwice(b: seq<Byte>, len: nat)
    ensures Coded(Coded(b, len), len) == b
  {
    hide Flip, Mask;
    MaskBound(len);
    forall i | 0 <= i < |b|
      ensures Coded(Coded(b, len), len)[i] == b[i]
    {
      FlipTwice(Mask(len), b[i]);
    }
  }

  // ----- wide characters

  function WideBytes(k: Key): (r: seq<Byte>)
    ensures |r| == 2 * |k|
  {
    if k == [] then [] else Word(k[0]) + WideBytes(k[1..])
  }

  /** A zero-terminated wide string at the beginning of b, if it ends within b. */
  function WideString(b: seq<Byte>): Option<Key>
    decreases |b|
  {
    if |b| < 2 then None
    else if GetWord(b) == 0 then Some([])
    else
      Before([GetWord(b)], WideString(b[2..]))
  }

  function Before(k: Key, s: Option<Key>): Option<Key> {
    if s.None? then None else Some(k + s.value)
  }

  // ----- the file

  const Magic: nat := 0x4454

  /** What the WORD wKeyLen can hold of a key's length in bytes. */
  function KeyLen(it: Item): (n: nat)
    ensures n <= 2 * |it.key|
    ensures n == 2 * |it.key| <==> |it.key| < 0x8000
  {
    2 * |it.key| % 0x1_0000
  }

  /** What the DWORD dwValueLen can hold of a value's length. */
  function ValueLen(it: Item): (n: nat)
    ensures n <= |it.value|
    ensures n == |it.value| <==> |it.value| < 0x1_0000_0000
  {
    |it.value| % 0x1_0000_0000
  }

  /** An item as it is written; of a key or value too long for its length field only the first part. */
  function EncodeItem(it: Item): (r: seq<Byte>)
    ensures |r| == 7 + KeyLen(it) + ValueLen(it)
  {
    var kl, vl := KeyLen(it), ValueLen(it);
    [0x09] + Word(kl) + Coded(WideBytes(it.key)[..kl], kl) + DWord(vl) + Coded(it.value[..vl], vl)
  }

  function EncodeItems(items: seq<Item>): seq<Byte> {
    if items == [] then [] else EncodeItem(items[0]) + EncodeItems(items[1..])
  }

  function Header(n: nat): (r: seq<Byte>)
    ensures |r| == 6
  {
    Word(Magic) + [0x01, 0x01] + Word(n)
  }

  function Encode(items: seq<Item>): seq<Byte> {
    Header(|items|) + EncodeItems(items)
  }

  /** What ParseConfig does with a buffer. Undefined: it reads outside it, or overruns its own key array. */
  datatype Outcome = Rejected | Parsed(m: map<Key, Value>) | Undefined

  /** The size of szKey as passed to wcscpy_s. */
  const KeyRoom: nat := 259

  function Take(s: Key, n: nat): Key {
    if n <= |s| then s[..n] else s
  }

  /** The key read from the decoded bytes that begin at the key. */
  function KeyAt(tail: seq<Byte>, keyLen: nat): Option<Key> {
    var s := WideString(tail);
    if s.None? || |s.value| + 1 > KeyRoom || keyLen / 2 > KeyRoom then None else Some(Take(s.value, keyLen / 2))
  }

  /** The item at the front of b and the bytes it takes, or None where reading it is undefined. */
  function ItemAt(b: seq<Byte>): (r: Option<(Item, nat)>)
    ensures r.Some? ==> r.value.1 <= |b|
  {
    if |b| < 3 then None
    else
      var kl := GetWord(b[1..]);
      if |b| < 7 + kl then None
      else
        var vl := GetDWord(b[3 + kl..]);
        if |b| < 7 + kl + vl then None
        else
          var value := Coded(b[7 + kl..7 + kl + vl], vl);
          var key := KeyAt(Coded(b[3..3 + kl], kl) + b[3 + kl..7 + kl] + value + b[7 + kl + vl..], kl);
          if key.None? then None else Some((Item(key.value, value), 7 + kl + vl))
  }

  /** n items from the front of b, added to m. */
  function DecodeItems(b: seq<Byte>, n: nat, m: map<Key, Value>): Outcome
    decreases n
  {
    if n == 0 then Parsed(m)
    else
      match ItemAt(b)
      case None => Undefined
      case Some((it, size)) => DecodeItems(b[size..], n - 1, m[it.key := it.value])
  }

  function Decode(b: seq<Byte>, m: map<Key, Value>): Outcome {
    if |b| < 6 then Undefined
    else if GetWord(b) != Magic then Rejected
    else DecodeItems(b[6..], GetWord(b[4..]), m)
  }

  // ----- reading back what was written

  /** Keys without embedded zeros that fit the parser's array, and values whose length has a zero high word. */
  ghost predicate Storable(it: Item) {
    && |it.key| <= 257 && |it.value| < 0x1_0000
    && forall i :: 0 <= i < |it.key| ==> it.key[i] != 0
  }

  lemma {:induction false} WideStringOf(k: Key, tail: seq<Byte>)
    requires forall i :: 0 <= i < |k| ==> k[i] != 0
    ensures WideString(WideBytes(k) + tail) == Before(k, WideString(tail))
    decreases |k|
  {
    hide GetWord, Word, Before;
    if k == [] {
      assert WideBytes(k) + tail == tail;
      BeforeNone(WideString(tail));
    } else {
      var b := WideBytes(k) + tail;
      assert b == Word(k[0]) + (WideBytes(k[1..]) + tail);
      WordBack(k[0], WideBytes(k[1..]) + tail);
      assert b[2..] == WideBytes(k[1..]) + tail;
      WideStringOf(k[1..], tail);
      BeforeOne(k, WideString(tail));
    }
  }

  lemma BeforeNone(s: Option<Key>)
    ensures Before([], s) == s
  {
    if s.Some? { assert [] + s.value == s.value; }
  }

  lemma BeforeOne(k: Key, s: Option<Key>)
    requires k != []
    ensures Before([k[0]], Before(k[1..], s)) == Before(k, s)
  {
    if s.Some? { assert [k[0]] + (k[1..] + s.value) == k + s.value; }
  }

  /** The length field behind the key ends the string that wcscpy_s copies. */
  lemma LengthEnds(n: nat, rest: seq<Byte>)
    requires n < 0x1_0000
    ensures WideString(DWord(n) + rest) == Some(if n == 0 then [] else [n])
  {
    hide GetWord, Word;
    var b := DWord(n) + rest;
    assert b == Word(n) + (Word(0) + rest);
    WordBack(n, Word(0) + rest);
    if n > 0 {
      assert b[2..] == Word(0) + rest;
      WordBack(0, rest);
      assert WideString(b[2..]) == Some([]);
      var w: Wide := n;
      assert [w] + [] == [w];
    }
  }

  lemma KeyBack(it: Item, rest: seq<Byte>)
    requires Storable(it)
    ensures KeyAt(WideBytes(it.key) + DWord(|it.value|) + it.value + rest, 2 * |it.key|) == Some(it.key)
  {
    hide WideString, WideBytes, DWord;
    var tail := DWord(|it.value|) + (it.value + rest);
    assert WideBytes(it.key) + DWord(|it.value|) + it.value + rest == WideBytes(it.key) + tail;
    LengthEnds(|it.value|, it.value + rest);
    WideStringOf(it.key, tail);
  }

  /** The fields of an encoded item. */
  lemma Fields(it: Item, rest: seq<Byte>)
    requires |it.key| < 0x8000 && |it.value| < 0x1_0000_0000
    ensures var b, kl, vl := EncodeItem(it) + rest, 2 * |it.key|, |it.value|;
      && b[1..] == Word(kl) + b[3..] && b[3..3 + kl] == Coded(WideBytes(it.key), kl)
      && b[3 + kl..7 + kl] == DWord(vl) && b[3 + kl..] == DWord(vl) + b[7 + kl..]
      && b[7 + kl..7 + kl + vl] == Coded(it.value, vl) && b[7 + kl + vl..] == rest
  {
    hide Word, DWord, Coded, WideBytes, KeyLen, ValueLen;
    assert WideBytes(it.key)[..2 * |it.key|] == WideBytes(it.key) && it.value[..|it.value|] == it.value;
  }

  lemma ItemBack(it: Item, rest: seq<Byte>)
    requires Storable(it)
    ensures ItemAt(EncodeItem(it) + rest) == Some((it, |EncodeItem(it)|))
  {
    hide EncodeItem, KeyAt, Word, DWord, Coded, WideBytes, GetWord, GetDWord;
    var b, kl, vl := EncodeItem(it) + rest, 2 * |it.key|, |it.value|;
    Fields(it, rest);
    WordBack(kl, b[3..]);
    DWordBack(vl, b[7 + kl..]);
    CodedTwice(WideBytes(it.key), kl);
    CodedTwice(it.value, vl);
    KeyBack(it, rest);
  }

  lemma DecodeOne(it: Item, rest: seq<Byte>, n: nat, m: map<Key, Value>)
    requires Storable(it)
    ensures DecodeItems(EncodeItem(it) + rest, n + 1, m) == DecodeItems(rest, n, m[it.key := it.value])
  {
    hide EncodeItem, ItemAt;
    ItemBack(it, rest);
    assert (EncodeItem(it) + rest)[|EncodeItem(it)|..] == rest;
  }

  function MapOf(items: seq<Item>, m: map<Key, Value>): map<Key, Value> {
    if items == [] then m else MapOf(items[1..], m[items[0].key := items[0].value])
  }

  lemma {:induction false} DecodeAll(items: seq<Item>, m: map<Key, Value>)
    requires forall i :: 0 <= i < |items| ==> Storable(items[i])
    ensures DecodeItems(EncodeItems(items), |items|, m) == Parsed(MapOf(items, m))
    decreases |items|
  {
    hide DecodeItems, EncodeItem, Storable;
    if items == [] {
      DecodeNone(EncodeItems(items), m);
    } else {
      DecodeOne(items[0], EncodeItems(items[1..]), |items| - 1, m);
      DecodeAll(items[1..], m[items[0].key := items[0].value]);
    }
  }

  lemma DecodeNone(b: seq<Byte>, m: map<Key, Value>)
    ensures DecodeItems(b, 0, m) == Parsed(m)
  {
  }

  /** What MakeConfig writes, ParseConfig reads back. */
  lemma RoundTrip(items: seq<Item>, m: map<Key, Value>)
    requires |items| < 0x1_0000 && forall i :: 0 <= i < |items| ==> Storable(items[i])
    ensures Decode(Encode(items), m) == Parsed(MapOf(items, m))
  {
    hide DecodeItems, EncodeItems, Storable, Header, GetWord;
    HeaderFields(|items|, EncodeItems(items));
    DecodeAll(items, m);
  }

  lemma HeaderFields(n: nat, rest: seq<Byte>)
    requires n < 0x1_0000
    ensures var b := Header(n) + rest; GetWord(b) == Magic && GetWord(b[4..]) == n && b[6..] == rest
  {
    hide Word, GetWord;
    var b := Header(n) + rest;
    assert b == Word(Magic) + ([0x01, 0x01] + Word(n) + rest);
    WordBack(Magic, [0x01, 0x01] + Word(n) + rest);
    assert b[4..] == Word(n) + rest;
    WordBack(n, rest);
  }

  // ----- the program

  /** w with `data` written over it from position p on. */
  ghost function Spliced(w: seq<Byte>, p: nat, data: seq<Byte>): seq<Byte>
    requires p + |data| <= |w|
  {
    w[..p] + data + w[p + |data|..]
  }

  method Put(buf: array<Byte>, p: nat, data: seq<Byte>)
    requires p + |data| <= buf.Length
    modifies buf
    ensures buf[..] == Spliced(old(buf[..]), p, data)
  {
    for j := 0 to |data|
      invariant forall i :: 0 <= i < buf.Length ==> buf[i] == if p <= i < p + j then data[i - p] else old(buf[i])
    {
      buf[p + j] := data[j];
    }
  }

  /** The loops that code or decode n bytes in place. */
  method CodeInPlace(buf: array<Byte>, p: nat, n: nat)
    requires p + n <= buf.Length
    modifies buf
    ensures buf[..] == Spliced(old(buf[..]), p, Coded(old(buf[..])[p..p + n], n))
  {
    hide Flip, Mask;
    MaskBound(n);
    for j := 0 to n
      invariant forall i :: 0 <= i < buf.Length ==>
        buf[i] == if p <= i < p + j then Flip(Mask(n), old(buf[i])) else old(buf[i])
    {
      buf[p + j] := Flip(Mask(n), buf[p + j]);
    }
  }

  lemma Pieces(w: seq<Byte>, p: nat, head: seq<Byte>, data: seq<Byte>, n: nat, code: seq<Byte>)
    requires p + |head| + |data| <= |w| && |code| == n <= |data|
    ensures var w1, t := Spliced(w, p, head + data), p + |head|;
      && |w1| == |w| && w1[t..t + n] == data[..n]
      && Spliced(w1, t, code)[..t + n] == w[..p] + (head + code)
  {
    var w1, t := Spliced(w, p, head + data), p + |head|;
    assert w1[..t] == w[..p] + head;
  }

  /** A plain field and the data behind it, of which the first n bytes are coded. */
  method PutCoded(buf: array<Byte>, p: nat, head: seq<Byte>, data: seq<Byte>, n: nat)
    requires p + |head| + |data| <= buf.Length && n <= |data|
    modifies buf
    ensures buf[..p + |head| + n] == old(buf[..p]) + (head + Coded(data[..n], n))
  {
    hide Coded, Spliced;
    ghost var w := buf[..];
    Pieces(w, p, head, data, n, Coded(data[..n], n));
    Put(buf, p, head + data);
    CodeInPlace(buf, p + |head|, n);
    Front(buf, p + |head| + n);
    assert w[..p] == old(buf[..p]);
  }

  lemma Front(buf: array<Byte>, n: nat)
    requires n <= buf.Length
    ensures buf[..][..n] == buf[..n]
  {
  }

  /** One item at the cursor; the cursor moves past it. */
  method PutItem(buf: array<Byte>, p: nat, it: Item) returns (q: nat)
    requires p + 7 + 2 * |it.key| + |it.value| <= buf.Length
    modifies buf
    ensures q == p + |EncodeItem(it)| && buf[..q] == old(buf[..p]) + EncodeItem(it)
  {
    hide Word, DWord, Coded, WideBytes, KeyLen, ValueLen;
    var kl, vl := KeyLen(it), ValueLen(it);
    PutCoded(buf, p, [0x09] + Word(kl), WideBytes(it.key), kl);
    PutCoded(buf, p + 3 + kl, DWord(vl), it.value, vl);
    q := p + 7 + kl + vl;
    ghost var front := old(buf[..p]);
    assert front + ([0x09] + Word(kl) + Coded(WideBytes(it.key)[..kl], kl)) + (DWord(vl) + Coded(it.value[..vl], vl))
        == front + EncodeItem(it);
  }

  /** The bytes that the items take. */
  function SizeOf(items: seq<Item>): nat {
    if items == [] then 0 else SizeOf(items[..|items| - 1]) + 7 + 2 * |items[|items| - 1].key| + |items[|items| - 1].value|
  }

  lemma {:induction false} EncodeMore(items: seq<Item>, it: Item)
    ensures EncodeItems(items + [it]) == EncodeItems(items) + EncodeItem(it)
    decreases |items|
  {
    hide EncodeItem;
    if items == [] {
      assert [it][1..] == [];
    } else {
      assert (items + [it])[1..] == items[1..] + [it];
      EncodeMore(items[1..], it);
    }
  }

  lemma {:induction false} SizeMono(items: seq<Item>, k: nat)
    requires k <= |items|
    ensures SizeOf(items[..k]) <= SizeOf(items)
    decreases |items|
  {
    if k == |items| {
      assert items[..k] == items;
    } else {
      var front := items[..|items| - 1];
      SizeMono(front, k);
      assert front[..k] == items[..k];
    }
  }

  lemma SizeMore(items: seq<Item>, i: nat)
    requires i < |items|
    ensures SizeOf(items[..i + 1]) == SizeOf(items[..i]) + 7 + 2 * |items[i].key| + |items[i].value|
  {
    assert items[..i + 1][..i] == items[..i];
  }

  method ConfigSize(items: seq<Item>) returns (size: nat)
    ensures size == 6 + SizeOf(items)
  {
    size := 6;
    for i := 0 to |items|
      invariant size == 6 + SizeOf(items[..i])
    {
      SizeMore(items, i);
      size := size + 7 + 2 * |items[i].key| + |items[i].value|;
    }
    assert items[..|items|] == items;
  }

  /** The loop over the items; the cursor ends behind the last one. */
  method PutItems(buf: array<Byte>, items: seq<Item>) returns (p: nat)
    requires buf.Length == 6 + SizeOf(items)
    modifies buf
    ensures p <= buf.Length && buf[..p] == old(buf[..6]) + EncodeItems(items)
  {
    hide EncodeItems, EncodeItem, SizeOf, KeyLen, ValueLen;
    p := 6;
    Nothing(items[..0]);
    ghost var head := buf[..6];
    for i := 0 to |items|
      invariant p <= 6 + SizeOf(items[..i]) <= buf.Length
      invariant buf[..p] == head + EncodeItems(items[..i])
    {
      SizeMore(items, i);
      SizeMono(items, i + 1);
      EncodeMore(items[..i], items[i]);
      assert items[..i + 1] == items[..i] + [items[i]];
      p := PutItem(buf, p, items[i]);
    }
    assert items[..|items|] == items;
  }

  /** Every key and value has a length that its length field holds. */
  ghost predicate LengthsFit(items: seq<Item>) {
    forall i :: 0 <= i < |items| ==> |items[i].key| < 0x8000 && |items[i].value| < 0x1_0000_0000
  }

  /** The items take the computed size exactly when all lengths fit their fields, and less otherwise. */
  lemma {:induction false} EncodedSize(items: seq<Item>)
    ensures |EncodeItems(items)| <= SizeOf(items)
    ensures |EncodeItems(items)| == SizeOf(items) <==> LengthsFit(items)
    decreases |items|
  {
    if items != [] {
      var front, it := items[..|items| - 1], items[|items| - 1];
      assert items == front + [it];
      EncodedSize(front);
      EncodeMore(front, it);
      FitMore(front, it);
    }
  }

  lemma FitMore(items: seq<Item>, it: Item)
    ensures LengthsFit(items + [it]) <==> LengthsFit(items) && |it.key| < 0x8000 && |it.value| < 0x1_0000_0000
  {
    var all := items + [it];
    if LengthsFit(all) {
      assert all[|items|] == it;
      forall i | 0 <= i < |items|
        ensures |items[i].key| < 0x8000 && |items[i].value| < 0x1_0000_0000
      {
        assert all[i] == items[i];
      }
    }
  }

  lemma Nothing(items: seq<Item>)
    requires items == []
    ensures EncodeItems(items) == [] && SizeOf(items) == 0
  {
  }

  /**
   MakeConfig, up to writing the file: nothing for an empty map; otherwise a buffer of the computed size
   that begins with the encoded items and is filled exactly to its end if and only if no key or value is
   too long for its length field. The items are the map's entries in the map's order.
   */
  method MakeConfig(items: seq<Item>) returns (ok: bool, buf: array<Byte>)
    ensures ok <==> items != []
    ensures ok ==> fresh(buf) && buf.Length == 6 + SizeOf(items) && Encode(items) <= buf[..]
    ensures ok ==> (buf[..] == Encode(items) <==> LengthsFit(items))
  {
    hide EncodeItems, EncodeItem, Word, Header, SizeOf;
    var size := ConfigSize(items);
    buf := new Byte[size](i => 0);
    ok := items != [];
    if !ok { return; }
    Put(buf, 0, Header(|items|));
    Front(buf, 6);
    var p := PutItems(buf, items);
    EncodedSize(items);
    assert p == buf.Length ==> buf[..p] == buf[..];
  }

  /** Where the fields of the header are: magic number, versions and count. */
  lemma HeaderAt(items: seq<Item>)
    ensures var e := Encode(items);
      GetWord(e) == 0x4454 && e[2] == 1 && e[3] == 1 && GetWord(e[4..]) == |items| % 0x1_0000
  {
    LowWord(|items|);
  }

  /** Where the fields of an item are: flag, key length and, behind the coded key, value length. */
  lemma ItemFieldsAt(it: Item)
    ensures var e, kl := EncodeItem(it), KeyLen(it);
      && e[0] == 9 && GetWord(e[1..]) == 2 * |it.key| % 0x1_0000
      && GetDWord(e[3 + kl..]) == |it.value| % 0x1_0000_0000
  {
    hide Word, DWord, GetWord, GetDWord, Coded, WideBytes;
    var e, kl, vl := EncodeItem(it), KeyLen(it), ValueLen(it);
    var k, v := Coded(WideBytes(it.key)[..kl], kl), Coded(it.value[..vl], vl);
    assert e[1..] == Word(kl) + (k + DWord(vl) + v);
    WordBack(kl, k + DWord(vl) + v);
    assert e[3 + kl..] == DWord(vl) + v;
    DWordBack(vl, v);
  }

  lemma LowWord(n: nat)
    ensures n % 256 + 256 * (n / 256 % 256) == n % 0x1_0000
  {
    assert n == n % 256 + 256 * (n / 256 % 256) + 0x1_0000 * (n / 256 / 256);
  }

  // ----- keys that are too long for their length field

  /** What is left of an item whose key has 32768 characters or more. */
  function Cut(it: Item): Item {
    Item(it.key[..|it.key| % 0x8000], it.value)
  }

  lemma {:induction false} WideBytesFront(k: Key, n: nat)
    requires n <= |k|
    ensures WideBytes(k)[..2 * n] == WideBytes(k[..n])
    decreases n
  {
    hide Word;
    if n > 0 {
      WideBytesFront(k[1..], n - 1);
      assert k[..n][1..] == k[1..][..n - 1];
      assert WideBytes(k)[..2 * n] == Word(k[0]) + WideBytes(k[1..])[..2 * (n - 1)];
    }
  }

  lemma HalfOfWord(n: nat)
    ensures 2 * n % 0x1_0000 == 2 * (n % 0x8000)
  {
    assert n == 0x8000 * (n / 0x8000) + n % 0x8000;
  }

  /** The item is written as if the key had been cut. */
  lemma WrittenCut(it: Item)
    ensures EncodeItem(it) == EncodeItem(Cut(it))
  {
    hide WideBytes, Coded, Word, DWord;
    HalfOfWord(|it.key|);
    WideBytesFront(it.key, |it.key| % 0x8000);
    var kl, cut := KeyLen(it), WideBytes(Cut(it).key);
    assert cut[..kl] == cut;
  }

  /** Such a key does not come back: the parser finds the cut key, and the next item behind it. */
  lemma LongKeyIsCut(it: Item, rest: seq<Byte>)
    requires |it.key| >= 0x8000 && Storable(Cut(it))
    ensures ItemAt(EncodeItem(it) + rest) == Some((Cut(it), |EncodeItem(it)|)) && Cut(it).key != it.key
    ensures |EncodeItem(it)| < SizeOf([it])
  {
    hide EncodeItem, ItemAt;
    WrittenCut(it);
    ItemBack(Cut(it), rest);
    assert [it][..0] == [];
  }

  /** A key of 32768 characters is written with length 0 and read back as the empty key. */
  lemma LongKeyIsLost(key: Key, value: Value)
    requires |key| == 0x8000 && |value| < 0x1_0000
    ensures KeyLen(Item(key, value)) == 0 && !LengthsFit([Item(key, value)])
    ensures Decode(Encode([Item(key, value)]), map[]) == Parsed(map[[] := value])
  {
    hide EncodeItem, Header, Decode;
    var it, empty := Item(key, value), Item([], value);
    assert !LengthsFit([it]) by { assert [it][0] == it; }
    assert Cut(it) == empty;
    WrittenCut(it);
    assert EncodeItems([it]) == EncodeItems([empty]);
    RoundTrip([empty], map[]);
    assert [empty][1..] == [];
  }

  /** wcscpy_s from position p of the buffer: wide characters up to a zero. */
  method CopyKey(buf: array<Byte>, p: nat) returns (s: Option<Key>)
    requires p <= buf.Length
    ensures s == WideString(buf[p..])
  {
    hide GetWord, Before;
    var q, key := p, [];
    BeforeNone(WideString(buf[p..]));
    while q + 2 <= buf.Length
      invariant p <= q <= buf.Length
      invariant WideString(buf[p..]) == Before(key, WideString(buf[q..]))
    {
      ghost var b := buf[q..];
      var w := GetWord(buf[q..q + 2]);
      SameWord(b);
      assert buf[q..q + 2] == b[..2];
      if w == 0 {
        BeforeEnd(key);
        return Some(key);
      }
      assert b[2..] == buf[q + 2..];
      BeforeMore(key, w, WideString(b[2..]));
      key := key + [w];
      q := q + 2;
    }
    BeforeGone(key);
    return None;
  }

  /** The value behind a key that is already decoded in place. */
  method DecodeValue(buf: array<Byte>, ghost w: seq<Byte>, p: nat, kl: nat, vl: nat)
    requires |w| == buf.Length && p + 7 + kl + vl <= buf.Length
    requires buf[..] == Spliced(w, p + 3, Coded(w[p + 3..p + 3 + kl], kl))
    modifies buf
    ensures var value := Coded(w[p + 7 + kl..p + 7 + kl + vl], vl);
      && buf[p + 3..] == Coded(w[p + 3..p + 3 + kl], kl) + w[p + 3 + kl..p + 7 + kl] + value + w[p + 7 + kl + vl..]
      && buf[p + 7 + kl..p + 7 + kl + vl] == value && buf[p + 7 + kl + vl..] == w[p + 7 + kl + vl..]
  {
    hide Coded, Spliced;
    ghost var w1 := buf[..];
    SplicedParts(w, p + 3, Coded(w[p + 3..p + 3 + kl], kl));
    SubFrom(w, w1, p + 3 + kl, p + 7 + kl);
    SubSlices(w, w1, p + 7 + kl, vl);
    CodeInPlace(buf, p + 7 + kl, vl);
    DecodedTail(w, w1, buf[..], p, kl, vl, Coded(w[p + 3..p + 3 + kl], kl), Coded(w[p + 7 + kl..p + 7 + kl + vl], vl));
    Whole(buf, p + 3, p + 7 + kl, p + 7 + kl + vl);
  }

  method ReadKey(buf: array<Byte>, p: nat, keyLen: nat) returns (key: Option<Key>)
    requires p <= buf.Length
    ensures key == KeyAt(buf[p..], keyLen)
  {
    hide WideString;
    var s := CopyKey(buf, p);
    if s.None? || |s.value| + 1 > KeyRoom || keyLen / 2 > KeyRoom { return None; }
    key := Some(Take(s.value, keyLen / 2));
  }

  lemma SameWord(b: seq<Byte>)
    requires |b| >= 2
    ensures GetWord(b[..2]) == GetWord(b)
  {
  }

  lemma BeforeEnd(k: Key)
    ensures Before(k, Some([])) == Some(k)
  {
    assert k + [] == k;
  }

  lemma BeforeGone(k: Key)
    ensures Before(k, None) == None
  {
  }

  lemma BeforeMore(k: Key, w: Wide, s: Option<Key>)
    ensures Before(k, Before([w], s)) == Before(k + [w], s)
  {
    if s.Some? { assert k + ([w] + s.value) == (k + [w]) + s.value; }
  }

  /** Writing over a part leaves what is before and behind it. */
  lemma SplicedParts(w: seq<Byte>, p: nat, data: seq<Byte>)
    requires p + |data| <= |w|
    ensures var w1 := Spliced(w, p, data);
      |w1| == |w| && w1[..p] == w[..p] && w1[p..p + |data|] == data && w1[p + |data|..] == w[p + |data|..]
  {
  }

  /** Decoding key and value in place leaves behind the key what follows it. */
  lemma DecodedTail(w: seq<Byte>, w1: seq<Byte>, w2: seq<Byte>, p: nat, kl: nat, vl: nat, key: seq<Byte>, value: seq<Byte>)
    requires p + 7 + kl + vl <= |w| && |key| == kl && |value| == vl
    requires w1 == Spliced(w, p + 3, key) && |w1| == |w| && w2 == Spliced(w1, p + 7 + kl, value)
    ensures |w2| == |w| && w2[p + 3..] == key + w[p + 3 + kl..p + 7 + kl] + value + w[p + 7 + kl + vl..]
    ensures w2[p + 7 + kl..p + 7 + kl + vl] == value && w2[p + 7 + kl + vl..] == w[p + 7 + kl + vl..]
  {
    var t := w2[p + 3..];
    assert t == w2[p + 3..p + 7 + kl] + w2[p + 7 + kl..];
    SplicedParts(w, p + 3, key);
    SplicedParts(w1, p + 7 + kl, value);
    hide Spliced;
    assert w2[p + 3..p + 7 + kl] == w1[p + 3..p + 7 + kl] by { SubSlice(w1, w2, p + 3, p + 7 + kl); }
    assert w1[p + 3..p + 7 + kl] == key + w[p + 3 + kl..p + 7 + kl] by { SubTail(w, w1, p + 3 + kl, p + 7 + kl, p + 3); }
    assert w2[p + 7 + kl..] == value + w2[p + 7 + kl + vl..] by { SubSplit(w2, p + 7 + kl, p + 7 + kl + vl); }
    assert w1[p + 7 + kl + vl..] == w[p + 7 + kl + vl..] by { SubFrom(w, w1, p + 3 + kl, p + 7 + kl + vl); }
  }

  lemma SubSlice(a: seq<Byte>, b: seq<Byte>, i: nat, j: nat)
    requires i <= j <= |a| == |b| && b[..j] == a[..j]
    ensures b[i..j] == a[i..j]
  {
    assert a[i..j] == a[..j][i..] && b[i..j] == b[..j][i..];
  }

  lemma SubTail(w: seq<Byte>, w1: seq<Byte>, i: nat, j: nat, k: nat)
    requires k <= i <= j <= |w| == |w1| && w1[i..] == w[i..]
    ensures w1[k..j] == w1[k..i] + w[i..j]
  {
    assert w1[i..j] == w1[i..][..j - i] && w[i..j] == w[i..][..j - i];
  }

  lemma SubSplit(w: seq<Byte>, i: nat, j: nat)
    requires i <= j <= |w|
    ensures w[i..] == w[i..j] + w[j..]
  {
  }

  lemma SubFrom(w: seq<Byte>, w1: seq<Byte>, i: nat, j: nat)
    requires i <= j <= |w| == |w1| && w1[i..] == w[i..]
    ensures w1[j..] == w[j..]
  {
    assert w1[j..] == w1[i..][j - i..] && w[j..] == w[i..][j - i..];
  }

  // ----- maps and their entries

  /** The entries of a map, each once, in any order. */
  ghost predicate Lists(items: seq<Item>, m: map<Key, Value>) {
    && (forall i :: 0 <= i < |items| ==> items[i].key in m && m[items[i].key] == items[i].value)
    && (forall k :: k in m ==> Listed(items, k))
    && (forall i, j :: 0 <= i < j < |items| ==> items[i].key != items[j].key)
  }

  ghost predicate Listed(items: seq<Item>, k: Key) {
    exists i :: 0 <= i < |items| && items[i].key == k
  }

  /** Entering a map's entries one after another gives the map. */
  lemma {:induction false} MapOfIs(items: seq<Item>, m0: map<Key, Value>, k: Key)
    ensures Listed(items, k) ==> k in MapOf(items, m0) && exists i :: 0 <= i < |items| && items[i].key == k && MapOf(items, m0)[k] == items[i].value
    ensures !Listed(items, k) ==> (k in MapOf(items, m0) <==> k in m0) && (k in m0 ==> MapOf(items, m0)[k] == m0[k])
    decreases |items|
  {
    if items != [] {
      var rest, m1 := items[1..], m0[items[0].key := items[0].value];
      MapOfIs(rest, m1, k);
      if Listed(rest, k) {
        var i :| 0 <= i < |rest| && rest[i].key == k && MapOf(rest, m1)[k] == rest[i].value;
        assert items[i + 1] == rest[i];
      } else if Listed(items, k) {
        FirstOrLater(items, k);
      }
    }
  }

  lemma FirstOrLater(items: seq<Item>, k: Key)
    requires Listed(items, k)
    ensures items != [] && (items[0].key == k || Listed(items[1..], k))
  {
    var i :| 0 <= i < |items| && items[i].key == k;
    if i > 0 { assert items[1..][i - 1] == items[i]; }
  }

  lemma MapBack(items: seq<Item>, m: map<Key, Value>)
    requires Lists(items, m)
    ensures MapOf(items, map[]) == m
  {
    hide MapOf;
    forall k
      ensures k in MapOf(items, map[]) <==> k in m
      ensures k in m ==> k in MapOf(items, map[]) && MapOf(items, map[])[k] == m[k]
    {
      MapOfIs(items, map[], k);
    }
  }

  /** A map of storable entries survives being written, in any order, and parsed. */
  lemma MapRoundTrip(items: seq<Item>, m: map<Key, Value>)
    requires Lists(items, m) && |items| < 0x1_0000 && forall i :: 0 <= i < |items| ==> Storable(items[i])
    ensures Decode(Encode(items), map[]) == Parsed(m)
  {
    hide Lists, Storable, Encode, Decode, MapOf;
    RoundTrip(items, map[]);
    MapBack(items, m);
  }

  // ----- the object

  class Config {
    var values: map<Key, Value>

    constructor ()
      ensures values == map[]
    {
      values := map[];
    }

    method GetValue(key: Key) returns (value: Value)
      ensures value == if key in values then values[key] else []
    {
      value := if key in values then values[key] else [];
    }

    method SetValue(key: Key, value: Value)
      modifies this
      ensures values == old(values)[key := value]
    {
      values := values[key := value];
    }

    /** One item at the cursor, decoded in place. */
    method ParseItem(buf: array<Byte>, p: nat) returns (it: Option<(Item, nat)>)
      requires p <= buf.Length
      modifies buf
      ensures it == ItemAt(old(buf[p..]))
      ensures it.Some? ==> buf[p + it.value.1..] == old(buf[p + it.value.1..])
    {
      hide Coded, GetWord, GetDWord, Spliced, KeyAt;
      ghost var w := buf[..];
      ghost var b := buf[p..];
      it := None;
      if buf.Length - p < 3 { return; }
      assert b[1..] == buf[p + 1..];
      var kl: nat := GetWord(buf[p + 1..]);
      if buf.Length - p < 7 + kl { return; }
      SplicedParts(w, p + 3, Coded(w[p + 3..p + 3 + kl], kl));
      CodeInPlace(buf, p + 3, kl);
      Suffix(buf, w, p, 3 + kl);
      var vl := GetDWord(buf[p + 3 + kl..]);
      if buf.Length - p < 7 + kl + vl { return; }
      DecodeValue(buf, w, p, kl, vl);
      Slices(w, p, kl, vl);
      var key := ReadKey(buf, p + 3, kl);
      if key.None? { return; }
      it := Some((Item(key.value, buf[p + 7 + kl..p + 7 + kl + vl]), 7 + kl + vl));
    }

    /** ParseConfig: the entries are added to those already there. */
    method ParseConfig(buf: array<Byte>) returns (r: Outcome)
      modifies this, buf
      ensures r == Decode(old(buf[..]), old(values))
      ensures r.Parsed? ==> values == r.m
      ensures r.Rejected? ==> values == old(values)
    {
      hide ItemAt, GetWord;
      if buf.Length < 6 { return Undefined; }
      if GetWord(buf[..]) != Magic { return Rejected; }
      assert buf[..][4..] == buf[4..] && buf[..][6..] == buf[6..];
      var n: nat := GetWord(buf[4..]);
      var p: nat := 6;
      for i := 0 to n
        invariant p <= buf.Length && buf[p..] == old(buf[p..])
        invariant DecodeItems(buf[p..], n - i, values) == Decode(old(buf[..]), old(values))
      {
        var it := ParseItem(buf, p);
        if it.None? { return Undefined; }
        assert old(buf[..])[p..][it.value.1..] == buf[p + it.value.1..];
        values := values[it.value.0.key := it.value.0.value];
        p := p + it.value.1;
      }
      r := Parsed(values);
    }
  }

  /** A configuration that is written and parsed by a new object answers every key as the old one did. */
  method SaveAndLoad(config: Config, items: seq<Item>) returns (loaded: Config)
    requires Lists(items, config.values) && 0 < |items| < 0x1_0000
    requires forall i :: 0 <= i < |items| ==> Storable(items[i])
    ensures fresh(loaded) && loaded.values == config.values
  {
    hide Lists, Encode, Decode;
    MapRoundTrip(items, config.values);
    var ok, buf := MakeConfig(items);
    loaded := new Config();
    var r := loaded.ParseConfig(buf);
  }

  /** A value that is set, written and parsed by a new object is the one that object gives. */
  method SetSaveGet(config: Config, key: Key, value: Value, items: seq<Item>) returns (got: Value)
    requires Lists(items, config.values[key := value]) && 0 < |items| < 0x1_0000
    requires forall i :: 0 <= i < |items| ==> Storable(items[i])
    modifies config
    ensures got == value && config.values == old(config.values)[key := value]
  {
    hide Lists, Storable;
    config.SetValue(key, value);
    var loaded := SaveAndLoad(config, items);
    got := loaded.GetValue(key);
  }

  lemma SubSlices(w: seq<Byte>, w1: seq<Byte>, i: nat, n: nat)
    requires i + n <= |w| == |w1| && w1[i..] == w[i..]
    ensures w1[i..i + n] == w[i..i + n]
  {
    assert w1[i..i + n] == w1[i..][..n] && w[i..i + n] == w[i..][..n];
  }

  lemma Suffix(buf: array<Byte>, w: seq<Byte>, p: nat, k: nat)
    requires |w| == buf.Length && p + k <= |w| && buf[..][p + k..] == w[p + k..]
    ensures buf[p + k..] == w[p..][k..]
  {
  }

  lemma Whole(buf: array<Byte>, a: nat, b: nat, c: nat)
    requires a <= buf.Length && b <= c <= buf.Length
    ensures buf[..][a..] == buf[a..] && buf[..][b..c] == buf[b..c] && buf[..][c..] == buf[c..]
  {
  }

  lemma Slices(w: seq<Byte>, p: nat, kl: nat, vl: nat)
    requires p + 7 + kl + vl <= |w|
    ensures var b := w[p..];
      && b[3..3 + kl] == w[p + 3..p + 3 + kl] && b[3 + kl..7 + kl] == w[p + 3 + kl..p + 7 + kl]
      && b[7 + kl..7 + kl + vl] == w[p + 7 + kl..p + 7 + kl + vl] && b[7 + kl + vl..] == w[p + 7 + kl + vl..]
  {
  }
}
