/** Little-endian integers and UTF-8 text as byte sequences: the atoms of the snapshot format
    (hub/snapshot.py, `_pack_str`, `_pack_column`; hubread/snapshot.py, `_Cursor`).

    Writers put a value in front of a tail; readers take a value off the front and return what is
    left, or nothing when the bytes run out. */
module Bytes {
  import opened Wrappers

  type byte = x: int | 0 <= x < 256

  type Buffer = seq<byte>

  // ---------------------------------------------------------------- integers

  function Pow256(n: nat): (p: nat)
    ensures p > 0
  {
    if n == 0 then 1 else 256 * Pow256(n - 1)
  }

  function PutNat(v: nat, width: nat, tail: Buffer): (r: Buffer)
    ensures |r| == width + |tail|
    decreases v, width
  {
    if width == 0 then tail else [v % 256] + PutNat(v / 256, width - 1, tail)
  }

  function ReadNat(width: nat, b: Buffer): nat
    requires |b| >= width
    decreases b
  {
    if width == 0 then 0 else b[0] + 256 * ReadNat(width - 1, b[1..])
  }

  lemma {:induction false} ReadPutNat(v: nat, width: nat, tail: Buffer)
    requires v < Pow256(width)
    ensures ReadNat(width, PutNat(v, width, tail)) == v
    ensures PutNat(v, width, tail)[width..] == tail
  {
    if width == 0 {
    } else {
      var rest := PutNat(v / 256, width - 1, tail);
      ReadPutNat(v / 256, width - 1, tail);
      assert PutNat(v, width, tail)[1..] == rest;
      assert PutNat(v, width, tail)[width..] == rest[width - 1..];
    }
  }

  /** The widths in use: u8, i32 and i64. */
  datatype Width = U8 | I32 | I64

  function Size(w: Width): nat {
    match w case U8 => 1 case I32 => 4 case I64 => 8
  }

  function Modulus(w: Width): nat {
    match w case U8 => 0x100 case I32 => 0x1_0000_0000 case I64 => 0x1_0000_0000_0000_0000
  }

  predicate FitsIn(w: Width, v: int) {
    match w
    case U8 => 0 <= v < 0x100
    case I32 => -0x8000_0000 <= v < 0x8000_0000
    case I64 => -0x8000_0000_0000_0000 <= v < 0x8000_0000_0000_0000
  }

  lemma ModulusIsPower(w: Width)
    ensures Modulus(w) == Pow256(Size(w))
  {
    assert Pow256(1) == 256;
    assert Pow256(2) == 256 * Pow256(1) == 0x1_0000;
    assert Pow256(3) == 256 * Pow256(2) == 0x100_0000;
    assert Pow256(4) == 256 * Pow256(3) == 0x1_0000_0000;
    assert Pow256(5) == 256 * Pow256(4) == 0x100_0000_0000;
    assert Pow256(6) == 256 * Pow256(5) == 0x1_0000_0000_0000;
    assert Pow256(7) == 256 * Pow256(6) == 0x100_0000_0000_0000;
    assert Pow256(8) == 256 * Pow256(7) == 0x1_0000_0000_0000_0000;
  }

  /** Two's complement, least significant byte first. */
  function PutInt(w: Width, v: int, tail: Buffer): (r: Buffer)
    requires FitsIn(w, v)
    ensures |r| == Size(w) + |tail|
  {
    PutNat(if v < 0 then v + Modulus(w) else v, Size(w), tail)
  }

  function FromUnsigned(w: Width, u: nat): int {
    if w.U8? || 2 * u < Modulus(w) then u else u - Modulus(w)
  }

  function ReadInt(w: Width, b: Buffer): Option<(int, Buffer)> {
    if |b| < Size(w) then None
    else Some((FromUnsigned(w, ReadNat(Size(w), b)), b[Size(w)..]))
  }

  lemma ReadPutInt(w: Width, v: int, tail: Buffer)
    requires FitsIn(w, v)
    ensures ReadInt(w, PutInt(w, v, tail)) == Some((v, tail))
  {
    ModulusIsPower(w);
    ReadPutNat(if v < 0 then v + Modulus(w) else v, Size(w), tail);
  }

  function PutInts(w: Width, vs: seq<int>, tail: Buffer): Buffer
    requires forall v :: v in vs ==> FitsIn(w, v)
  {
    if vs == [] then tail else PutInt(w, vs[0], PutInts(w, vs[1..], tail))
  }

  /** `count` contiguous values of one column. */
  function ReadInts(w: Width, count: nat, b: Buffer): Option<(seq<int>, Buffer)> {
    if count == 0 then Some(([], b))
    else
      var (v, rest) :- ReadInt(w, b);
      var (vs, left) :- ReadInts(w, count - 1, rest);
      Some(([v] + vs, left))
  }

  lemma {:induction false} ReadPutInts(w: Width, vs: seq<int>, tail: Buffer)
    requires forall v :: v in vs ==> FitsIn(w, v)
    ensures ReadInts(w, |vs|, PutInts(w, vs, tail)) == Some((vs, tail))
  {
    if vs == [] {
    } else {
      ReadPutInts(w, vs[1..], tail);
      ReadPutInt(w, vs[0], PutInts(w, vs[1..], tail));
      assert vs == [vs[0]] + vs[1..];
    }
  }

  lemma {:induction false} PutIntsLength(w: Width, vs: seq<int>, tail: Buffer)
    requires forall v :: v in vs ==> FitsIn(w, v)
    ensures w.U8? ==> |PutInts(w, vs, tail)| == |vs| + |tail|
    ensures w.I32? ==> |PutInts(w, vs, tail)| == 4 * |vs| + |tail|
    ensures w.I64? ==> |PutInts(w, vs, tail)| == 8 * |vs| + |tail|
  {
    if vs != [] { PutIntsLength(w, vs[1..], tail); }
  }

  // ---------------------------------------------------------------- text

  function EncodeChar(c: char): (bs: Buffer)
    ensures 1 <= |bs| <= 4
  {
    var v := c as int;
    if v < 0x80 then [v]
    else if v < 0x800 then [0xC0 + v / 64, 0x80 + v % 64]
    else if v < 0x1_0000 then [0xE0 + v / 4096, 0x80 + v / 64 % 64, 0x80 + v % 64]
    else [0xF0 + v / 262144, 0x80 + v / 4096 % 64, 0x80 + v / 64 % 64, 0x80 + v % 64]
  }

  function Utf8(s: string): Buffer {
    if s == "" then [] else EncodeChar(s[0]) + Utf8(s[1..])
  }

  predicate Continues(b: byte) { 0x80 <= b < 0xC0 }

  function Low(b: byte): int { b - 0x80 }

  predicate IsScalar(v: int) { 0 <= v < 0xD800 || 0xE000 <= v < 0x11_0000 }

  /** The code point at the front of some bytes and its length; surrogates, overlong forms and
      stray bytes are not text. */
  function DecodeChar(b: Buffer): Option<(char, nat)>
    requires b != []
  {
    var lead: int := b[0];
    if lead < 0x80 then Some((lead as char, 1))
    else if 0xC2 <= lead < 0xE0 then
      if |b| >= 2 && Continues(b[1]) then
        Some((((lead - 0xC0) * 64 + Low(b[1])) as char, 2))
      else None
    else if 0xE0 <= lead < 0xF0 then
      if |b| >= 3 && Continues(b[1]) && Continues(b[2]) then
        var v: int := (lead - 0xE0) * 4096 + Low(b[1]) * 64 + Low(b[2]);
        if v >= 0x800 && IsScalar(v) then Some((v as char, 3)) else None
      else None
    else if 0xF0 <= lead < 0xF5 then
      if |b| >= 4 && Continues(b[1]) && Continues(b[2]) && Continues(b[3]) then
        var v: int := (lead - 0xF0) * 262144 + Low(b[1]) * 4096 + Low(b[2]) * 64 + Low(b[3]);
        if v >= 0x1_0000 && IsScalar(v) then Some((v as char, 4)) else None
      else None
    else None
  }

  function DecodeUtf8(b: Buffer): Option<string>
    decreases |b|
  {
    if b == [] then Some("")
    else
      var (c, n) :- DecodeChar(b);
      if n > |b| || n == 0 then None
      else
        var rest :- DecodeUtf8(b[n..]);
        Some([c] + rest)
  }

  lemma Base64Digits(v: int)
    requires 0 <= v
    ensures v == v / 64 * 64 + v % 64
    ensures v == v / 4096 * 4096 + v / 64 % 64 * 64 + v % 64
    ensures v == v / 262144 * 262144 + v / 4096 % 64 * 4096 + v / 64 % 64 * 64 + v % 64
  {
    var a := v / 64;
    var b := a / 64;
    assert v / 4096 == b && v / 262144 == b / 64;
  }

  lemma DecodeThree(v: int, rest: Buffer)
    requires 0x800 <= v < 0x1_0000 && IsScalar(v)
    ensures DecodeChar([0xE0 + v / 4096, 0x80 + v / 64 % 64, 0x80 + v % 64] + rest) == Some((v as char, 3))
  {
    var b: Buffer := [0xE0 + v / 4096, 0x80 + v / 64 % 64, 0x80 + v % 64] + rest;
    Base64Digits(v);
    assert b[0] == 0xE0 + v / 4096 && Low(b[1]) == v / 64 % 64 && Low(b[2]) == v % 64;
  }

  lemma DecodeFour(v: int, rest: Buffer)
    requires 0x1_0000 <= v && IsScalar(v)
    ensures DecodeChar([0xF0 + v / 262144, 0x80 + v / 4096 % 64, 0x80 + v / 64 % 64, 0x80 + v % 64] + rest) ==
            Some((v as char, 4))
  {
    var b: Buffer := [0xF0 + v / 262144, 0x80 + v / 4096 % 64, 0x80 + v / 64 % 64, 0x80 + v % 64] + rest;
    Base64Digits(v);
    assert b[0] == 0xF0 + v / 262144 && Low(b[1]) == v / 4096 % 64 && Low(b[2]) == v / 64 % 64 && Low(b[3]) == v % 64;
  }

  lemma DecodeEncodedChar(c: char, rest: Buffer)
    ensures DecodeChar(EncodeChar(c) + rest) == Some((c, |EncodeChar(c)|))
  {
    var v := c as int;
    if 0x80 <= v < 0x800 {
      var b := EncodeChar(c) + rest;
      Base64Digits(v);
      assert b[0] == 0xC0 + v / 64 && Low(b[1]) == v % 64;
    } else if 0x800 <= v < 0x1_0000 {
      DecodeThree(v, rest);
    } else if 0x1_0000 <= v {
      DecodeFour(v, rest);
    }
  }

  /** Text survives UTF-8. */
  lemma {:induction false} Utf8RoundTrip(s: string)
    ensures DecodeUtf8(Utf8(s)) == Some(s)
  {
    if s == "" {
    } else {
      var head := EncodeChar(s[0]);
      DecodeEncodedChar(s[0], Utf8(s[1..]));
      Utf8RoundTrip(s[1..]);
      assert Utf8(s)[|head|..] == Utf8(s[1..]);
      assert s == [s[0]] + s[1..];
    }
  }

  predicate Storable(s: string) { FitsIn(I32, |Utf8(s)|) }

  /** A length-prefixed string. */
  function PutString(s: string, tail: Buffer): Buffer
    requires Storable(s)
  {
    PutInt(I32, |Utf8(s)|, Utf8(s) + tail)
  }

  function ReadString(b: Buffer): Option<(string, Buffer)> {
    var (n, rest) :- ReadInt(I32, b);
    if n < 0 || n > |rest| then None
    else
      var s :- DecodeUtf8(rest[..n]);
      Some((s, rest[n..]))
  }

  lemma ReadPutString(s: string, tail: Buffer)
    requires Storable(s)
    ensures ReadString(PutString(s, tail)) == Some((s, tail))
  {
    var body := Utf8(s);
    ReadPutInt(I32, |body|, body + tail);
    Utf8RoundTrip(s);
    assert (body + tail)[..|body|] == body && (body + tail)[|body|..] == tail;
  }

  function PutStrings(ss: seq<string>, tail: Buffer): Buffer
    requires forall s :: s in ss ==> Storable(s)
  {
    if ss == [] then tail else PutString(ss[0], PutStrings(ss[1..], tail))
  }

  /** `count` readings in a row. */
  function ReadMany<T>(reader: Buffer -> Option<(T, Buffer)>, count: nat, b: Buffer): Option<(seq<T>, Buffer)> {
    if count == 0 then Some(([], b))
    else
      var (x, rest) :- reader(b);
      var (xs, left) :- ReadMany(reader, count - 1, rest);
      Some(([x] + xs, left))
  }

  lemma ReadManyMore<T>(reader: Buffer -> Option<(T, Buffer)>, count: nat, b: Buffer, x: T, rest: Buffer, xs: seq<T>, left: Buffer)
    requires count == |xs| + 1 && reader(b) == Some((x, rest)) && ReadMany(reader, |xs|, rest) == Some((xs, left))
    ensures ReadMany(reader, count, b) == Some(([x] + xs, left))
  {}

  lemma ReadPutOne(s: string, ss: seq<string>, rest: Buffer, tail: Buffer)
    requires Storable(s) && ReadMany(ReadString, |ss|, rest) == Some((ss, tail))
    ensures ReadMany(ReadString, |ss| + 1, PutString(s, rest)) == Some(([s] + ss, tail))
  {
    ReadPutString(s, rest);
    ReadManyMore(ReadString, |ss| + 1, PutString(s, rest), s, rest, ss, tail);
  }

  lemma {:induction false} ReadPutStrings(ss: seq<string>, tail: Buffer)
    requires forall s :: s in ss ==> Storable(s)
    ensures ReadMany(ReadString, |ss|, PutStrings(ss, tail)) == Some((ss, tail))
  {
    if ss == [] {
    } else {
      ReadPutStrings(ss[1..], tail);
      ReadPutOne(ss[0], ss[1..], PutStrings(ss[1..], tail), tail);
      assert |ss| == |ss[1..]| + 1 && ss == [ss[0]] + ss[1..];
    }
  }

  // ---------------------------------------------------------------- reading a longer buffer

  /** Readers look only at what they take: more bytes behind change nothing but what is left. */
  lemma {:induction false} ReadNatExtends(width: nat, b: Buffer, more: Buffer)
    requires |b| >= width
    ensures ReadNat(width, b + more) == ReadNat(width, b)
  {
    if width == 0 {
    } else {
      assert (b + more)[1..] == b[1..] + more;
      ReadNatExtends(width - 1, b[1..], more);
    }
  }

  lemma ReadIntExtends(w: Width, b: Buffer, more: Buffer)
    requires ReadInt(w, b).Some?
    ensures var (v, rest) := ReadInt(w, b).value; ReadInt(w, b + more) == Some((v, rest + more))
  {
    ReadNatExtends(Size(w), b, more);
    assert (b + more)[Size(w)..] == b[Size(w)..] + more;
  }

  lemma ReadStringExtends(b: Buffer, more: Buffer)
    requires ReadString(b).Some?
    ensures var (s, rest) := ReadString(b).value; ReadString(b + more) == Some((s, rest + more))
  {
    ReadIntExtends(I32, b, more);
    var (n, rest) := ReadInt(I32, b).value;
    assert (rest + more)[..n] == rest[..n] && (rest + more)[n..] == rest[n..] + more;
  }

  /** The reader looks only at what it takes. */
  ghost predicate Local<T(!new)>(reader: Buffer -> Option<(T, Buffer)>) {
    forall b, more :: reader(b).Some? ==> reader(b + more) == Some((reader(b).value.0, reader(b).value.1 + more))
  }

  lemma {:induction false} ReadManyExtends<T(!new)>(reader: Buffer -> Option<(T, Buffer)>, count: nat, b: Buffer, more: Buffer)
    requires Local(reader) && ReadMany(reader, count, b).Some?
    ensures var (xs, rest) := ReadMany(reader, count, b).value;
            ReadMany(reader, count, b + more) == Some((xs, rest + more))
  {
    if count != 0 { ReadManyExtends(reader, count - 1, reader(b).value.1, more); }
  }
}
