/** Base-128 varints as written and read by core/lib/core/coding.cc. */
module Varints {
  import opened Arithmetic
  import opened Pixels

  const TWO_64: int := 0x1_0000_0000_0000_0000
  type Uint64 = x: int | 0 <= x < TWO_64

  const MAX_BYTES: nat := 10

  /** Seven bits a byte, least significant first; the high bit says that more follow. */
  function Varint(v: nat): (r: seq<Byte>)
    ensures |r| >= 1
  {
    if v < 128 then [v] else [v % 128 + 128] + Varint(v / 128)
  }

  function Pow128(k: nat): (p: nat)
    ensures p > 0
  {
    if k == 0 then 1 else 128 * Pow128(k - 1)
  }

  /** Value of the low seven bits of each byte, least significant byte first. */
  function Base128(p: seq<Byte>): nat {
    if p == [] then 0 else p[0] % 128 + 128 * Base128(p[1..])
  }

  /** Byte k is the first without the high bit. */
  predicate EndsAt(p: seq<Byte>, k: nat) {
    k < |p| && p[k] < 128 && forall i :: 0 <= i < k ==> p[i] >= 128
  }

  /** An encoding reads back as its value. */
  lemma {:induction false} VarintReadsBack(v: nat)
    ensures Base128(Varint(v)) == v
  {
    if v < 128 {
      assert Varint(v)[1..] == [];
    } else {
      VarintReadsBack(v / 128);
      assert Varint(v)[1..] == Varint(v / 128);
    }
  }

  /** It ends where it ends, whatever follows. */
  lemma {:induction false} VarintEnds(v: nat, rest: seq<Byte>)
    ensures EndsAt(Varint(v) + rest, |Varint(v)| - 1)
  {
    if v >= 128 {
      VarintEnds(v / 128, rest);
      assert (Varint(v) + rest)[1..] == Varint(v / 128) + rest;
      EndsLater(Varint(v) + rest, |Varint(v / 128)| - 1);
    }
  }

  lemma EndsLater(p: seq<Byte>, k: nat)
    requires |p| > 0 && p[0] >= 128 && EndsAt(p[1..], k)
    ensures EndsAt(p, k + 1)
  {
    forall i | 1 <= i < k + 1 ensures p[i] >= 128 {
      assert p[i] == p[1..][i - 1];
    }
  }

  /** k bytes are enough exactly for the values below 128 to the k. */
  lemma {:induction false} LengthTells(v: nat, k: nat)
    requires k >= 1
    ensures |Varint(v)| <= k <==> v < Pow128(k)
  {
    if k > 1 && v >= 128 {
      LengthTells(v / 128, k - 1);
      DivMod(v, 128);
    } else if v < 128 {
      Pow128AtLeast(k);
    } else {
      assert Pow128(1) == 128 * Pow128(0);
    }
  }

  lemma {:induction false} Pow128AtLeast(k: nat)
    requires k >= 1
    ensures Pow128(k) >= 128
  {
    if k > 1 {
      Pow128AtLeast(k - 1);
    } else {
      assert Pow128(0) == 1;
    }
  }

  /** Every 64-bit value takes at most ten bytes. */
  lemma AtMostTenBytes(v: Uint64)
    ensures |Varint(v)| <= MAX_BYTES
  {
    assert Pow128(2) == 0x4000 by { assert Pow128(1) == 128; }
    assert Pow128(4) == 0x1000_0000 by { assert Pow128(3) == 0x20_0000; }
    assert Pow128(6) == 0x400_0000_0000 by { assert Pow128(5) == 0x8_0000_0000; }
    assert Pow128(8) == 0x100_0000_0000_0000 by { assert Pow128(7) == 0x2_0000_0000_0000; }
    assert Pow128(10) == 0x40_0000_0000_0000_0000 by { assert Pow128(9) == 0x8000_0000_0000_0000; }
    LengthTells(v, MAX_BYTES);
  }

  /** The first byte of an encoding that continues from position k, and what follows it. */
  lemma NextByte(full: seq<Byte>, k: nat, v: nat)
    requires k <= |full| && full[k..] == Varint(v)
    ensures k < |full|
    ensures if v < 128 then full[k] == v && k + 1 == |full|
            else full[k] == v % 128 + 128 && full[k + 1..] == Varint(v / 128)
  {
    assert full[k] == full[k..][0];
    assert full[k + 1..] == full[k..][1..];
  }

  method EncodeVarint64(dst: array<Byte>, at: nat, value: Uint64) returns (next: nat)
    requires at + |Varint(value)| <= dst.Length
    modifies dst
    ensures next == at + |Varint(value)| && dst[at..next] == Varint(value)
    ensures forall i :: 0 <= i < dst.Length && !(at <= i < next) ==> dst[i] == old(dst[i])
  {
    hide Varint;
    var v := value;
    ghost var full := Varint(value);
    next := at;
    NextByte(full, 0, v);
    while v >= 128
      invariant at <= next < at + |full| && v >= 0
      invariant full[next - at..] == Varint(v)
      invariant forall k :: at <= k < next ==> dst[k] == full[k - at]
      invariant forall k :: 0 <= k < dst.Length && !(at <= k < next) ==> dst[k] == old(dst[k])
    {
      NextByte(full, next - at, v);
      dst[next] := v % 128 + 128;
      v := v / 128;
      next := next + 1;
      NextByte(full, next - at, v);
    }
    NextByte(full, next - at, v);
    dst[next] := v;
    next := next + 1;
  }

  method VarintLength(value: Uint64) returns (len: nat)
    ensures len == |Varint(value)|
  {
    len := 1;
    var v := value;
    while v >= 128
      invariant v >= 0 && len + |Varint(v)| == 1 + |Varint(value)|
    {
      v := v / 128;
      len := len + 1;
    }
  }

  datatype Parsed = NoVarint | Parsed(next: nat, value: Uint64)

  /** Where a varint read from `from` on ends, if it ends within ten bytes and the limit. */
  ghost predicate ParsesTo(src: seq<Byte>, from: nat, r: Parsed)
    requires from <= |src|
  {
    match r
    case NoVarint => forall k :: 0 <= k < MAX_BYTES ==> !EndsAt(src[from..], k)
    case Parsed(next, value) =>
      && from < next <= |src| && next - from <= MAX_BYTES
      && EndsAt(src[from..], next - from - 1)
      && value == Base128(src[from..next]) % TWO_64
  }

  function EndOf(p: seq<Byte>): (k: nat)
    ensures k <= |p| && (k < |p| ==> EndsAt(p, k))
    ensures forall i :: 0 <= i < k ==> p[i] >= 128
  {
    if p == [] || p[0] < 128 then 0 else 1 + EndOf(p[1..])
  }

  /** What reading a varint gives. */
  function Parse(src: seq<Byte>, from: nat): (r: Parsed)
    requires from <= |src|
    ensures ParsesTo(src, from, r)
  {
    var k := EndOf(src[from..]);
    if k < MAX_BYTES && from + k < |src|
    then Parsed(from + k + 1, Base128(src[from..from + k + 1]) % TWO_64)
    else NoVarint
  }

  lemma ParseUnique(src: seq<Byte>, from: nat, r: Parsed)
    requires from <= |src| && ParsesTo(src, from, r)
    ensures r == Parse(src, from)
  {
  }

  /** An encoding is read back from wherever it stands. */
  lemma ParseReadsBack(src: seq<Byte>, from: nat, v: Uint64)
    requires from + |Varint(v)| <= |src| && src[from..from + |Varint(v)|] == Varint(v)
    ensures Parse(src, from) == Parsed(from + |Varint(v)|, v)
  {
    hide Varint, Base128;
    var rest := src[from + |Varint(v)|..];
    assert src[from..] == Varint(v) + rest;
    VarintEnds(v, rest);
    VarintReadsBack(v);
    AtMostTenBytes(v);
    ParseUnique(src, from, Parsed(from + |Varint(v)|, v));
  }

  function Shifted(r: Parsed, distance: nat): Parsed {
    if r.NoVarint? then NoVarint else Parsed(r.next + distance, r.value)
  }

  /** What stands before the starting point does not matter. */
  lemma ParseShifts(before: seq<Byte>, src: seq<Byte>, from: nat)
    requires from <= |src|
    ensures Parse(before + src, |before| + from) == Shifted(Parse(src, from), |before|)
  {
    hide Base128, EndOf;
    assert (before + src)[|before| + from..] == src[from..];
    var k := EndOf(src[from..]);
    if from + k < |src| {
      assert (before + src)[|before| + from..|before| + from + k + 1] == src[from..from + k + 1];
    }
  }

  /** Reads up to ten bytes; bits past the 64th are dropped. */
  method GetVarint64Ptr(src: seq<Byte>, from: nat) returns (r: Parsed)
    requires from <= |src|
    ensures r == Parse(src, from)
  {
    hide Base128, Pow128, Parse;
    var p, place, result := from, 1, 0;
    var i := 0;
    StartReading(src, from);
    while i < MAX_BYTES && p < |src|
      invariant p == from + i <= |src| && i <= MAX_BYTES && place == Pow128(i)
      invariant forall k :: from <= k < p ==> src[k] >= 128
      invariant 0 <= result && result == Base128(src[from..p]) % TWO_64
    {
      var byte := src[p];
      ReadByte(src, from, p, place);
      result := (result + byte % 128 * place) % TWO_64;
      p := p + 1;
      if byte < 128 {
        assert EndsAt(src[from..], i);
        ParseUnique(src, from, Parsed(p, result));
        return Parsed(p, result);
      }
      i := i + 1;
      place := 128 * place;
    }
    ParseUnique(src, from, NoVarint);
    return NoVarint;
  }

  lemma StartReading(src: seq<Byte>, from: nat)
    requires from <= |src|
    ensures Pow128(0) == 1 && Base128(src[from..from]) == 0
  {
  }

  lemma ReadByte(src: seq<Byte>, from: nat, p: nat, place: nat)
    requires from <= p < |src| && place == Pow128(p - from)
    ensures Pow128(p + 1 - from) == 128 * place
    ensures (Base128(src[from..p]) % TWO_64 + src[p] % 128 * place) % TWO_64 == Base128(src[from..p + 1]) % TWO_64
  {
    hide Base128;
    AppendByte(src[from..p], src[p]);
    assert src[from..p + 1] == src[from..p] + [src[p]];
    ModuloSum(Base128(src[from..p]), src[p] % 128 * place);
  }

  lemma ModuloSum(a: int, b: int)
    ensures (a % TWO_64 + b) % TWO_64 == (a + b) % TWO_64
  {
    DivMod(a, TWO_64);
    DivMod(a + b, TWO_64);
    DivideIs(a % TWO_64 + b, TWO_64, (a + b) / TWO_64 - a / TWO_64);
  }

  lemma NextPlace(x: int, digit: int, place: int)
    ensures 128 * (x + digit * place) == 128 * x + digit * (128 * place)
  {
  }

  lemma {:induction false} AppendByte(p: seq<Byte>, b: Byte)
    ensures Base128(p + [b]) == Base128(p) + b % 128 * Pow128(|p|)
  {
    if p == [] {
      assert (p + [b])[1..] == [];
    } else {
      assert (p + [b])[1..] == p[1..] + [b];
      AppendByte(p[1..], b);
      NextPlace(Base128(p[1..]), b % 128, Pow128(|p| - 1));
    }
  }
}
