/**
 The flat encoding of string tensors (c_api.cc): a table of 64-bit offsets followed by the
 strings, each preceded by its length as a varint.
 */
module StringTensors {
  import opened Arithmetic
  import opened Pixels
  import opened Varints

  type Bytes = seq<Byte>

  /** Largest object a pointer difference can span. */
  const MAX_BUFFER: int := 0x7FFF_FFFF_FFFF_FFFF

  // ---------------------------------------------------------------------------------------
  // The encoding.

  function EncodedString(s: Bytes): (r: Bytes)
    ensures |r| > |s|
  {
    Varint(|s|) + s
  }

  function Data(strings: seq<Bytes>): Bytes {
    if strings == [] then [] else Data(strings[..|strings| - 1]) + EncodedString(strings[|strings| - 1])
  }

  /** Where string i starts, counted from the end of the offset table. */
  function OffsetOf(strings: seq<Bytes>, i: nat): nat
    requires i <= |strings|
  {
    |Data(strings[..i])|
  }

  /** n bytes, least significant first. */
  function LittleEndian(v: nat, n: nat): (r: Bytes)
    ensures |r| == n
  {
    if n == 0 then [] else [v % 256] + LittleEndian(v / 256, n - 1)
  }

  function FromLittleEndian(b: Bytes): nat {
    if b == [] then 0 else b[0] + 256 * FromLittleEndian(b[1..])
  }

  function OffsetTable(strings: seq<Bytes>, n: nat): (r: Bytes)
    requires n <= |strings|
    ensures |r| == 8 * n
  {
    if n == 0 then [] else OffsetTable(strings, n - 1) + LittleEndian(OffsetOf(strings, n - 1), 8)
  }

  function Encoded(strings: seq<Bytes>): (r: Bytes)
    ensures |r| == EncodedSize(strings)
  {
    OffsetTable(strings, |strings|) + Data(strings)
  }

  function EncodedSize(strings: seq<Bytes>): nat {
    8 * |strings| + |Data(strings)|
  }

  lemma {:induction false} Pow256Wide(v: nat, n: nat)
    requires v < Pow256(n)
    ensures FromLittleEndian(LittleEndian(v, n)) == v
  {
    if n > 0 {
      DivMod(v, 256);
      Pow256Wide(v / 256, n - 1);
      assert LittleEndian(v, n)[1..] == LittleEndian(v / 256, n - 1);
    }
  }

  function Pow256(n: nat): nat {
    if n == 0 then 1 else 256 * Pow256(n - 1)
  }

  lemma EightBytesReadBack(v: Uint64)
    ensures FromLittleEndian(LittleEndian(v, 8)) == v
  {
    assert Pow256(4) == 0x1_0000_0000 by { assert Pow256(2) == 0x1_0000; }
    assert Pow256(8) == TWO_64 by { assert Pow256(6) == 0x1_0000_0000_0000; }
    Pow256Wide(v, 8);
  }

  /** Encoded strings lie one after the other. */
  lemma {:induction false} DataPrefix(strings: seq<Bytes>, i: nat)
    requires i < |strings|
    ensures OffsetOf(strings, i) + |EncodedString(strings[i])| == OffsetOf(strings, i + 1)
    ensures OffsetOf(strings, i + 1) <= |Data(strings)|
    ensures Data(strings)[OffsetOf(strings, i)..OffsetOf(strings, i + 1)] == EncodedString(strings[i])
  {
    hide EncodedString;
    assert strings[..i + 1][..i] == strings[..i];
    var last := |strings| - 1;
    if i == last {
      assert strings[..i + 1] == strings;
    } else {
      DataPrefix(strings[..last], i);
      assert strings[..last][..i] == strings[..i] && strings[..last][..i + 1] == strings[..i + 1];
    }
  }

  /** Offsets strictly increase and stay below the size of the data. */
  lemma {:induction false} OffsetsIncrease(strings: seq<Bytes>, i: nat, j: nat)
    requires i < j <= |strings|
    ensures OffsetOf(strings, i) < OffsetOf(strings, j) <= |Data(strings)|
    decreases j
  {
    DataPrefix(strings, j - 1);
    if i < j - 1 {
      OffsetsIncrease(strings, i, j - 1);
    }
  }

  lemma {:induction false} TableEntry(strings: seq<Bytes>, n: nat, i: nat)
    requires i < n <= |strings|
    ensures OffsetTable(strings, n)[8 * i..8 * i + 8] == LittleEndian(OffsetOf(strings, i), 8)
  {
    if i < n - 1 {
      TableEntry(strings, n - 1, i);
    }
  }

  // ---------------------------------------------------------------------------------------
  // Decoding, as a function.

  /** A tensor's buffer at an address of the memory around it. */
  datatype Memory = Memory(bytes: Bytes, start: nat, size: nat) {
    predicate Valid() {
      start + size <= |bytes|
    }

    /** Everything before the end of the tensor. */
    function ToLimit(): Bytes
      requires Valid()
    {
      bytes[..start + size]
    }
  }

  /** One element, or why there is none; the last case is a read from an address without memory. */
  datatype Element = Value(s: Bytes) | OutOfRange | BadLength | Unmapped

  datatype Decoded = Strings(strings: seq<Bytes>) | TooShort | Malformed(i: nat, why: Element) | Crash

  /** A 64-bit offset as a signed pointer difference. */
  function Signed(offset: Uint64): int {
    if offset > MAX_BUFFER then offset - TWO_64 else offset
  }

  /** The same 64 bits, read as a signed number. */
  lemma SignedTells(offset: Uint64)
    ensures -0x8000_0000_0000_0000 <= Signed(offset) < 0x8000_0000_0000_0000
    ensures Signed(offset) == offset || Signed(offset) == offset - 0x1_0000_0000_0000_0000
  {
  }

  /** Table entries are read least significant byte first. */
  lemma EntryBytes(b: Bytes)
    requires |b| == 8
    ensures FromLittleEndian(b)
         == b[0] as int + 0x100 * b[1] as int + 0x1_0000 * b[2] as int + 0x100_0000 * b[3] as int
            + 0x1_0000_0000 * b[4] as int + 0x100_0000_0000 * b[5] as int
            + 0x1_0000_0000_0000 * b[6] as int + 0x100_0000_0000_0000 * b[7] as int
  {
    EntryHalf(b[4..]);
    assert b[1..][1..] == b[2..] && b[2..][1..] == b[3..] && b[3..][1..] == b[4..];
    assert FromLittleEndian(b[3..]) == b[3] + 256 * FromLittleEndian(b[4..]);
    assert FromLittleEndian(b[2..]) == b[2] + 256 * FromLittleEndian(b[3..]);
    assert FromLittleEndian(b[1..]) == b[1] + 256 * FromLittleEndian(b[2..]);
  }

  lemma EntryHalf(b: Bytes)
    requires |b| == 4
    ensures FromLittleEndian(b)
         == b[0] as int + 0x100 * b[1] as int + 0x1_0000 * b[2] as int + 0x100_0000 * b[3] as int
  {
    assert b[1..][1..] == b[2..] && b[2..][1..] == b[3..] && b[3..][1..] == [];
    assert FromLittleEndian(b[3..]) == b[3];
    assert FromLittleEndian(b[2..]) == b[2] + 256 * FromLittleEndian(b[3..]);
    assert FromLittleEndian(b[1..]) == b[1] + 256 * FromLittleEndian(b[2..]);
  }

  function Entry(m: Memory, i: nat): Uint64
    requires m.Valid() && 8 * i + 8 <= m.size
  {
    EntryFits(m.bytes[m.start + 8 * i..m.start + 8 * i + 8]);
    FromLittleEndian(m.bytes[m.start + 8 * i..m.start + 8 * i + 8])
  }

  lemma EntryFits(b: Bytes)
    requires |b| == 8
    ensures FromLittleEndian(b) < TWO_64
  {
    FromLittleEndianBound(b);
    assert Pow256(4) == 0x1_0000_0000 by { assert Pow256(2) == 0x1_0000; }
    assert Pow256(8) == TWO_64 by { assert Pow256(6) == 0x1_0000_0000_0000; }
  }

  lemma {:induction false} FromLittleEndianBound(b: Bytes)
    ensures FromLittleEndian(b) < Pow256(|b|)
  {
    if b != [] {
      FromLittleEndianBound(b[1..]);
    }
  }

  /** Only the start is compared with the size of the data, as signed numbers. */
  function ElementAt(m: Memory, n: nat, i: nat): Element
    requires m.Valid() && 8 * n <= m.size && i < n
  {
    var offset := Signed(Entry(m, i));
    if offset >= m.size - 8 * n then OutOfRange
    else if m.start + 8 * n + offset < 0 then Unmapped
    else StringAt(m, m.start + 8 * n + offset)
  }

  /** The varint is read up to the end of the tensor, the bytes without a limit. */
  function StringAt(m: Memory, at: nat): Element
    requires m.Valid() && at <= m.start + m.size
  {
    match Parse(m.ToLimit(), at)
    case NoVarint => BadLength
    case Parsed(next, len) => if next + len <= |m.bytes| then Value(m.bytes[next..next + len]) else Unmapped
  }

  /** When each outcome occurs, by position alone. */
  lemma ElementTells(m: Memory, n: nat, i: nat)
    requires m.Valid() && 8 * n <= m.size && i < n
    ensures var start := m.start + 8 * n + Signed(Entry(m, i)); var limit := m.start + m.size;
      && (ElementAt(m, n, i) == OutOfRange <==> start >= limit)
      && (start < 0 ==> ElementAt(m, n, i) == Unmapped)
      && (0 <= start < limit ==>
            match Parse(m.bytes[..limit], start)
            case NoVarint => ElementAt(m, n, i) == BadLength
            case Parsed(next, len) =>
              if next + len > |m.bytes| then ElementAt(m, n, i) == Unmapped
              else ElementAt(m, n, i) == Value(m.bytes[next..next + len]))
  {
    hide Parse, Entry;
  }

  function DecodedUpTo(m: Memory, n: nat, k: nat): (r: Decoded)
    requires m.Valid() && 8 * n <= m.size && k <= n
    ensures r.Strings? ==> |r.strings| == k
  {
    if k == 0 then Strings([])
    else
      match DecodedUpTo(m, n, k - 1)
      case Strings(before) =>
        (match ElementAt(m, n, k - 1)
         case Value(s) => Strings(before + [s])
         case Unmapped => Crash
         case why => Malformed(k - 1, why))
      case failed => failed
  }

  function Decode(m: Memory, n: nat): Decoded
    requires m.Valid()
  {
    if m.size / 8 < n then TooShort else DecodedUpTo(m, n, n)
  }

  /** The decoder stops at the first element that has no value, and otherwise returns all values in order. */
  lemma {:induction false} DecodingTells(m: Memory, n: nat, k: nat)
    requires m.Valid() && 8 * n <= m.size && k <= n
    ensures match DecodedUpTo(m, n, k)
      case Strings(strings) => forall i :: 0 <= i < k ==> ElementAt(m, n, i) == Value(strings[i])
      case TooShort => false
      case Malformed(i, why) =>
        && i < k && ElementAt(m, n, i) == why && !why.Value? && !why.Unmapped?
        && forall j :: 0 <= j < i ==> ElementAt(m, n, j).Value?
      case Crash => exists i :: 0 <= i < k && ElementAt(m, n, i) == Unmapped
  {
    hide ElementAt;
    if k > 0 {
      DecodingTells(m, n, k - 1);
    }
  }

  lemma {:induction false} DecodingStops(m: Memory, n: nat, k: nat, l: nat)
    requires m.Valid() && 8 * n <= m.size && k <= l <= n && !DecodedUpTo(m, n, k).Strings?
    ensures DecodedUpTo(m, n, l) == DecodedUpTo(m, n, k)
  {
    hide ElementAt;
    if k < l {
      DecodingStops(m, n, k, l - 1);
    }
  }

  // ---------------------------------------------------------------------------------------
  // Exactly when the result depends on the tensor alone.

  function Around(before: Bytes, src: Bytes, after: Bytes): (m: Memory)
    ensures m.Valid() && m.size == |src| && m.start == |before|
  {
    Memory(before + src + after, |before|, |src|)
  }

  function Alone(src: Bytes): (m: Memory)
    ensures m.Valid() && m.size == |src| && m.start == 0 && m.bytes == src
  {
    Around([], src, [])
  }

  /** An element that passes the range check starts in the tensor, and its bytes are all left there. */
  predicate Contained(src: Bytes, n: nat, i: nat)
    requires 8 * n <= |src| && i < n
  {
    var offset := Signed(Entry(Alone(src), i));
    offset < |src| - 8 * n ==>
      && 8 * n + offset >= 0
      && match Parse(src, 8 * n + offset)
         case NoVarint => true
         case Parsed(next, len) => len <= |src| - next
  }

  /** Decoding gets as far as element i. */
  predicate Reached(src: Bytes, n: nat, i: nat)
    requires 8 * n <= |src| && i < n
  {
    forall j :: 0 <= j < i ==> ElementAt(Alone(src), n, j).Value?
  }

  /** A check on the bytes alone: the elements that decoding reaches are contained. */
  predicate AllContained(src: Bytes, n: nat) {
    |src| / 8 < n || forall i :: 0 <= i < n && Reached(src, n, i) ==> Contained(src, n, i)
  }

  lemma SliceSame(before: Bytes, src: Bytes, after: Bytes, lo: nat, hi: nat)
    requires lo <= hi <= |src|
    ensures (before + src + after)[|before| + lo..|before| + hi] == src[lo..hi]
  {
  }

  lemma LimitSame(before: Bytes, src: Bytes, after: Bytes)
    ensures Around(before, src, after).ToLimit() == before + src
    ensures Alone(src).ToLimit() == src
  {
  }

  lemma EntrySame(before: Bytes, src: Bytes, after: Bytes, i: nat)
    requires 8 * i + 8 <= |src|
    ensures Entry(Around(before, src, after), i) == Entry(Alone(src), i)
  {
    hide FromLittleEndian;
    SliceSame(before, src, after, 8 * i, 8 * i + 8);
  }

  lemma StringSame(before: Bytes, src: Bytes, after: Bytes, at: nat)
    requires at <= |src| && match Parse(src, at) case NoVarint => true case Parsed(next, len) => len <= |src| - next
    ensures StringAt(Around(before, src, after), |before| + at) == StringAt(Alone(src), at)
  {
    hide Parse, ParsesTo, Memory.ToLimit;
    LimitSame(before, src, after);
    ParseShifts(before, src, at);
    match Parse(src, at)
    case NoVarint =>
    case Parsed(next, len) =>
      ParseStays(src, at);
      SliceSame(before, src, after, next, next + len);
  }

  lemma ParseStays(src: Bytes, at: nat)
    requires at <= |src|
    ensures match Parse(src, at) case NoVarint => true case Parsed(next, _) => next <= |src|
  {
  }

  lemma AloneString(src: Bytes, at: nat)
    requires at <= |src|
    ensures StringAt(Alone(src), at) == Unmapped
       <==> Parse(src, at).Parsed? && Parse(src, at).value > |src| - Parse(src, at).next
  {
    hide Parse, ParsesTo, Memory.ToLimit, Around;
    LimitSame([], src, []);
  }

  lemma AloneUnmapped(src: Bytes, n: nat, i: nat)
    requires 8 * n <= |src| && i < n
    ensures ElementAt(Alone(src), n, i) == Unmapped <==> !Contained(src, n, i)
  {
    hide Parse, ParsesTo, Entry, Around, Alone, StringAt;
    var offset := Signed(Entry(Alone(src), i));
    if 0 <= 8 * n + offset < |src| {
      AloneString(src, 8 * n + offset);
    }
  }

  lemma ContainedSame(before: Bytes, src: Bytes, after: Bytes, n: nat, i: nat)
    requires 8 * n <= |src| && i < n && Contained(src, n, i)
    ensures ElementAt(Around(before, src, after), n, i) == ElementAt(Alone(src), n, i)
  {
    hide Parse, Entry, Around, Alone, StringAt;
    EntrySame(before, src, after, i);
    var offset := Signed(Entry(Alone(src), i));
    if offset < |src| - 8 * n {
      StringSame(before, src, after, 8 * n + offset);
    }
  }

  lemma {:induction false} DecodedSame(before: Bytes, src: Bytes, after: Bytes, n: nat, k: nat)
    requires 8 * n <= |src| && k <= n && AllContained(src, n)
    ensures DecodedUpTo(Around(before, src, after), n, k) == DecodedUpTo(Alone(src), n, k)
  {
    hide ElementAt, Contained, Around;
    if k > 0 {
      DecodedSame(before, src, after, n, k - 1);
      DecodingTells(Alone(src), n, k - 1);
      if DecodedUpTo(Alone(src), n, k - 1).Strings? {
        assert Reached(src, n, k - 1);
        ContainedSame(before, src, after, n, k - 1);
      }
    }
  }

  lemma {:induction false} AllValues(m: Memory, n: nat, k: nat)
    requires m.Valid() && 8 * n <= m.size && k <= n && forall j :: 0 <= j < k ==> ElementAt(m, n, j).Value?
    ensures DecodedUpTo(m, n, k).Strings?
  {
    hide ElementAt;
    if k > 0 {
      AllValues(m, n, k - 1);
    }
  }

  /** Without memory around it, an element that is not contained ends in a crash. */
  lemma NotContainedCrashes(src: Bytes, n: nat)
    requires !AllContained(src, n)
    ensures Decode(Alone(src), n) == Crash
  {
    hide ElementAt, Contained, Alone;
    var i :| 0 <= i < n && Reached(src, n, i) && !Contained(src, n, i);
    AllValues(Alone(src), n, i);
    AloneUnmapped(src, n, i);
    DecodingStops(Alone(src), n, i + 1, n);
  }

  function Zeros(n: nat): (r: Bytes)
    ensures |r| == n
  {
    seq(n, _ => 0)
  }

  /** With enough memory on both sides no read leaves it. */
  lemma PaddedNeverCrashes(src: Bytes, n: nat)
    ensures Decode(Around(Zeros(MAX_BUFFER + 1), src, Zeros(TWO_64)), n) != Crash
  {
    hide Parse, Zeros, Entry;
    var m := Around(Zeros(MAX_BUFFER + 1), src, Zeros(TWO_64));
    if |src| / 8 >= n {
      forall i | 0 <= i < n ensures ElementAt(m, n, i) != Unmapped {
        assert Signed(Entry(m, i)) >= -(MAX_BUFFER + 1);
      }
      DecodingTells(m, n, n);
    }
  }

  /**
   What lies around a tensor has no influence on the decoded strings or errors exactly if
   every element that is reached starts in the tensor and is no longer than what is left.
   */
  lemma DeterminedExactlyWhenContained(src: Bytes, n: nat)
    ensures (forall before, after :: Decode(Around(before, src, after), n) == Decode(Alone(src), n))
       <==> AllContained(src, n)
  {
    hide DecodedUpTo, AllContained, Around, Alone;
    if AllContained(src, n) {
      forall before, after ensures Decode(Around(before, src, after), n) == Decode(Alone(src), n) {
        if |src| / 8 >= n {
          DecodedSame(before, src, after, n, n);
        }
      }
    } else {
      NotContainedCrashes(src, n);
      PaddedNeverCrashes(src, n);
    }
  }

  /** A length of 5 with nothing behind it: the string is what happens to follow the tensor. */
  lemma LengthPastTheEnd(after: Bytes)
    requires |after| >= 5
    ensures !AllContained(Zeros(8) + [5], 1)
    ensures Decode(Around([], Zeros(8) + [5], after), 1) == Strings([after[..5]])
  {
    hide Zeros, Parse, Entry, Around;
    var src := Zeros(8) + [5];
    var m := Around([], src, after);
    FirstEntryIsZero([5], after);
    FirstEntryIsZero([5], []);
    FiveIsRead();
    assert m.ToLimit() == src && m.bytes == src + after by { AroundNothing(src, after); }
    assert m.bytes[9..14] == after[..5];
    assert Reached(src, 1, 0) && !Contained(src, 1, 0);
    assert ElementAt(m, 1, 0) == Value(after[..5]);
    assert DecodedUpTo(m, 1, 0) == Strings([]);
    assert [] + [after[..5]] == [after[..5]];
  }

  /** An offset of -9 passes the range check: the string starts with the byte before the tensor. */
  lemma OffsetBeforeTheTensor(before: Bytes)
    requires before != [] && before[|before| - 1] <= 8
    ensures var src := LittleEndian(0xFFFF_FFFF_FFFF_FFF7, 8);
      && !AllContained(src, 1)
      && Decode(Around(before, src, []), 1) == Strings([src[..before[|before| - 1]]])
  {
    hide LittleEndian, FromLittleEndian, Parse, Entry;
    var src, len, at := LittleEndian(0xFFFF_FFFF_FFFF_FFF7, 8), before[|before| - 1], |before| - 1;
    var m := Around(before, src, []);
    MinusNine(before, src);
    MinusNine([], src);
    assert Reached(src, 1, 0) && !Contained(src, 1, 0);
    assert m.bytes == before + src == m.ToLimit() && (before + src)[at] == len;
    OneByte(before + src, at, len);
    assert m.bytes[at + 1..at + 1 + len] == src[..len];
    assert ElementAt(m, 1, 0) == Value(src[..len]);
    assert DecodedUpTo(m, 1, 0) == Strings([]);
    assert [] + [src[..len]] == [src[..len]];
  }

  lemma MinusNine(before: Bytes, src: Bytes)
    requires src == LittleEndian(0xFFFF_FFFF_FFFF_FFF7, 8)
    ensures Signed(Entry(Around(before, src, []), 0)) == -9
  {
    hide LittleEndian, FromLittleEndian;
    var m := Around(before, src, []);
    assert m.bytes[m.start + 8 * 0..m.start + 8 * 0 + 8] == src;
    EightBytesReadBack(0xFFFF_FFFF_FFFF_FFF7);
  }

  lemma OneByte(p: Bytes, at: nat, len: Byte)
    requires at < |p| && p[at] == len < 128
    ensures Parse(p, at) == Parsed(at + 1, len)
  {
    hide Parse;
    assert Varint(len) == [len] == p[at..at + 1];
    ParseReadsBack(p, at, len);
  }

  lemma AroundNothing(src: Bytes, after: Bytes)
    ensures Around([], src, after).bytes == src + after && Around([], src, after).ToLimit() == src
  {
    assert [] + src == src;
  }

  lemma FirstEntryIsZero(data: Bytes, after: Bytes)
    ensures Entry(Around([], Zeros(8) + data, after), 0) == 0
  {
    hide FromLittleEndian;
    AroundNothing(Zeros(8) + data, after);
    var m := Around([], Zeros(8) + data, after);
    assert m.bytes[m.start + 0..m.start + 8] == Zeros(8);
    ZerosAreZero(8);
  }

  lemma FiveIsRead()
    ensures Parse(Zeros(8) + [5], 8) == Parsed(9, 5)
  {
    var src := Zeros(8) + [5];
    assert src[8..] == [5] == src[8..9];
    assert [5][1..] == [];
  }

  lemma {:induction false} ZerosAreZero(n: nat)
    ensures FromLittleEndian(Zeros(n)) == 0
  {
    if n > 0 {
      ZerosAreZero(n - 1);
      assert Zeros(n)[1..] == Zeros(n - 1);
    }
  }

  // ---------------------------------------------------------------------------------------
  // The round trip.

  lemma PartsOf(src: Bytes, at: nat, a: Bytes, b: Bytes)
    requires at + |a| + |b| <= |src| && src[at..at + |a| + |b|] == a + b
    ensures src[at..at + |a|] == a && src[at + |a|..at + |a| + |b|] == b
  {
    var all := src[at..at + |a| + |b|];
    forall k | 0 <= k < |a| ensures src[at..at + |a|][k] == a[k] {
      assert all[k] == (a + b)[k];
    }
    forall k | 0 <= k < |b| ensures src[at + |a|..at + |a| + |b|][k] == b[k] {
      assert all[|a| + k] == (a + b)[|a| + k];
    }
  }

  lemma StringReadsBack(src: Bytes, at: nat, s: Bytes)
    requires |s| < TWO_64 && at + |EncodedString(s)| <= |src|
    requires src[at..at + |EncodedString(s)|] == EncodedString(s)
    ensures StringAt(Alone(src), at) == Value(s)
  {
    hide Varint, Parse, Around, Alone;
    var header := |Varint(|s|)|;
    assert Alone(src).ToLimit() == src;
    PartsOf(src, at, Varint(|s|), s);
    ParseReadsBack(src, at, |s|);
  }

  lemma ElementReadsBack(strings: seq<Bytes>, i: nat)
    requires EncodedSize(strings) <= MAX_BUFFER && i < |strings|
    ensures Entry(Alone(Encoded(strings)), i) == OffsetOf(strings, i) < |Data(strings)|
    ensures ElementAt(Alone(Encoded(strings)), |strings|, i) == Value(strings[i])
  {
    hide Data, LittleEndian, FromLittleEndian, OffsetTable, StringAt, EncodedString;
    var src, n, s := Encoded(strings), |strings|, strings[i];
    var offset := OffsetOf(strings, i);
    TableEntry(strings, n, i);
    assert src[8 * i..8 * i + 8] == OffsetTable(strings, n)[8 * i..8 * i + 8];
    DataPrefix(strings, i);
    EightBytesReadBack(offset);
    var at := 8 * n + offset;
    assert src[at..at + |EncodedString(s)|] == Data(strings)[offset..offset + |EncodedString(s)|];
    StringReadsBack(src, at, s);
  }

  lemma {:induction false} PrefixReadsBack(strings: seq<Bytes>, k: nat)
    requires EncodedSize(strings) <= MAX_BUFFER && k <= |strings|
    ensures DecodedUpTo(Alone(Encoded(strings)), |strings|, k) == Strings(strings[..k])
  {
    hide Encoded, ElementAt, Alone;
    if k > 0 {
      PrefixReadsBack(strings, k - 1);
      ElementReadsBack(strings, k - 1);
      assert strings[..k - 1] + [strings[k - 1]] == strings[..k];
    }
  }

  lemma EncodedIsContained(strings: seq<Bytes>)
    requires EncodedSize(strings) <= MAX_BUFFER
    ensures AllContained(Encoded(strings), |strings|)
  {
    hide Encoded, ElementAt, Alone, Contained, Reached;
    forall i | 0 <= i < |strings| ensures Contained(Encoded(strings), |strings|, i) {
      ElementReadsBack(strings, i);
      AloneUnmapped(Encoded(strings), |strings|, i);
    }
  }

  /** Decoding an encoded list of strings gives the list back, wherever the tensor lies. */
  lemma RoundTrip(strings: seq<Bytes>, before: Bytes, after: Bytes)
    requires EncodedSize(strings) <= MAX_BUFFER
    ensures Decode(Around(before, Encoded(strings), after), |strings|) == Strings(strings)
  {
    hide Encoded, DecodedUpTo, Around, Alone, AllContained;
    PrefixReadsBack(strings, |strings|);
    assert strings[..|strings|] == strings;
    EncodedIsContained(strings);
    DeterminedExactlyWhenContained(Encoded(strings), |strings|);
    assert Decode(Around(before, Encoded(strings), after), |strings|) == Decode(Alone(Encoded(strings)), |strings|);
  }

  // ---------------------------------------------------------------------------------------
  // The loops.

  datatype EncodeResult = Consumed(n: nat) | TooLarge | NoRoom

  /** Unsigned 64-bit sum. */
  method StringEncodedSize(len: Uint64) returns (size: Uint64)
    ensures size == (|Varint(len)| + len) % TWO_64
  {
    var header := VarintLength(len);
    size := (header + len) % TWO_64;
  }

  /** Encodes one string if its encoding fits; otherwise writes nothing. */
  method StringEncode(src: Bytes, dst: array<Byte>, at: nat, dstLen: nat) returns (r: EncodeResult)
    requires |src| < TWO_64 && at + dstLen <= dst.Length
    modifies dst
    ensures r == (if |EncodedString(src)| >= TWO_64 then TooLarge
                  else if dstLen < |EncodedString(src)| then NoRoom
                  else Consumed(|EncodedString(src)|))
    ensures r.Consumed? ==> dst[at..at + r.n] == EncodedString(src)
    ensures forall k :: 0 <= k < dst.Length && !(r.Consumed? && at <= k < at + r.n) ==> dst[k] == old(dst[k])
  {
    hide Varint;
    var sz := StringEncodedSize(|src|);
    AtMostTenBytes(|src|);
    if sz < |src| {
      return TooLarge;
    }
    if dstLen < sz {
      return NoRoom;
    }
    var next := EncodeVarint64(dst, at, |src|);
    ghost var header := dst[at..next];
    forall k | 0 <= k < |src| {
      dst[next + k] := src[k];
    }
    assert dst[at..next] == header;
    assert dst[next..next + |src|] == src;
    assert dst[at..at + sz] == dst[at..next] + dst[next..next + |src|];
    return Consumed(sz);
  }

  method StoreUint64(dst: array<Byte>, at: nat, value: Uint64)
    requires at + 8 <= dst.Length
    modifies dst
    ensures dst[at..at + 8] == LittleEndian(value, 8)
    ensures forall k :: 0 <= k < dst.Length && !(at <= k < at + 8) ==> dst[k] == old(dst[k])
  {
    var bytes := LittleEndian(value, 8);
    forall k | 0 <= k < 8 {
      dst[at + k] := bytes[k];
    }
  }

  lemma SizeStep(strings: seq<Bytes>, i: nat)
    requires i < |strings|
    ensures 8 * (i + 1) + OffsetOf(strings, i + 1) == 8 * i + OffsetOf(strings, i) + 8 + |EncodedString(strings[i])|
    ensures OffsetOf(strings, i + 1) <= |Data(strings)|
    ensures 8 * (i + 1) + OffsetOf(strings, i + 1) <= EncodedSize(strings)
    ensures Data(strings[..i + 1]) == Data(strings[..i]) + EncodedString(strings[i])
  {
    DataPrefix(strings, i);
    assert strings[..i + 1][..i] == strings[..i];
  }

  /** Adds up the bytes for the offsets and the encoded strings; the sum never wraps. */
  method FirstPass(strings: seq<Bytes>) returns (size: Uint64)
    requires EncodedSize(strings) <= MAX_BUFFER
    ensures size == EncodedSize(strings)
  {
    hide Data, Varint;
    size := 0;
    Empty();
    assert strings[..0] == [];
    for i := 0 to |strings|
      invariant size == 8 * i + OffsetOf(strings, i) <= EncodedSize(strings)
    {
      SizeStep(strings, i);
      var encodedSize := StringEncodedSize(|strings[i]|);
      size := size + 8 + encodedSize;
    }
    assert strings[..|strings|] == strings;
  }

  lemma Empty()
    ensures Data([]) == []
  {
  }

  /** Two passes: the first adds up the size, the second fills the buffer to the last byte. */
  method TensorFromTensor(strings: seq<Bytes>) returns (base: array<Byte>)
    requires EncodedSize(strings) <= MAX_BUFFER
    ensures fresh(base) && base[..] == Encoded(strings)
  {
    hide EncodedString, Data, OffsetTable, Varint;
    var size := FirstPass(strings);
    base := new Byte[size];
    var n := |strings|;
    var dst, dstLen := 8 * n, size - 8 * n;
    Empty();
    assert strings[..0] == [] && OffsetTable(strings, 0) == [];
    for i := 0 to n
      invariant dst == 8 * n + OffsetOf(strings, i) && dst + dstLen == size && dstLen >= 0
      invariant base[..8 * i] == OffsetTable(strings, i)
      invariant base[8 * n..dst] == Data(strings[..i])
    {
      var consumed := EncodeElement(strings, i, base, dst, dstLen);
      dst := dst + consumed;
      dstLen := dstLen - consumed;
    }
    assert strings[..n] == strings && dst == base.Length;
    assert base[..] == base[..8 * n] + base[8 * n..dst];
  }

  /** One round of the second pass: an offset and a string. */
  method EncodeElement(strings: seq<Bytes>, i: nat, base: array<Byte>, dst: nat, dstLen: nat) returns (consumed: nat)
    requires EncodedSize(strings) == base.Length <= MAX_BUFFER && i < |strings|
    requires dst == 8 * |strings| + OffsetOf(strings, i) && dst + dstLen == base.Length
    requires base[..8 * i] == OffsetTable(strings, i) && base[8 * |strings|..dst] == Data(strings[..i])
    modifies base
    ensures dst + consumed == 8 * |strings| + OffsetOf(strings, i + 1) && consumed <= dstLen
    ensures base[..8 * (i + 1)] == OffsetTable(strings, i + 1)
    ensures base[8 * |strings|..dst + consumed] == Data(strings[..i + 1])
  {
    hide EncodedString, Data, LittleEndian, Varint;
    ghost var table, data := base[..8 * i], base[8 * |strings|..dst];
    SizeStep(strings, i);
    StoreUint64(base, 8 * i, dst - 8 * |strings|);
    ghost var entry := base[8 * i..8 * i + 8];
    var r := StringEncode(strings[i], base, dst, dstLen);
    consumed := r.n;
    assert base[..8 * i] == table && base[8 * i..8 * i + 8] == entry;
    assert base[..8 * (i + 1)] == table + entry;
    assert base[8 * |strings|..dst] == data;
    assert base[8 * |strings|..dst + consumed] == data + base[dst..dst + consumed];
  }

  /** Rejects a table that does not fit, then decodes element by element. */
  method TensorToTensor(m: Memory, numElements: nat) returns (r: Decoded)
    requires m.Valid()
    ensures r == Decode(m, numElements)
  {
    hide ElementAt;
    if m.size / 8 < numElements {
      return TooShort;
    }
    var decoded := [];
    for i := 0 to numElements
      invariant DecodedUpTo(m, numElements, i) == Strings(decoded)
    {
      var element := DecodeElement(m, numElements, i);
      if !element.Value? {
        DecodingStops(m, numElements, i + 1, numElements);
        return if element.Unmapped? then Crash else Malformed(i, element);
      }
      decoded := decoded + [element.s];
    }
    return Strings(decoded);
  }

  method DecodeElement(m: Memory, n: nat, i: nat) returns (r: Element)
    requires m.Valid() && 8 * n <= m.size && i < n
    ensures r == ElementAt(m, n, i)
  {
    hide Parse, Entry;
    var dataStart, limit := m.start + 8 * n, m.start + m.size;
    var offset := Signed(Entry(m, i));
    if offset >= limit - dataStart {
      return OutOfRange;
    }
    var srcp := dataStart + offset;
    if srcp < 0 {
      return Unmapped;
    }
    var parsed := GetVarint64Ptr(m.ToLimit(), srcp);
    match parsed
    case NoVarint => return BadLength;
    case Parsed(next, len) =>
      r := if next + len <= |m.bytes| then Value(m.bytes[next..next + len]) else Unmapped;
  }
}
