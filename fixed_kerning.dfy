/**
 * The fixed-kerning table: an 8-byte header (u16 version 1, u16 version 0,
 * u32 pair count) followed by 12-byte rows (u32 first glyph, u32 second
 * glyph, Fixed 16.16 kerning). A u16 is stored low byte first; a u32 is
 * stored as its high u16 followed by its low u16.
 *
 * The table is a sequence of bytes; a written file is the sequence of bytes
 * appended to it so far.
 */
module FixedKerning {
  import opened Common

  type Byte = x: int | 0 <= x < 0x100
  type U16 = x: int | 0 <= x < 0x1_0000
  type U32 = x: int | 0 <= x < 0x1_0000_0000
  /** C's int32_t, also the representation of a Fixed 16.16 value. */
  type I32 = x: int | -0x8000_0000 <= x < 0x8000_0000

  const HeaderSize := 8
  const EntrySize := 12

  /** Conversion to uint32_t: reduction modulo 2^32. */
  function ToU32(x: int): (r: U32)
    ensures (x - r) % 0x1_0000_0000 == 0
    ensures 0 <= x < 0x1_0000_0000 ==> r == x
  {
    x % 0x1_0000_0000
  }

  /** Conversion to int32_t: the two's-complement reading of the low 32 bits. */
  function ToI32(x: int): (r: I32)
    ensures (x - r) % 0x1_0000_0000 == 0
    ensures -0x8000_0000 <= x < 0x8000_0000 ==> r == x
  {
    var u := ToU32(x);
    if u < 0x8000_0000 then u else u - 0x1_0000_0000
  }

  /** A signed value survives the round trip through its unsigned bit pattern. */
  lemma I32RoundTrip(k: I32)
    ensures ToI32(ToU32(k)) == k
  {
  }

  // ---------------------------------------------------------------- readers

  /** fk_get_uint16: two bytes, low byte first; 0 when the index is out of bounds. */
  function GetU16(t: seq<Byte>, index: nat): U16
  {
    if index + 1 >= |t| then 0 else (t[index] as int) + 0x100 * (t[index + 1] as int)
  }

  /** fk_get_uint32: the u16 at index is the high half, the u16 at index + 2 the low half. */
  function GetU32(t: seq<Byte>, index: nat): U32
  {
    if index + 3 >= |t| then 0 else GetU16(t, index) * 0x1_0000 + GetU16(t, index + 2)
  }

  /** fk_get_num_kerning_pairs: the u32 at offset 4, or 0 for a table shorter than the header. */
  function NumPairs(t: seq<Byte>): U32
  {
    if |t| < HeaderSize then 0 else GetU32(t, 4)
  }

  /** fk_get_subtable_entries: the bytes after the header, empty when there are none. */
  function Sub(t: seq<Byte>): (sub: seq<Byte>)
    ensures |t| > HeaderSize ==> |sub| == |t| - HeaderSize && t == t[..HeaderSize] + sub
    ensures |t| <= HeaderSize ==> sub == []
  {
    if |t| <= HeaderSize then [] else t[HeaderSize..]
  }

  // ---------------------------------------------------------------- encoders

  /** The two bytes fk_write_u16 emits: low byte, then high byte. */
  function EncodeU16(v: U16): (bytes: seq<Byte>)
    ensures |bytes| == 2
  {
    [v % 0x100, v / 0x100]
  }

  /** The four bytes fk_write_u32 emits: the high u16, then the low u16. */
  function EncodeU32(v: U32): (bytes: seq<Byte>)
    ensures |bytes| == 4
  {
    EncodeU16(v / 0x1_0000) + EncodeU16(v % 0x1_0000)
  }

  /** Reading a u16 back from wherever it was written gives the written value. */
  lemma ReadWrittenU16(prefix: seq<Byte>, v: U16, suffix: seq<Byte>)
    ensures GetU16(prefix + EncodeU16(v) + suffix, |prefix|) == v
  {
    var t := prefix + EncodeU16(v) + suffix;
    assert t[|prefix|] == v % 0x100;
    assert t[|prefix| + 1] == v / 0x100;
  }

  /** Reading a u32 back from wherever it was written gives the written value. */
  lemma ReadWrittenU32(prefix: seq<Byte>, v: U32, suffix: seq<Byte>)
    ensures GetU32(prefix + EncodeU32(v) + suffix, |prefix|) == v
  {
    var hi, lo := EncodeU16(v / 0x1_0000), EncodeU16(v % 0x1_0000);
    var t := prefix + EncodeU32(v) + suffix;
    assert t == prefix + hi + (lo + suffix);
    ReadWrittenU16(prefix, v / 0x1_0000, lo + suffix);
    assert t == (prefix + hi) + lo + suffix;
    ReadWrittenU16(prefix + hi, v % 0x1_0000, suffix);
  }

  /** The sequence test_datatypes writes and reads back: 0x1234 at 0, 0x567abcde at 2. */
  lemma WrittenDatatypesReadBack()
    ensures GetU16(EncodeU16(0x1234) + EncodeU32(0x567abcde), 0) == 0x1234
    ensures GetU32(EncodeU16(0x1234) + EncodeU32(0x567abcde), 2) == 0x567abcde
  {
    ReadWrittenU16([], 0x1234, EncodeU32(0x567abcde));
    assert [] + EncodeU16(0x1234) + EncodeU32(0x567abcde) == EncodeU16(0x1234) + EncodeU32(0x567abcde);
    ReadWrittenU32(EncodeU16(0x1234), 0x567abcde, []);
    assert EncodeU16(0x1234) + EncodeU32(0x567abcde) + [] == EncodeU16(0x1234) + EncodeU32(0x567abcde);
  }

  // ---------------------------------------------------------------- Fixed 16.16

  /** The real number a Fixed 16.16 value stands for. */
  function FixedValue(f: I32): real
  {
    f as real / 65536.0
  }

  /**
   * fk_double_to_fixed, on exact reals: floor(v) shifted into the high half,
   * floor(65536 * (v - floor v)) in the low half. The conversion of floor(v)
   * to int32_t must be defined.
   */
  function DoubleToFixed(v: real): (f: I32)
    requires -0x8000_0000 <= v.Floor < 0x8000_0000
    ensures f == ToI32((65536.0 * v).Floor)
    ensures -32768.0 <= v < 32768.0 ==> FixedValue(f) <= v < FixedValue(f) + 1.0 / 65536.0
  {
    var whole := v.Floor;
    var frac := 65536.0 * (v - whole as real);
    var mant := frac.Floor;
    FloorShift(65536.0 * v, 65536 * whole);
    assert 65536.0 * v - (65536 * whole) as real == frac;
    ToI32(whole * 0x1_0000 + mant)
  }

  /** Subtracting a whole number commutes with floor. */
  lemma FloorShift(x: real, k: int)
    ensures (x - k as real).Floor == x.Floor - k
  {
  }

  /** The two values test_fixed_conversion checks. */
  lemma FixedConversionExamples()
    ensures ToU32(DoubleToFixed(-0.2)) == 0xffffcccc
    ensures ToU32(DoubleToFixed(-0.1)) == 0xffffe666
  {
    assert (-0.2).Floor == -1;
    assert (65536.0 * -0.2).Floor == -13108;
    assert (-0.1).Floor == -1;
    assert (65536.0 * -0.1).Floor == -6554;
  }

  // ---------------------------------------------------------------- rows

  /** One row of the subtable; the kerning is the raw Fixed 16.16 value. */
  datatype KerningPair = Pair(first: U32, second: U32, kerning: I32)

  /** The 64-bit search key (first << 32) | second. */
  function PairKey(first: U32, second: U32): nat
  {
    first * 0x1_0000_0000 + second
  }

  function KeyOf(p: KerningPair): nat
  {
    PairKey(p.first, p.second)
  }

  /** The row at `index` of a subtable, read with the bounds-checked readers. */
  function RowAt(sub: seq<Byte>, index: nat): KerningPair
  {
    var at := index * EntrySize;
    Pair(GetU32(sub, at), GetU32(sub, at + 4), ToI32(GetU32(sub, at + 8)))
  }

  /** The rows a table's header announces. */
  function Rows(t: seq<Byte>): (rows: seq<KerningPair>)
    ensures |rows| == NumPairs(t)
  {
    seq(NumPairs(t), i requires 0 <= i < NumPairs(t) => RowAt(Sub(t), i))
  }

  /** Rows in strictly ascending (first, second) order. */
  predicate StrictlySorted(rows: seq<KerningPair>)
  {
    forall i, j :: 0 <= i < j < |rows| ==> KeyOf(rows[i]) < KeyOf(rows[j])
  }

  /** The twelve bytes of a row as the entry writer emits them. */
  function EncodeRow(p: KerningPair): (bytes: seq<Byte>)
    ensures |bytes| == EntrySize
  {
    EncodeU32(p.first) + EncodeU32(p.second) + EncodeU32(ToU32(p.kerning))
  }

  /** The subtable holding `rows` in order. */
  function EncodePairs(rows: seq<KerningPair>): (bytes: seq<Byte>)
    ensures |bytes| == EntrySize * |rows|
  {
    if rows == [] then [] else EncodeRow(rows[0]) + EncodePairs(rows[1..])
  }

  lemma {:induction false} EncodePairsAppend(a: seq<KerningPair>, b: seq<KerningPair>)
    ensures EncodePairs(a + b) == EncodePairs(a) + EncodePairs(b)
  {
    if a == [] {
      assert a + b == b;
    } else {
      assert (a + b)[1..] == a[1..] + b;
      EncodePairsAppend(a[1..], b);
    }
  }

  /** A row written at a multiple of twelve bytes reads back at that row index. */
  lemma ReadWrittenRow(prefix: seq<Byte>, p: KerningPair, suffix: seq<Byte>, index: nat)
    requires |prefix| == EntrySize * index
    ensures RowAt(prefix + EncodeRow(p) + suffix, index) == p
  {
    var a, b, c := EncodeU32(p.first), EncodeU32(p.second), EncodeU32(ToU32(p.kerning));
    var t := prefix + EncodeRow(p) + suffix;
    assert t == prefix + a + (b + c + suffix);
    ReadWrittenU32(prefix, p.first, b + c + suffix);
    assert t == (prefix + a) + b + (c + suffix);
    ReadWrittenU32(prefix + a, p.second, c + suffix);
    assert t == (prefix + a + b) + c + suffix;
    ReadWrittenU32(prefix + a + b, ToU32(p.kerning), suffix);
    I32RoundTrip(p.kerning);
  }

  /** The encoding of a row sequence around its i-th row. */
  lemma {:induction false} EncodePairsSplit(rows: seq<KerningPair>, i: nat)
    requires i < |rows|
    ensures EncodePairs(rows) == EncodePairs(rows[..i]) + EncodeRow(rows[i]) + EncodePairs(rows[i + 1..])
  {
    var before, single, after := rows[..i], [rows[i]], rows[i + 1..];
    assert rows == before + (single + after);
    EncodePairsAppend(before, single + after);
    EncodePairsAppend(single, after);
    assert single[1..] == [];
    assert EncodePairs(single) == EncodeRow(rows[i]) + EncodePairs([]);
    assert EncodePairs(single) == EncodeRow(rows[i]);
  }

  /** Row i of an encoded subtable is the i-th row that was encoded. */
  lemma {:induction false} RowAtEncoded(rows: seq<KerningPair>, i: nat)
    requires i < |rows|
    ensures RowAt(EncodePairs(rows), i) == rows[i]
  {
    EncodePairsSplit(rows, i);
    ReadWrittenRow(EncodePairs(rows[..i]), rows[i], EncodePairs(rows[i + 1..]), i);
  }

  // ---------------------------------------------------------------- validation

  /**
   * fk_has_fixed_kerning as written: a missing table, a table no longer than
   * the header, a size that is not a multiple of four, a version other than
   * 1.0, or a subtable whose size differs from the announced pairs times
   * twelve is rejected. The product pairs * 3 is computed in 32-bit unsigned
   * arithmetic, so it wraps before the multiplication by four.
   */
  function HasFixedKerning(table: Option<seq<Byte>>): bool
  {
    match table
    case None => false
    case Some(t) =>
      |t| > HeaderSize
      && |t| % 4 == 0
      && GetU16(t, 0) == 1 && GetU16(t, 2) == 0
      && |t| - HeaderSize == ToU32(NumPairs(t) * 3) * 4
  }

  /** The intended check: the same tests, with the subtable size compared exactly. */
  predicate ValidTable(t: seq<Byte>)
  {
    |t| > HeaderSize
    && |t| % 4 == 0
    && GetU16(t, 0) == 1 && GetU16(t, 2) == 0
    && |t| - HeaderSize == NumPairs(t) * EntrySize
  }

  /** Below the wrap-around the validation as written is the intended one. */
  lemma HasFixedKerningAgrees(t: seq<Byte>)
    requires NumPairs(t) < 0x5555_5556
    ensures HasFixedKerning(Some(t)) <==> ValidTable(t)
  {
  }

  /** A valid table holds every row it announces, and at least one. */
  lemma ValidTableHoldsRows(t: seq<Byte>)
    requires ValidTable(t)
    ensures |Sub(t)| == EntrySize * NumPairs(t)
    ensures NumPairs(t) >= 1
    ensures forall i :: 0 <= i < NumPairs(t) ==> i * EntrySize + EntrySize <= |Sub(t)|
  {
  }

  /** The 16-byte table that announces 0x55555556 pairs and holds eight bytes of rows. */
  function WrappingTable(): seq<Byte>
  {
    EncodeU16(1) + EncodeU16(0) + EncodeU32(0x5555_5556) + [0, 0, 0, 0, 0, 0, 0, 0]
  }

  /** The validation as written accepts a table whose size does not match its pair count. */
  lemma HasFixedKerningAcceptsWrappedCount()
    ensures HasFixedKerning(Some(WrappingTable()))
    ensures !ValidTable(WrappingTable())
    ensures NumPairs(WrappingTable()) == 0x5555_5556
  {
    var t := WrappingTable();
    var h := EncodeU16(1) + EncodeU16(0);
    ReadWrittenU16([], 1, EncodeU16(0) + EncodeU32(0x5555_5556) + [0, 0, 0, 0, 0, 0, 0, 0]);
    assert t == [] + EncodeU16(1) + (EncodeU16(0) + EncodeU32(0x5555_5556) + [0, 0, 0, 0, 0, 0, 0, 0]);
    ReadWrittenU16(EncodeU16(1), 0, EncodeU32(0x5555_5556) + [0, 0, 0, 0, 0, 0, 0, 0]);
    assert t == EncodeU16(1) + EncodeU16(0) + (EncodeU32(0x5555_5556) + [0, 0, 0, 0, 0, 0, 0, 0]);
    ReadWrittenU32(h, 0x5555_5556, [0, 0, 0, 0, 0, 0, 0, 0]);
    assert t == h + EncodeU32(0x5555_5556) + [0, 0, 0, 0, 0, 0, 0, 0];
  }

  // ---------------------------------------------------------------- header

  /**
   * The header fk_write_fixed_kerning_table_header writes: the pair count is
   * first stored in a uint16_t, so only its low 16 bits reach the file.
   */
  function HeaderBytes(numPairs: U32): (bytes: seq<Byte>)
    ensures |bytes| == HeaderSize
  {
    EncodeU16(1) + EncodeU16(0) + EncodeU32(numPairs % 0x1_0000)
  }

  /** The header with the full 32-bit pair count. */
  function IntendedHeaderBytes(numPairs: U32): (bytes: seq<Byte>)
    ensures |bytes| == HeaderSize
  {
    EncodeU16(1) + EncodeU16(0) + EncodeU32(numPairs)
  }

  /** What any header of this layout says when read back. */
  lemma ReadHeader(count: U32, body: seq<Byte>)
    ensures var t := EncodeU16(1) + EncodeU16(0) + EncodeU32(count) + body;
      GetU16(t, 0) == 1 && GetU16(t, 2) == 0 && NumPairs(t) == count
      && (body != [] ==> Sub(t) == body)
  {
    var rest := EncodeU16(0) + EncodeU32(count) + body;
    var t := EncodeU16(1) + EncodeU16(0) + EncodeU32(count) + body;
    assert t == [] + EncodeU16(1) + rest;
    ReadWrittenU16([], 1, rest);
    assert t == EncodeU16(1) + EncodeU16(0) + (EncodeU32(count) + body);
    ReadWrittenU16(EncodeU16(1), 0, EncodeU32(count) + body);
    assert t == (EncodeU16(1) + EncodeU16(0)) + EncodeU32(count) + body;
    ReadWrittenU32(EncodeU16(1) + EncodeU16(0), count, body);
    if body != [] {
      assert t[HeaderSize..] == body;
    }
  }

  /** Read back, the written header announces the pair count modulo 65536. */
  lemma HeaderTruncatesPairCount(numPairs: U32, body: seq<Byte>)
    ensures NumPairs(HeaderBytes(numPairs) + body) == numPairs % 0x1_0000
  {
    ReadHeader(numPairs % 0x1_0000, body);
  }

  /** So a table written with 65536 rows announces none and is rejected. */
  lemma HeaderRejects65536Pairs(rows: seq<KerningPair>)
    requires |rows| == 0x1_0000
    ensures NumPairs(HeaderBytes(|rows|) + EncodePairs(rows)) == 0
    ensures !HasFixedKerning(Some(HeaderBytes(|rows|) + EncodePairs(rows)))
  {
    HeaderTruncatesPairCount(|rows|, EncodePairs(rows));
  }

  /** A table written by the header and entry writers, header as written. */
  function WrittenTable(rows: seq<KerningPair>): seq<Byte>
    requires |rows| < 0x1_0000_0000
  {
    HeaderBytes(|rows|) + EncodePairs(rows)
  }

  /**
   * A header for N pairs followed by N rows, 0 < N < 65536, passes the validation
   * and its rows read back in the order written.
   */
  lemma {:induction false} WrittenTableReadsBack(rows: seq<KerningPair>)
    requires 0 < |rows| < 0x1_0000
    ensures HasFixedKerning(Some(WrittenTable(rows)))
    ensures ValidTable(WrittenTable(rows))
    ensures NumPairs(WrittenTable(rows)) == |rows|
    ensures Rows(WrittenTable(rows)) == rows
  {
    var t := WrittenTable(rows);
    assert t == IntendedHeaderBytes(|rows|) + EncodePairs(rows);
    IntendedTableReadsBack(rows);
    assert |Rows(t)| == NumPairs(t);
    HasFixedKerningAgrees(t);
  }

  /** With the full pair count in the header, every non-empty table of rows reads back. */
  lemma {:induction false} IntendedTableReadsBack(rows: seq<KerningPair>)
    requires 0 < |rows| < 0x1_0000_0000
    ensures ValidTable(IntendedHeaderBytes(|rows|) + EncodePairs(rows))
    ensures Rows(IntendedHeaderBytes(|rows|) + EncodePairs(rows)) == rows
  {
    var t := IntendedHeaderBytes(|rows|) + EncodePairs(rows);
    ReadHeader(|rows|, EncodePairs(rows));
    forall i | 0 <= i < |rows|
      ensures Rows(t)[i] == rows[i]
    {
      RowAtEncoded(rows, i);
    }
  }

  // ---------------------------------------------------------------- writer

  /** The kerning fk_write_fixed_kerning_entry converts: 0 outside the int16_t range. */
  function ClampKerning(kerning: real): (k: real)
    ensures -32768.0 <= k <= 32767.0
    ensures -32768.0 <= kerning <= 32767.0 ==> k == kerning
  {
    if kerning > 32767.0 || kerning < -32768.0 then 0.0 else kerning
  }

  /** The row fk_write_fixed_kerning_entry writes. */
  function EntryRow(first: U32, second: U32, kerning: real): KerningPair
  {
    Pair(first, second, DoubleToFixed(ClampKerning(kerning)))
  }

  /** A FILE opened for writing: the bytes written to it so far. */
  class KerningWriter {
    var written: seq<Byte>

    constructor ()
      ensures written == []
    {
      written := [];
    }

    /** fk_write_u8. */
    method WriteU8(v: Byte)
      modifies this
      ensures written == old(written) + [v]
    {
      written := written + [v];
    }

    /** fk_write_u16: low byte first. */
    method WriteU16(v: U16)
      modifies this
      ensures written == old(written) + EncodeU16(v)
    {
      WriteU8(v % 0x100);
      WriteU8(v / 0x100);
    }

    /** fk_write_u32: high half first. */
    method WriteU32(v: U32)
      modifies this
      ensures written == old(written) + EncodeU32(v)
    {
      WriteU16(v / 0x1_0000);
      WriteU16(v % 0x1_0000);
    }

    /** fk_write_fixed_kerning_table_header. */
    method WriteHeader(numPairs: U32)
      modifies this
      ensures written == old(written) + HeaderBytes(numPairs)
    {
      var pairs: U16 := numPairs % 0x1_0000;
      WriteU16(1);
      WriteU16(0);
      WriteU32(pairs);
    }

    /** fk_write_fixed_kerning_entry. */
    method WriteEntry(first: U32, second: U32, kerning: real)
      modifies this
      ensures written == old(written) + EncodeRow(EntryRow(first, second, kerning))
    {
      var k := kerning;
      if k > 32767.0 || k < -32768.0 {
        k := 0.0;
      }
      var fixed := DoubleToFixed(k);
      WriteU32(first);
      WriteU32(second);
      WriteU32(ToU32(fixed));
    }
  }

  // ---------------------------------------------------------------- lookup

  /** The kerning of the first row with the given key, 0 when there is none. */
  function KerningFor(rows: seq<KerningPair>, key: nat): I32
  {
    if rows == [] then 0
    else if KeyOf(rows[0]) == key then rows[0].kerning
    else KerningFor(rows[1..], key)
  }

  lemma {:induction false} KerningForAbsent(rows: seq<KerningPair>, key: nat)
    requires forall i :: 0 <= i < |rows| ==> KeyOf(rows[i]) != key
    ensures KerningFor(rows, key) == 0
  {
    if rows != [] {
      KerningForAbsent(rows[1..], key);
    }
  }

  /** In sorted rows a key names exactly one row, and its kerning is found. */
  lemma {:induction false} KerningForRow(rows: seq<KerningPair>, i: nat)
    requires StrictlySorted(rows) && i < |rows|
    ensures KerningFor(rows, KeyOf(rows[i])) == rows[i].kerning
  {
    if i > 0 {
      assert KeyOf(rows[0]) < KeyOf(rows[i]);
      KerningForRow(rows[1..], i - 1);
    }
  }

  /**
   * fk_get_fixed_kerning: a binary search over row indices 0..entries (the
   * upper bound starts at the pair count itself, so the row just past the
   * table can be probed; its bounds-checked reads give key 0 and kerning 0).
   * The pair count is stored in an int, so a count of 2^31 or more turns
   * negative and the search does not run.
   */
  method GetFixedKerning(t: seq<Byte>, first: U32, second: U32) returns (kerning: I32)
    ensures |t| <= HeaderSize ==> kerning == 0
    ensures NumPairs(t) >= 0x8000_0000 ==> kerning == 0
    ensures |Sub(t)| == EntrySize * NumPairs(t) && NumPairs(t) < 0x8000_0000 && StrictlySorted(Rows(t))
      ==> kerning == KerningFor(Rows(t), PairKey(first, second))
  {
    var entries := NumPairs(t);
    var sub := Sub(t);
    var lower: int := 0;
    var upper: int := ToI32(entries);
    NegativeAboveHalf(entries);
    var searchKey := PairKey(first, second);
    ghost var rows := Rows(t);
    ghost var ok := |sub| == EntrySize * entries && entries < 0x8000_0000 && StrictlySorted(rows);
    while lower <= upper
      invariant 0 <= lower
      invariant entries >= 0x8000_0000 ==> upper < 0
      invariant ok ==> upper <= entries && Bracketed(rows, lower, upper, searchKey)
      decreases upper - lower + 1
    {
      var middle := lower + (upper - lower) / 2;
      var rowIndex := middle * EntrySize;
      var pairKey := GetU32(sub, rowIndex) * 0x1_0000_0000 + GetU32(sub, rowIndex + 4);
      if ok {
        Probe(t, sub, rows, middle, rowIndex);
      }
      if pairKey == searchKey {
        kerning := ToI32(GetU32(sub, rowIndex + 8));
        if ok {
          if middle < entries {
            KerningForRow(rows, middle);
          } else {
            SearchMissing(rows, lower, upper, searchKey);
          }
        }
        return;
      }
      if pairKey < searchKey {
        if ok {
          SearchRight(rows, lower, upper, middle, searchKey);
        }
        lower := middle + 1;
      } else {
        if ok {
          SearchLeft(rows, lower, upper, middle, searchKey);
        }
        upper := middle - 1;
      }
    }
    if ok {
      SearchMissing(rows, lower, upper, searchKey);
    }
    kerning := 0;
  }

  /** Every row below `lower` has a smaller key than `key`, every row above `upper` a greater one. */
  ghost predicate Bracketed(rows: seq<KerningPair>, lower: int, upper: int, key: nat)
  {
    && (forall i :: 0 <= i < lower && i < |rows| ==> KeyOf(rows[i]) < key)
    && (forall i :: 0 <= i && upper < i < |rows| ==> KeyOf(rows[i]) > key)
  }

  /**
   * The key and kerning the search reads at row `middle` of a table whose
   * subtable holds exactly its rows: those of the row, or zeros for the
   * row just past the end.
   */
  lemma Probe(t: seq<Byte>, sub: seq<Byte>, rows: seq<KerningPair>, middle: int, at: int)
    requires sub == Sub(t) && rows == Rows(t) && at == middle * EntrySize
    requires |sub| == EntrySize * |rows| && 0 <= middle <= |rows|
    ensures middle < |rows| ==>
      GetU32(sub, at) * 0x1_0000_0000 + GetU32(sub, at + 4) == KeyOf(rows[middle]) &&
      ToI32(GetU32(sub, at + 8)) == rows[middle].kerning
    ensures middle == |rows| ==> GetU32(sub, at) == 0 && GetU32(sub, at + 4) == 0 && GetU32(sub, at + 8) == 0
  {
    if middle < |rows| {
      assert rows[middle] == RowAt(sub, middle);
    }
  }

  /** A pair count of 2^31 or more stored in an int is negative. */
  lemma NegativeAboveHalf(x: U32)
    ensures x >= 0x8000_0000 ==> ToI32(x) < 0
    ensures x < 0x8000_0000 ==> ToI32(x) == x
  {
  }

  /** A probed row with a smaller key moves the lower bound past it. */
  lemma SearchRight(rows: seq<KerningPair>, lower: int, upper: int, middle: int, key: nat)
    requires StrictlySorted(rows) && Bracketed(rows, lower, upper, key) && 0 <= lower <= middle
    requires middle < |rows| ==> KeyOf(rows[middle]) < key
    requires middle >= |rows| ==> lower >= |rows|
    ensures Bracketed(rows, middle + 1, upper, key)
  {
    forall i | lower <= i <= middle && i < |rows|
      ensures KeyOf(rows[i]) < key
    {
      if i < middle {
        assert KeyOf(rows[i]) < KeyOf(rows[middle]);
      }
    }
  }

  /** A probed row with a greater key moves the upper bound below it. */
  lemma SearchLeft(rows: seq<KerningPair>, lower: int, upper: int, middle: int, key: nat)
    requires StrictlySorted(rows) && Bracketed(rows, lower, upper, key) && 0 <= middle <= upper
    requires middle < |rows| ==> KeyOf(rows[middle]) > key
    ensures Bracketed(rows, lower, middle - 1, key)
  {
    forall i | middle <= i <= upper && i < |rows|
      ensures KeyOf(rows[i]) > key
    {
      if middle < i {
        assert KeyOf(rows[middle]) < KeyOf(rows[i]);
      }
    }
  }

  /** Once the bounds have crossed, or every row lies below, no row holds the key. */
  lemma SearchMissing(rows: seq<KerningPair>, lower: int, upper: int, key: nat)
    requires Bracketed(rows, lower, upper, key) && (lower > upper || lower >= |rows|)
    ensures KerningFor(rows, key) == 0
  {
    KerningForAbsent(rows, key);
  }

  /** size_t, taken to be 64 bits wide. */
  type U64 = x: int | 0 <= x < 0x1_0000_0000_0000_0000

  const Size64 := 0x1_0000_0000_0000_0000

  /** Arithmetic in size_t: reduction modulo 2^64. */
  function ToU64(x: int): (r: U64)
    ensures (x - r) % Size64 == 0
    ensures 0 <= x < Size64 ==> r == x
  {
    x % Size64
  }

  /**
   * fk_get_fixed_kerning_by_index: the three fields of row `index`, or three
   * zeros when the bounds test fails. The offset index * 12 and the sums
   * built on it are computed in size_t and wrap modulo 2^64. Every offset is
   * a multiple of 4, so the readers' own `index + 3` never wraps.
   */
  function GetFixedKerningByIndex(t: seq<Byte>, index: U64): (row: KerningPair)
    ensures index * EntrySize + EntrySize < Size64 && index * EntrySize + EntrySize > |Sub(t)| ==> row == Pair(0, 0, 0)
    ensures index * EntrySize + EntrySize < Size64 && index * EntrySize + EntrySize <= |Sub(t)| ==> row == RowAt(Sub(t), index)
    ensures ValidTable(t) && index < NumPairs(t) ==> row == Rows(t)[index]
  {
    var sub := Sub(t);
    var at := ToU64(index * EntrySize);
    if ToU64(at + EntrySize) > |sub| then Pair(0, 0, 0)
    else Pair(GetU32(sub, at), GetU32(sub, ToU64(at + 4)), ToI32(GetU32(sub, ToU64(at + 8))))
  }

  /**
   * As written, index 0x1555555555555555 (12 index = 2^64 - 4) passes the
   * bounds test of any subtable of 8 bytes or more: the first glyph is 0,
   * the second glyph is row 0's first glyph and the kerning row 0's second.
   */
  lemma ByIndexWraps(t: seq<Byte>)
    requires 8 <= |Sub(t)| < Size64
    ensures GetFixedKerningByIndex(t, 0x1555_5555_5555_5555)
         == Pair(0, RowAt(Sub(t), 0).first, ToI32(RowAt(Sub(t), 0).second))
  {
  }

  /**
   * What test_read_all checks: in a sorted written table, looking up the
   * glyphs of row i by key gives the kerning that row i holds.
   */
  lemma LookupFindsEveryRow(rows: seq<KerningPair>, i: nat)
    requires 0 < |rows| < 0x1_0000 && StrictlySorted(rows) && i < |rows|
    ensures |Sub(WrittenTable(rows))| == EntrySize * NumPairs(WrittenTable(rows))
    ensures KerningFor(Rows(WrittenTable(rows)), KeyOf(Rows(WrittenTable(rows))[i])) == rows[i].kerning
  {
    WrittenTableReadsBack(rows);
    ValidTableHoldsRows(WrittenTable(rows));
    KerningForRow(rows, i);
  }
}
