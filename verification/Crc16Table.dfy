/** The table-driven CRC16 of the wire protocol, in C (constants) and in Rust (generated), against the bit loop. */
module Crc16Table {
  import opened Bytes
  import opened Crc16

  /** The 256 constants of the C source, sixteen to a row. */
  const TABLE: seq<seq<bv16>> := [
    [0x0000, 0x1021, 0x2042, 0x3063, 0x4084, 0x50A5, 0x60C6, 0x70E7,
     0x8108, 0x9129, 0xA14A, 0xB16B, 0xC18C, 0xD1AD, 0xE1CE, 0xF1EF],
    [0x1231, 0x0210, 0x3273, 0x2252, 0x52B5, 0x4294, 0x72F7, 0x62D6,
     0x9339, 0x8318, 0xB37B, 0xA35A, 0xD3BD, 0xC39C, 0xF3FF, 0xE3DE],
    [0x2462, 0x3443, 0x0420, 0x1401, 0x64E6, 0x74C7, 0x44A4, 0x5485,
     0xA56A, 0xB54B, 0x8528, 0x9509, 0xE5EE, 0xF5CF, 0xC5AC, 0xD58D],
    [0x3653, 0x2672, 0x1611, 0x0630, 0x76D7, 0x66F6, 0x5695, 0x46B4,
     0xB75B, 0xA77A, 0x9719, 0x8738, 0xF7DF, 0xE7FE, 0xD79D, 0xC7BC],
    [0x48C4, 0x58E5, 0x6886, 0x78A7, 0x0840, 0x1861, 0x2802, 0x3823,
     0xC9CC, 0xD9ED, 0xE98E, 0xF9AF, 0x8948, 0x9969, 0xA90A, 0xB92B],
    [0x5AF5, 0x4AD4, 0x7AB7, 0x6A96, 0x1A71, 0x0A50, 0x3A33, 0x2A12,
     0xDBFD, 0xCBDC, 0xFBBF, 0xEB9E, 0x9B79, 0x8B58, 0xBB3B, 0xAB1A],
    [0x6CA6, 0x7C87, 0x4CE4, 0x5CC5, 0x2C22, 0x3C03, 0x0C60, 0x1C41,
     0xEDAE, 0xFD8F, 0xCDEC, 0xDDCD, 0xAD2A, 0xBD0B, 0x8D68, 0x9D49],
    [0x7E97, 0x6EB6, 0x5ED5, 0x4EF4, 0x3E13, 0x2E32, 0x1E51, 0x0E70,
     0xFF9F, 0xEFBE, 0xDFDD, 0xCFFC, 0xBF1B, 0xAF3A, 0x9F59, 0x8F78],
    [0x9188, 0x81A9, 0xB1CA, 0xA1EB, 0xD10C, 0xC12D, 0xF14E, 0xE16F,
     0x1080, 0x00A1, 0x30C2, 0x20E3, 0x5004, 0x4025, 0x7046, 0x6067],
    [0x83B9, 0x9398, 0xA3FB, 0xB3DA, 0xC33D, 0xD31C, 0xE37F, 0xF35E,
     0x02B1, 0x1290, 0x22F3, 0x32D2, 0x4235, 0x5214, 0x6277, 0x7256],
    [0xB5EA, 0xA5CB, 0x95A8, 0x8589, 0xF56E, 0xE54F, 0xD52C, 0xC50D,
     0x34E2, 0x24C3, 0x14A0, 0x0481, 0x7466, 0x6447, 0x5424, 0x4405],
    [0xA7DB, 0xB7FA, 0x8799, 0x97B8, 0xE75F, 0xF77E, 0xC71D, 0xD73C,
     0x26D3, 0x36F2, 0x0691, 0x16B0, 0x6657, 0x7676, 0x4615, 0x5634],
    [0xD94C, 0xC96D, 0xF90E, 0xE92F, 0x99C8, 0x89E9, 0xB98A, 0xA9AB,
     0x5844, 0x4865, 0x7806, 0x6827, 0x18C0, 0x08E1, 0x3882, 0x28A3],
    [0xCB7D, 0xDB5C, 0xEB3F, 0xFB1E, 0x8BF9, 0x9BD8, 0xABBB, 0xBB9A,
     0x4A75, 0x5A54, 0x6A37, 0x7A16, 0x0AF1, 0x1AD0, 0x2AB3, 0x3A92],
    [0xFD2E, 0xED0F, 0xDD6C, 0xCD4D, 0xBDAA, 0xAD8B, 0x9DE8, 0x8DC9,
     0x7C26, 0x6C07, 0x5C64, 0x4C45, 0x3CA2, 0x2C83, 0x1CE0, 0x0CC1],
    [0xEF1F, 0xFF3E, 0xCF5D, 0xDF7C, 0xAF9B, 0xBFBA, 0x8FD9, 0x9FF8,
     0x6E17, 0x7E36, 0x4E55, 0x5E74, 0x2E93, 0x3EB2, 0x0ED1, 0x1EF0]
  ]

  function Cell(head: bv16, low: bv16): bv16 {
    head ^ low
  }

  function Row(head: bv16): (r: seq<bv16>)
    ensures |r| == 16
  {
    [Cell(head, 0x0000), Cell(head, 0x1021), Cell(head, 0x2042), Cell(head, 0x3063),
     Cell(head, 0x4084), Cell(head, 0x50A5), Cell(head, 0x60C6), Cell(head, 0x70E7),
     Cell(head, 0x8108), Cell(head, 0x9129), Cell(head, 0xA14A), Cell(head, 0xB16B),
     Cell(head, 0xC18C), Cell(head, 0xD1AD), Cell(head, 0xE1CE), Cell(head, 0xF1EF)]
  }

  lemma Shape(k: nat)
    requires k < 16
    ensures |TABLE| == 16 && |TABLE[k]| == 16 && TABLE[k] == Row(TABLE[k][0])
  {
  }

  lemma Column(head: bv16, k: nat)
    requires k < 16
    ensures |TABLE[0]| == 16 && Row(head)[k] == Cell(head, TABLE[0][k])
  {
  }

  /** First entry of a row: eight shifts of the row number in the top nibble. */
  function Head(h: bv16): bv16 {
    h ^ (h << 4) ^ (h << 5) ^ (h << 9) ^ (h << 12)
  }

  lemma HeadAt(h: bv16)
    requires h < 16
    ensures |TABLE| == 16 && |TABLE[h as int]| == 16 && TABLE[h as int][0] == Head(h)
  {
  }

  lemma ColumnAt(l: bv16)
    requires l < 16
    ensures |TABLE[0]| == 16 && TABLE[0][l as int] == Taps(l)
  {
  }

  lemma HeadShifts(h: bv16)
    requires h < 16
    ensures Shifts(h << 12, 8) == Head(h)
  {
    EightShifts(h << 12);
  }

  lemma ColumnShifts(l: bv16)
    requires l < 16
    ensures Shifts(l << 8, 8) == Taps(l)
  {
    EightShifts(l << 8);
  }

  lemma Nibbles(x: bv16)
    requires x < 0x100
    ensures x >> 4 < 16 && x & 0xF < 16
    ensures Sum(x << 8, (x >> 4) << 12, (x & 0xF) << 8)
  {
  }

  lemma TableInt(x: bv16)
    requires x < 16
    ensures 0 <= x as int < 16
  {
  }

  function Entry(x: bv16): bv16
    requires x < 0x100
  {
    Nibbles(x);
    TableInt(x >> 4);
    TableInt(x & 0xF);
    Shape((x >> 4) as int);
    TABLE[(x >> 4) as int][(x & 0xF) as int]
  }

  /** Every constant of the table is eight shifts of its index. */
  lemma EntryIsShifts(x: bv16)
    requires x < 0x100
    ensures Entry(x) == Shifts(x << 8, 8)
  {
    var h, l := x >> 4, x & 0xF;
    Nibbles(x);
    EntrySplit(x, h, l);
    HeadShifts(h);
    ColumnShifts(l);
    ShiftsSum(x << 8, h << 12, l << 8, 8);
  }

  lemma EntrySplit(x: bv16, h: bv16, l: bv16)
    requires x < 0x100 && h == x >> 4 && l == x & 0xF
    ensures Entry(x) == Cell(Head(h), Taps(l))
  {
    Nibbles(x);
    TableInt(h);
    TableInt(l);
    Shape(h as int);
    Column(TABLE[h as int][0], l as int);
    HeadAt(h);
    ColumnAt(l);
  }

  /** The byte that selects the table entry. */
  function Index(c: bv16, b: Byte): (x: bv16)
    ensures x < 0x100
  {
    ((c >> 8) ^ Bits(b) as bv16) & 0xFF
  }

  lemma IndexSplits(c: bv16, b: Byte)
    ensures Sum(c ^ Top(b), Index(c, b) << 8, c & 0xFF)
  {
  }

  lemma LowByteShifts(c: bv16)
    ensures Shifts(c & 0xFF, 8) == c << 8
  {
    EightShifts(c & 0xFF);
  }

  function Combine(c: bv16, entry: bv16): bv16 {
    (c << 8) ^ entry
  }

  lemma CombineSum(c: bv16, s: bv16, e: bv16, low: bv16)
    requires Sum(s, e, low) && low == c << 8
    ensures s == Combine(c, e)
  {
  }

  lemma SplitAbsorb(c: bv16, t: bv16, x: bv16)
    requires Sum(c ^ t, x << 8, c & 0xFF)
    ensures Enter(c, t) == Combine(c, Shifts(x << 8, 8))
  {
    ShiftsSum(c ^ t, x << 8, c & 0xFF, 8);
    LowByteShifts(c);
    CombineSum(c, Enter(c, t), Shifts(x << 8, 8), Shifts(c & 0xFF, 8));
  }

  /** One table look-up does the work of eight shifts. */
  lemma LookupAbsorbs(c: bv16, b: Byte)
    ensures Absorb(c, b) == Combine(c, Shifts(Index(c, b) << 8, 8))
  {
    IndexSplits(c, b);
    SplitAbsorb(c, Top(b), Index(c, b));
  }

  /** The same, with the entry taken from the C constants. */
  lemma ConstantsAbsorb(c: bv16, b: Byte)
    ensures Absorb(c, b) == Combine(c, Entry(Index(c, b)))
  {
    LookupAbsorbs(c, b);
    EntryIsShifts(Index(c, b));
  }

  /** The C function. The empty message is a special case: it yields 0, not the initial value. */
  method CcittC(data: seq<Byte>) returns (crc: U16)
    ensures crc == if |data| == 0 then 0 else Crc(data)
  {
    if |data| == 0 {
      return 0;
    }
    var c: bv16 := 0xFFFF;
    for i := 0 to |data|
      invariant c == Fold(INIT, data[..i])
    {
      assert data[..i + 1][..i] == data[..i];
      ConstantsAbsorb(c, data[i]);
      c := Combine(c, Entry(Index(c, data[i])));
    }
    assert data[..|data|] == data;
    crc := c as int;
  }

  function EightOf(i: nat): bv16
    requires i < 256
  {
    Shifts(i as bv16 << 8, 8)
  }

  predicate Generated(table: seq<bv16>) {
    |table| == 256 && forall i :: 0 <= i < 256 ==> table[i] == EightOf(i)
  }

  /** The table that Rust builds at compile time. */
  method GenerateTable() returns (table: array<bv16>)
    ensures Generated(table[..])
  {
    table := new bv16[256];
    for i := 0 to 256
      invariant forall k :: 0 <= k < i ==> table[k] == EightOf(k)
    {
      table[i] := EightSteps(i as bv16 << 8);
    }
  }

  lemma IndexInt(x: bv16)
    requires x < 0x100
    ensures 0 <= x as int < 256 && (x as int) as bv16 == x
  {
  }

  /** The generated table holds the C constants. */
  lemma TablesAgree(table: seq<bv16>, x: bv16)
    requires Generated(table) && x < 0x100
    ensures 0 <= x as int < 256 && table[x as int] == Entry(x)
  {
    IndexInt(x);
    EntryIsShifts(x);
    assert table[x as int] == EightOf(x as int);
  }

  lemma GeneratedAbsorbs(table: seq<bv16>, c: bv16, b: Byte)
    requires Generated(table)
    ensures var x := Index(c, b) as int; 0 <= x < 256 && Absorb(c, b) == Combine(c, table[x])
  {
    IndexInt(Index(c, b));
    LookupAbsorbs(c, b);
    assert table[Index(c, b) as int] == EightOf(Index(c, b) as int);
  }

  /** The Rust function, which has no special case. */
  method CcittRust(table: seq<bv16>, data: seq<Byte>) returns (crc: U16)
    requires Generated(table)
    ensures crc == Crc(data)
  {
    var c: bv16 := 0xFFFF;
    for i := 0 to |data|
      invariant c == Fold(INIT, data[..i])
    {
      assert data[..i + 1][..i] == data[..i];
      GeneratedAbsorbs(table, c, data[i]);
      c := Combine(c, table[Index(c, data[i]) as int]);
    }
    assert data[..|data|] == data;
    crc := c as int;
  }
}
