/**
 * Bit layout of the packed Connect-Four position (connect_four.go:8-131).
 *
 * A position lives in an 8-byte buffer. Every field instance is described by a
 * `Field`: the index of the byte it starts in and the ordered single-bit masks
 * of its bits. Bits are numbered most-significant first inside a byte
 * (BITMASK_0 is 128), and a field whose masks run past BITMASK_7 continues in
 * the next byte.
 */
module Layout {

  /** The single-bit masks BITMASK_0 .. BITMASK_7 (connect_four.go:8-15). */
  const Bitmask0: bv8 := 128
  const Bitmask1: bv8 := 64
  const Bitmask2: bv8 := 32
  const Bitmask3: bv8 := 16
  const Bitmask4: bv8 := 8
  const Bitmask5: bv8 := 4
  const Bitmask6: bv8 := 2
  const Bitmask7: bv8 := 1

  /** Mask(i) is BITMASK_i: bit i of a byte, counted from the most significant end. */
  function Mask(i: nat): (m: bv8)
    requires i < 8
    ensures m != 0
  {
    if i == 0 then Bitmask0
    else if i == 1 then Bitmask1
    else if i == 2 then Bitmask2
    else if i == 3 then Bitmask3
    else if i == 4 then Bitmask4
    else if i == 5 then Bitmask5
    else if i == 6 then Bitmask6
    else Bitmask7
  }

  /** MAX_HEIGHT: a column holding this many pieces is full (connect_four.go:17). */
  const MaxHeight: nat := 5
  /** MAX_COLUMNS: the largest column index a move accepts (connect_four.go:18). */
  const MaxColumns: nat := 6

  /** Number of column tables, masks per column table, counter width, buffer size. */
  const Columns: nat := 7
  const Rows: nat := 6
  const CounterBits: nat := 3
  const BufferSize: nat := 8

  /** comp_board_bitmask: a starting byte and the ordered masks of one field instance. */
  datatype Field = Field(startByte: nat, masks: seq<bv8>)

  /** COLUMN_0_BITMASK .. COLUMN_6_BITMASK: one mask per row, bottom row first. */
  const ColumnFields: seq<Field> := [
    Field(0, [Bitmask0, Bitmask1, Bitmask2, Bitmask3, Bitmask4, Bitmask5]),
    Field(0, [Bitmask6, Bitmask7, Bitmask0, Bitmask1, Bitmask2, Bitmask3]),
    Field(1, [Bitmask4, Bitmask5, Bitmask6, Bitmask7, Bitmask0, Bitmask1]),
    Field(2, [Bitmask2, Bitmask3, Bitmask4, Bitmask5, Bitmask6, Bitmask7]),
    Field(3, [Bitmask0, Bitmask1, Bitmask2, Bitmask3, Bitmask4, Bitmask5]),
    Field(3, [Bitmask6, Bitmask7, Bitmask0, Bitmask1, Bitmask2, Bitmask3]),
    Field(4, [Bitmask4, Bitmask5, Bitmask6, Bitmask7, Bitmask0, Bitmask1])
  ]

  /**
   * HEIGHT_0_BITMASK .. HEIGHT_6_BITMASK as the packing needs them: three masks per
   * counter, the most significant digit first. The literal table gives HEIGHT_4 the
   * starting byte 7; the packing puts it in byte 6 (see HeightFieldsAsWritten).
   */
  const HeightFields: seq<Field> := [
    Field(5, [Bitmask2, Bitmask3, Bitmask4]),
    Field(5, [Bitmask5, Bitmask6, Bitmask7]),
    Field(6, [Bitmask0, Bitmask1, Bitmask2]),
    Field(6, [Bitmask3, Bitmask4, Bitmask5]),
    Field(6, [Bitmask6, Bitmask7, Bitmask0]),
    Field(7, [Bitmask1, Bitmask2, Bitmask3]),
    Field(7, [Bitmask4, Bitmask5, Bitmask6])
  ]

  /** The height tables exactly as written, with HEIGHT_4 starting in byte 7 (connect_four.go:113-116). */
  const HeightFieldsAsWritten: seq<Field> := HeightFields[4 := Field(7, [Bitmask6, Bitmask7, Bitmask0])]

  /** TURN_BITMASK: the last bit of the buffer (connect_four.go:128-131). */
  const TurnField: Field := Field(7, [Bitmask7])

  /**
   * The byte offset the loops of read_height and apply_turn_in_place hold when
   * they reach entry j of a field: 0 at the start, set to 1 right after an entry
   * equal to BITMASK_7 has been handled (connect_four.go:166-173, 281-289).
   */
  function OffsetAt(masks: seq<bv8>, j: nat): nat
    requires j <= |masks|
  {
    if j == 0 then 0
    else if masks[j - 1] == Bitmask7 then 1
    else OffsetAt(masks, j - 1)
  }

  /** The byte the accessors address for entry j of a field. */
  function ByteOf(f: Field, j: nat): nat
    requires j < |f.masks|
  {
    f.startByte + OffsetAt(f.masks, j)
  }

  /** The offset is 1 exactly past the first BITMASK_7 entry, at index w. */
  lemma {:induction false} OffsetPastWrap(masks: seq<bv8>, w: nat, j: nat)
    requires w < |masks| && masks[w] == Bitmask7 && j <= |masks|
    requires forall i :: 0 <= i < w ==> masks[i] != Bitmask7
    ensures OffsetAt(masks, j) == if j > w then 1 else 0
  {
    if j > 0 && masks[j - 1] != Bitmask7 {
      OffsetPastWrap(masks, w, j - 1);
    }
  }

  /** Without a BITMASK_7 entry before j the offset stays 0. */
  lemma {:induction false} OffsetWithoutWrap(masks: seq<bv8>, j: nat)
    requires j <= |masks|
    requires forall i :: 0 <= i < j ==> masks[i] != Bitmask7
    ensures OffsetAt(masks, j) == 0
  {
    if j > 0 {
      OffsetWithoutWrap(masks, j - 1);
    }
  }

  /** The (byte index, mask) pair a field entry occupies. */
  function SlotOf(f: Field, j: nat): (nat, bv8)
    requires j < |f.masks|
  {
    (ByteOf(f, j), f.masks[j])
  }

  /** The position of bit k of the buffer as a (byte index, mask) pair. */
  function BitSlot(k: nat): (nat, bv8)
  {
    (k / 8, Mask(k % 8))
  }

  /** The arithmetic layout: cell (c, r) is bit 6c+r, counter digit j of column c is bit 42+3c+j, the turn is bit 63. */
  function CellIndex(c: nat, r: nat): nat { Rows * c + r }
  function CounterIndex(c: nat, j: nat): nat { Rows * Columns + CounterBits * c + j }
  const TurnIndex: nat := 63

  /** One field instance: a cell, one digit of a column's height counter, or the turn bit. */
  datatype Instance = Cell(column: nat, row: nat) | Counter(column: nat, digit: nat) | Turn

  predicate ValidInstance(i: Instance)
  {
    match i
    case Cell(c, r) => c < Columns && r < Rows
    case Counter(c, j) => c < Columns && j < CounterBits
    case Turn => true
  }

  /** Height tables with the shape the accessors index into. */
  predicate HeightShaped(heights: seq<Field>)
  {
    |heights| == Columns && forall c :: 0 <= c < Columns ==> |heights[c].masks| == CounterBits
  }

  /** The slot the tables give an instance, for a choice of height tables. */
  function SlotIn(heights: seq<Field>, i: Instance): (nat, bv8)
    requires ValidInstance(i) && HeightShaped(heights)
  {
    match i
    case Cell(c, r) => SlotOf(ColumnFields[c], r)
    case Counter(c, j) => SlotOf(heights[c], j)
    case Turn => SlotOf(TurnField, 0)
  }

  /** The slot an instance occupies under the packing's tables. */
  function Slot(i: Instance): (nat, bv8)
    requires ValidInstance(i)
  {
    SlotIn(HeightFields, i)
  }

  /** The arithmetic bit index of an instance. */
  function Index(i: Instance): nat
    requires ValidInstance(i)
  {
    match i
    case Cell(c, r) => CellIndex(c, r)
    case Counter(c, j) => CounterIndex(c, j)
    case Turn => TurnIndex
  }

  lemma MaskInjective(i: nat, j: nat)
    requires i < 8 && j < 8
    ensures Mask(i) == Mask(j) <==> i == j
  {
  }

  /** Column table c places row r on bit 6c+r. */
  lemma ColumnLayout(c: nat, r: nat)
    requires c < Columns && r < Rows
    ensures SlotOf(ColumnFields[c], r) == BitSlot(CellIndex(c, r))
  {
    var m := ColumnFields[c].masks;
    if c == 0 || c == 3 || c == 4 {
      OffsetWithoutWrap(m, r);
    } else if c == 1 || c == 5 {
      OffsetPastWrap(m, 1, r);
    } else {
      OffsetPastWrap(m, 3, r);
    }
    if c < 2 {
      ColumnSlotsLow(c, r);
    } else if c < 4 {
      ColumnSlotsMiddle(c, r);
    } else {
      ColumnSlotsHigh(c, r);
    }
  }

  /** Columns 0 and 1: the mask of row r is bit 6c+r, and the byte is the one the offset gives. */
  lemma ColumnSlotsLow(c: nat, r: nat)
    requires c < 2 && r < Rows
    requires OffsetAt(ColumnFields[c].masks, r) == if c == 1 && r > 1 then 1 else 0
    ensures SlotOf(ColumnFields[c], r) == BitSlot(CellIndex(c, r))
  {
    if c == 0 {
      if r == 0 {} else if r == 1 {} else if r == 2 {} else if r == 3 {} else if r == 4 {} else {}
    } else {
      if r == 0 {} else if r == 1 {} else if r == 2 {} else if r == 3 {} else if r == 4 {} else {}
    }
  }

  lemma ColumnSlotsMiddle(c: nat, r: nat)
    requires 2 <= c < 4 && r < Rows
    requires OffsetAt(ColumnFields[c].masks, r) == if c == 2 && r > 3 then 1 else 0
    ensures SlotOf(ColumnFields[c], r) == BitSlot(CellIndex(c, r))
  {
    if c == 2 {
      if r == 0 {} else if r == 1 {} else if r == 2 {} else if r == 3 {} else if r == 4 {} else {}
    } else {
      if r == 0 {} else if r == 1 {} else if r == 2 {} else if r == 3 {} else if r == 4 {} else {}
    }
  }

  lemma ColumnSlotsHigh(c: nat, r: nat)
    requires 4 <= c < Columns && r < Rows
    requires OffsetAt(ColumnFields[c].masks, r) == if (c == 5 && r > 1) || (c == 6 && r > 3) then 1 else 0
    ensures SlotOf(ColumnFields[c], r) == BitSlot(CellIndex(c, r))
  {
    if c == 4 {
      if r == 0 {} else if r == 1 {} else if r == 2 {} else if r == 3 {} else if r == 4 {} else {}
    } else if c == 5 {
      if r == 0 {} else if r == 1 {} else if r == 2 {} else if r == 3 {} else if r == 4 {} else {}
    } else {
      if r == 0 {} else if r == 1 {} else if r == 2 {} else if r == 3 {} else if r == 4 {} else {}
    }
  }

  /** Height table c places counter digit j on bit 42+3c+j. */
  lemma CounterLayout(c: nat, j: nat)
    requires c < Columns && j < CounterBits
    ensures SlotOf(HeightFields[c], j) == BitSlot(CounterIndex(c, j))
  {
    var m := HeightFields[c].masks;
    if c == 4 {
      OffsetPastWrap(m, 1, j);
    } else {
      OffsetWithoutWrap(m, j);
    }
    if c == 0 {} else if c == 1 {} else if c == 2 {} else if c == 3 {} else if c == 4 {} else if c == 5 {} else {}
  }

  /** The tables agree with the arithmetic layout. */
  lemma LayoutIsArithmetic(i: Instance)
    requires ValidInstance(i)
    ensures Slot(i) == BitSlot(Index(i))
  {
    match i
    case Cell(c, r) => ColumnLayout(c, r);
    case Counter(c, j) => CounterLayout(c, j);
    case Turn =>
  }

  /** Every field bit lies inside the buffer and no two field instances share a bit. */
  lemma LayoutPacked(i: Instance, i': Instance)
    requires ValidInstance(i) && ValidInstance(i')
    ensures Slot(i).0 < BufferSize
    ensures Slot(i) == Slot(i') ==> i == i'
  {
    LayoutIsArithmetic(i);
    LayoutIsArithmetic(i');
    var k, k' := Index(i), Index(i');
    assert k < 64;
    if Slot(i) == Slot(i') {
      assert k == k' by {
        MaskInjective(k % 8, k' % 8);
      }
      IndexInjective(i, i');
    }
  }

  /** Distinct field instances have distinct bit indices. */
  lemma IndexInjective(i: Instance, i': Instance)
    requires ValidInstance(i) && ValidInstance(i')
    requires Index(i) == Index(i')
    ensures i == i'
  {
  }

  /**
   * The literal HEIGHT_4 table collides: its first digit shares a bit with the
   * last digit of HEIGHT_6, its second digit is the turn bit, and its third digit
   * addresses byte 8, past the end of the buffer.
   */
  lemma LiteralHeight4Collides()
    ensures HeightShaped(HeightFieldsAsWritten)
    ensures SlotIn(HeightFieldsAsWritten, Counter(4, 0)) == SlotIn(HeightFieldsAsWritten, Counter(6, 2))
    ensures SlotIn(HeightFieldsAsWritten, Counter(4, 1)) == SlotIn(HeightFieldsAsWritten, Turn)
    ensures SlotIn(HeightFieldsAsWritten, Counter(4, 2)).0 == BufferSize
  {
    OffsetPastWrap(HeightFieldsAsWritten[4].masks, 1, 0);
    OffsetPastWrap(HeightFieldsAsWritten[4].masks, 1, 1);
    OffsetPastWrap(HeightFieldsAsWritten[4].masks, 1, 2);
    OffsetWithoutWrap(HeightFieldsAsWritten[6].masks, 2);
  }

  /** Mask order follows bit order: a mask earlier in the byte is the larger number. */
  lemma MaskOrder(i: nat, j: nat)
    requires i < 8 && j < 8
    ensures Mask(i) > Mask(j) <==> i < j
  {
  }

  /** The bit after bit k: the same byte and the mask shifted right, or the first bit of the next byte after BITMASK_7. */
  lemma NextBitSlot(k: nat)
    ensures Mask(k % 8) == Bitmask7 <==> k % 8 == 7
    ensures BitSlot(k + 1).0 == BitSlot(k).0 + (if k % 8 == 7 then 1 else 0)
    ensures BitSlot(k + 1).1 == if k % 8 == 7 then Bitmask0 else Mask(k % 8) >> 1
  {
    var i := k % 8;
    assert k == 8 * (k / 8) + i;
    if i == 7 {
      assert k + 1 == 8 * (k / 8 + 1);
    } else {
      assert k + 1 == 8 * (k / 8) + (i + 1);
    }
  }

  /**
   * The wrap rule: stepping through a table, the byte index advances by one
   * right after a BITMASK_7 entry and stays put otherwise, and the next mask is
   * the next bit of the buffer.
   */
  predicate WrapsAtBitmask7(f: Field)
  {
    forall j :: 0 <= j < |f.masks| - 1 ==>
      && ByteOf(f, j + 1) == ByteOf(f, j) + (if f.masks[j] == Bitmask7 then 1 else 0)
      && f.masks[j + 1] == (if f.masks[j] == Bitmask7 then Bitmask0 else f.masks[j] >> 1)
  }

  lemma ColumnWrapRule(c: nat)
    requires c < Columns
    ensures WrapsAtBitmask7(ColumnFields[c])
  {
    forall j | 0 <= j < Rows - 1
      ensures ByteOf(ColumnFields[c], j + 1) == ByteOf(ColumnFields[c], j) + (if ColumnFields[c].masks[j] == Bitmask7 then 1 else 0)
      ensures ColumnFields[c].masks[j + 1] == (if ColumnFields[c].masks[j] == Bitmask7 then Bitmask0 else ColumnFields[c].masks[j] >> 1)
    {
      var f := ColumnFields[c];
      ColumnLayout(c, j);
      ColumnLayout(c, j + 1);
      assert CellIndex(c, j + 1) == CellIndex(c, j) + 1;
      NextBitSlot(CellIndex(c, j));
      assert SlotOf(f, j) == (ByteOf(f, j), f.masks[j]);
      assert SlotOf(f, j + 1) == (ByteOf(f, j + 1), f.masks[j + 1]);
    }
  }

  lemma CounterWrapRule(c: nat)
    requires c < Columns
    ensures WrapsAtBitmask7(HeightFields[c])
  {
    forall j | 0 <= j < CounterBits - 1
      ensures ByteOf(HeightFields[c], j + 1) == ByteOf(HeightFields[c], j) + (if HeightFields[c].masks[j] == Bitmask7 then 1 else 0)
      ensures HeightFields[c].masks[j + 1] == (if HeightFields[c].masks[j] == Bitmask7 then Bitmask0 else HeightFields[c].masks[j] >> 1)
    {
      CounterLayout(c, j);
      CounterLayout(c, j + 1);
      NextBitSlot(CounterIndex(c, j));
    }
  }

  /**
   * check_spot and apply_turn_in_place decide the byte of row h by comparing
   * masks[h] with masks[0]: the test holds exactly when row h lies in the byte
   * after the starting one (connect_four.go:155-156, 295).
   */
  lemma ColumnWrapTest(c: nat, h: nat)
    requires c < Columns && h < Rows
    ensures ColumnFields[c].masks[h] > ColumnFields[c].masks[0] <==> ByteOf(ColumnFields[c], h) == ColumnFields[c].startByte + 1
    ensures ByteOf(ColumnFields[c], h) == ColumnFields[c].startByte || ByteOf(ColumnFields[c], h) == ColumnFields[c].startByte + 1
  {
    ColumnLayout(c, h);
    ColumnLayout(c, 0);
    var k0 := CellIndex(c, 0);
    assert k0 == 8 * (k0 / 8) + k0 % 8;
    assert k0 + h == 8 * (k0 / 8) + (k0 % 8 + h);
    if k0 % 8 + h < 8 {
      assert (k0 + h) / 8 == k0 / 8 && (k0 + h) % 8 == k0 % 8 + h;
    } else {
      assert k0 + h == 8 * (k0 / 8 + 1) + (k0 % 8 + h - 8);
      assert (k0 + h) / 8 == k0 / 8 + 1 && (k0 + h) % 8 == k0 % 8 + h - 8;
    }
    MaskOrder((k0 + h) % 8, k0 % 8);
  }
}
