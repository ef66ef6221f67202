/**
 * The packed board and its accessors (connect_four.go:136-175, 292).
 *
 * A board is an 8-byte buffer. `Bit` is the arithmetic reference reading of
 * it: bit k is mask `Mask(k % 8)` of byte `k / 8`. The accessors below read
 * through the layout tables, the way the source does, and their contracts
 * state what they return in terms of `Bit`.
 */
module Board {
  import opened Layout

  /** compressed_board.raw: always eight bytes. */
  type Buffer = b: seq<bv8> | |b| == BufferSize witness [0, 0, 0, 0, 0, 0, 0, 0]

  /** The errors the source reports, one constructor per message. */
  datatype Error =
    | InvalidColumn            // "Invalid input. There is no column ..."
    | ColumnFull               // "Illegal Move. Column ... is already full."
    | SpotAboveHeight          // "invalid spot: Spot exists above highest piece in column"
    | SpotOutOfHeight          // "spot is out of height"
    | WalkFailed(cause: Error) // check_diags_from_end wrapping a check_spot error

  datatype Result<T> = Ok(value: T) | Err(error: Error)

  const BufferBits: nat := 64

  /** Bit k of the buffer, numbered most significant first inside each byte. */
  function Bit(b: Buffer, k: nat): bool
    requires k < BufferBits
  {
    b[k / 8] & Mask(k % 8) != 0
  }

  function Digit(x: bool): nat
  {
    if x then 1 else 0
  }

  /** The number held by column c's three counter bits, the first bit weighing 4. */
  function CounterValue(b: Buffer, c: nat): nat
    requires c < Columns
  {
    4 * Digit(Bit(b, CounterIndex(c, 0))) + 2 * Digit(Bit(b, CounterIndex(c, 1))) + Digit(Bit(b, CounterIndex(c, 2)))
  }

  /** Whether the cell bit of (c, r) is set. */
  function CellBit(b: Buffer, c: nat, r: nat): bool
    requires c < Columns && r < Rows
  {
    Bit(b, CellIndex(c, r))
  }

  /** The turn bit. */
  function TurnBitOf(b: Buffer): bool
  {
    Bit(b, TurnIndex)
  }

  // ---------------------------------------------------------------------------
  // Single-bit updates and what they do to `Bit`

  lemma MaskBits(x: bv8, i: nat, j: nat)
    requires i < 8 && j < 8
    ensures (x ^ Mask(i)) & Mask(j) != 0 <==> (if i == j then x & Mask(j) == 0 else x & Mask(j) != 0)
    ensures (x | Mask(i)) & Mask(j) != 0 <==> (i == j || x & Mask(j) != 0)
  {
  }

  /** A byte masked with a single-bit mask is 0 or that mask. */
  lemma SingleBit(x: bv8, i: nat)
    requires i < 8
    ensures x & Mask(i) == 0 || x & Mask(i) == Mask(i)
  {
  }

  lemma DivModUnique(k: nat, k': nat)
    requires k / 8 == k' / 8 && k % 8 == k' % 8
    ensures k == k'
  {
    assert k == 8 * (k / 8) + k % 8;
    assert k' == 8 * (k' / 8) + k' % 8;
  }

  /** Replacing byte i changes only the bits of byte i. */
  lemma BitOfUpdate(b: Buffer, i: nat, x: bv8, k: nat)
    requires i < BufferSize && k < BufferBits
    ensures Bit(b[i := x], k) == if k / 8 == i then x & Mask(k % 8) != 0 else Bit(b, k)
  {
  }

  /** Buffer `b` with bit k toggled. */
  function FlipBit(b: Buffer, k: nat): (b': Buffer)
    requires k < BufferBits
    ensures forall k' :: 0 <= k' < BufferBits ==> Bit(b', k') == if k' == k then !Bit(b, k) else Bit(b, k')
  {
    var i := k / 8;
    var x := b[i] ^ Mask(k % 8);
    forall k' | 0 <= k' < BufferBits
      ensures Bit(b[i := x], k') == if k' == k then !Bit(b, k) else Bit(b, k')
    {
      FlipBitAt(b, k, k');
    }
    b[i := x]
  }

  lemma FlipBitAt(b: Buffer, k: nat, k': nat)
    requires k < BufferBits && k' < BufferBits
    ensures var i := k / 8;
            Bit(b[i := b[i] ^ Mask(k % 8)], k') == if k' == k then !Bit(b, k) else Bit(b, k')
  {
    var i := k / 8;
    BitOfUpdate(b, i, b[i] ^ Mask(k % 8), k');
    if k' / 8 == i {
      MaskBits(b[i], k % 8, k' % 8);
      if k' % 8 == k % 8 {
        DivModUnique(k, k');
      } else {
        assert k' != k;
      }
    } else {
      assert k' != k;
    }
  }

  /** Buffer `b` with bit k set to v. */
  function WriteBit(b: Buffer, k: nat, v: bool): (b': Buffer)
    requires k < BufferBits
    ensures forall k' :: 0 <= k' < BufferBits ==> Bit(b', k') == if k' == k then v else Bit(b, k')
  {
    if Bit(b, k) == v then b else FlipBit(b, k)
  }

  /** Two buffers that agree on every bit are equal. */
  lemma BitsDetermineBuffer(b: Buffer, b': Buffer)
    requires forall k :: 0 <= k < BufferBits ==> Bit(b, k) == Bit(b', k)
    ensures b == b'
  {
    forall i | 0 <= i < BufferSize
      ensures b[i] == b'[i]
    {
      forall j | 0 <= j < 8
        ensures b[i] & Mask(j) == b'[i] & Mask(j)
      {
        assert (8 * i + j) / 8 == i && (8 * i + j) % 8 == j;
        assert Bit(b, 8 * i + j) == Bit(b', 8 * i + j);
      }
      ByteFromMasks(b[i], b'[i]);
    }
  }

  lemma ByteFromMasks(x: bv8, y: bv8)
    requires forall j :: 0 <= j < 8 ==> x & Mask(j) == y & Mask(j)
    ensures x == y
  {
    assert x & Mask(0) == y & Mask(0);
    assert x & Mask(1) == y & Mask(1);
    assert x & Mask(2) == y & Mask(2);
    assert x & Mask(3) == y & Mask(3);
    assert x & Mask(4) == y & Mask(4);
    assert x & Mask(5) == y & Mask(5);
    assert x & Mask(6) == y & Mask(6);
    assert x & Mask(7) == y & Mask(7);
  }

  // ---------------------------------------------------------------------------
  // Reading through the layout tables

  /** Entry j of field f as the accessors read it: mask `masks[j]` of byte `ByteOf(f, j)`. */
  function FieldBit(b: Buffer, f: Field, j: nat): bool
    requires j < |f.masks| && ByteOf(f, j) < BufferSize
  {
    b[ByteOf(f, j)] & f.masks[j] != 0
  }

  /** A table entry that sits on bit k reads bit k. */
  lemma FieldBitIsBit(b: Buffer, f: Field, j: nat, k: nat)
    requires j < |f.masks| && k < BufferBits && SlotOf(f, j) == BitSlot(k)
    ensures ByteOf(f, j) < BufferSize && FieldBit(b, f, j) == Bit(b, k)
  {
  }

  /**
   * read_height with `|` for the `&` of line 168: the three counter entries,
   * read through HEIGHT_BITMASKS[c], are the binary digits of the height, mask
   * index 0 weighing 4 (connect_four.go:164-175).
   */
  function ReadHeight(b: Buffer, c: nat): (h: nat)
    requires c < Columns
    ensures h == CounterValue(b, c)
    ensures h < 8
  {
    var f := HeightFields[c];
    CounterLayout(c, 0);
    CounterLayout(c, 1);
    CounterLayout(c, 2);
    FieldBitIsBit(b, f, 0, CounterIndex(c, 0));
    FieldBitIsBit(b, f, 1, CounterIndex(c, 1));
    FieldBitIsBit(b, f, 2, CounterIndex(c, 2));
    4 * Digit(FieldBit(b, f, 0)) + 2 * Digit(FieldBit(b, f, 1)) + Digit(FieldBit(b, f, 2))
  }

  /**
   * read_height as written: `height = height & (1 << (2 - mask_ind))` starting
   * from 0 (connect_four.go:164-175, the slip at line 168).
   */
  function ReadHeightAsWritten(b: Buffer, c: nat): bv8
    requires c < Columns
  {
    var f := HeightFields[c];
    CounterLayout(c, 0);
    CounterLayout(c, 1);
    CounterLayout(c, 2);
    var h0: bv8 := 0;
    var h1 := if FieldBit(b, f, 0) then h0 & 4 else h0;
    var h2 := if FieldBit(b, f, 1) then h1 & 2 else h1;
    if FieldBit(b, f, 2) then h2 & 1 else h2
  }

  /** The `&` of line 168 loses every counter: the as-written read is 0 on every board, so it differs whenever a piece was played. */
  lemma ReadHeightAsWrittenLosesCounter(b: Buffer, c: nat)
    requires c < Columns
    ensures ReadHeightAsWritten(b, c) == 0
    ensures ReadHeight(b, c) != 0 ==> ReadHeight(b, c) != ReadHeightAsWritten(b, c) as nat
  {
  }

  /**
   * check_spot with line 159 made the else branch of line 155: the cell's value
   * is read from byte start_byte+1 exactly when masks[h] > masks[0]. It fails
   * when h lies above the column's height; h equal to the height is accepted
   * (connect_four.go:150-162).
   */
  function CheckSpot(b: Buffer, c: nat, h: nat): (r: Result<bv8>)
    requires c < Columns
    requires ReadHeight(b, c) < h || h < Rows
    ensures r.Err? <==> ReadHeight(b, c) < h
    ensures r.Err? ==> r.error == SpotAboveHeight
    ensures r.Ok? ==> r.value == 0 || r.value == ColumnFields[c].masks[h]
    ensures r.Ok? ==> (r.value != 0 <==> CellBit(b, c, h))
  {
    if ReadHeight(b, c) < h then Err(SpotAboveHeight)
    else
      var i := WrapByte(c, h);
      ColumnLayout(c, h);
      SingleBit(b[i], CellIndex(c, h) % 8);
      Ok(b[i] & ColumnFields[c].masks[h])
  }

  /**
   * The byte check_spot and apply_turn_in_place pick for row h of column c:
   * start_byte+1 when masks[h] > masks[0], start_byte otherwise. It is the byte
   * holding bit 6c+h.
   */
  function WrapByte(c: nat, h: nat): (i: nat)
    requires c < Columns && h < Rows
    ensures i == ByteOf(ColumnFields[c], h) && i == CellIndex(c, h) / 8
  {
    ColumnLayout(c, h);
    ColumnWrapTest(c, h);
    var f := ColumnFields[c];
    if f.masks[h] > f.masks[0] then f.startByte + 1 else f.startByte
  }

  /** check_spot as written: line 159 always reads byte start_byte, overwriting the wrapped read of line 156. */
  function CheckSpotAsWritten(b: Buffer, c: nat, h: nat): Result<bv8>
    requires c < Columns
    requires ReadHeight(b, c) < h || h < Rows
  {
    if ReadHeight(b, c) < h then Err(SpotAboveHeight)
    else
      var f := ColumnFields[c];
      ColumnLayout(c, 0);
      Ok(b[f.startByte] & f.masks[h])
  }

  /**
   * Column 1 at height 3 with only its row-2 piece set: row 2 lives in byte 1,
   * but the as-written read looks at byte 0 and sees the empty cell (0, 0).
   */
  lemma CheckSpotAsWrittenMisreads()
    ensures CheckSpot([0, 128, 0, 0, 0, 3, 0, 0], 1, 2) == Ok(128)
    ensures CheckSpotAsWritten([0, 128, 0, 0, 0, 3, 0, 0], 1, 2) == Ok(0)
  {
    var b: Buffer := [0, 128, 0, 0, 0, 3, 0, 0];
    assert ReadHeight(b, 1) == 3;
  }

  /** The turn bit as apply_turn_in_place reads it through TURN_BITMASK (connect_four.go:292). */
  function ReadTurn(b: Buffer): (t: bool)
    ensures t == TurnBitOf(b)
  {
    b[TurnField.startByte] & TurnField.masks[0] != 0
  }

  // ---------------------------------------------------------------------------
  // Encoding a counter

  /** Binary digit j of v, most significant of three first. */
  function CounterDigit(v: nat, j: nat): bool
    requires j < CounterBits
  {
    if j == 0 then (v / 4) % 2 == 1 else if j == 1 then (v / 2) % 2 == 1 else v % 2 == 1
  }

  /** Buffer `b` with column c's counter holding v. */
  function WriteCounter(b: Buffer, c: nat, v: nat): (b': Buffer)
    requires c < Columns
  {
    var b1 := WriteBit(b, CounterIndex(c, 0), CounterDigit(v, 0));
    var b2 := WriteBit(b1, CounterIndex(c, 1), CounterDigit(v, 1));
    WriteBit(b2, CounterIndex(c, 2), CounterDigit(v, 2))
  }

  /** A counter written with v < 8 reads back as v, and no other bit changes. */
  lemma HeightRoundTrip(b: Buffer, c: nat, v: nat)
    requires c < Columns && v < 8
    ensures ReadHeight(WriteCounter(b, c, v), c) == v
    ensures forall k :: 0 <= k < BufferBits && k != CounterIndex(c, 0) && k != CounterIndex(c, 1) && k != CounterIndex(c, 2) ==>
              Bit(WriteCounter(b, c, v), k) == Bit(b, k)
  {
    var k0, k1, k2 := CounterIndex(c, 0), CounterIndex(c, 1), CounterIndex(c, 2);
    var b1 := WriteBit(b, k0, CounterDigit(v, 0));
    var b2 := WriteBit(b1, k1, CounterDigit(v, 1));
    var b3 := WriteBit(b2, k2, CounterDigit(v, 2));
    assert Bit(b1, k0) == CounterDigit(v, 0);
    assert Bit(b2, k0) == CounterDigit(v, 0) && Bit(b2, k1) == CounterDigit(v, 1);
    assert Bit(b3, k0) == CounterDigit(v, 0) && Bit(b3, k1) == CounterDigit(v, 1) && Bit(b3, k2) == CounterDigit(v, 2);
    assert CounterValue(b3, c) == v;
  }
}
