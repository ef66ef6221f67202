/**
 * apply_turn_in_place and apply_turn_copy (connect_four.go:264-310): validate
 * the column, refuse a full column, add one to the column's counter by
 * flipping exactly the bits of h ^ (h + 1), set the cell at the old height
 * only when the turn bit is 1, and flip the turn bit.
 */
module Moves {
  import opened Layout
  import opened Board
  import opened Decoded

  // ---------------------------------------------------------------------------
  // Adding one to a counter

  /**
   * The flip vector of connect_four.go:278-279: with diff = h ^ (h + 1), the
   * counter digits (most significant first) to toggle.
   */
  function HeightFlips(h: nat): (flips: seq<bool>)
    requires h + 1 < 8
    ensures |flips| == CounterBits
  {
    var diff := (h as bv8) ^ ((h + 1) as bv8);
    [diff > 3, diff % 4 > 1, diff % 2 != 0]
  }

  /** The flip vector toggles exactly the digits in which h and h + 1 differ. */
  lemma HeightFlipsChangeDigits(h: nat, j: nat)
    requires h + 1 < 8 && j < CounterBits
    ensures HeightFlips(h)[j] <==> CounterDigit(h, j) != CounterDigit(h + 1, j)
  {
    if h == 0 {} else if h == 1 {} else if h == 2 {} else if h == 3 {}
    else if h == 4 {} else if h == 5 {} else {}
  }

  /** The same, for a counter given by its three digits. */
  lemma HeightFlipsOfDigits(h: nat, x0: bool, x1: bool, x2: bool)
    requires h == 4 * Digit(x0) + 2 * Digit(x1) + Digit(x2) && h + 1 < 8
    ensures HeightFlips(h) == [x0 != CounterDigit(h + 1, 0), x1 != CounterDigit(h + 1, 1), x2 != CounterDigit(h + 1, 2)]
  {
    ValueDigits(x0, x1, x2);
    HeightFlipsChangeDigits(h, 0);
    HeightFlipsChangeDigits(h, 1);
    HeightFlipsChangeDigits(h, 2);
  }

  /** Table entry j of f toggled when `flip` holds (the body of the loop at connect_four.go:281-289). */
  function FlipEntry(b: Buffer, f: Field, j: nat, flip: bool): Buffer
    requires j < |f.masks| && ByteOf(f, j) < BufferSize
  {
    if flip then b[ByteOf(f, j) := b[ByteOf(f, j)] ^ f.masks[j]] else b
  }

  /** Toggling entry j of HEIGHT_BITMASKS[c] toggles counter bit j of column c. */
  lemma FlipEntryIsFlipBit(b: Buffer, c: nat, j: nat)
    requires c < Columns && j < CounterBits
    ensures ByteOf(HeightFields[c], j) < BufferSize
    ensures FlipEntry(b, HeightFields[c], j, true) == FlipBit(b, CounterIndex(c, j))
  {
    CounterLayout(c, j);
  }

  /**
   * The counter update of connect_four.go:278-289 for a column read as height
   * h: counter digit j is toggled when flip j of h holds, and no other bit of
   * the buffer changes.
   */
  function IncrementHeight(b: Buffer, c: nat, h: nat): (b': Buffer)
    requires c < Columns && h + 1 < 8
    ensures forall j :: 0 <= j < CounterBits ==>
              Bit(b', CounterIndex(c, j)) == (Bit(b, CounterIndex(c, j)) != HeightFlips(h)[j])
    ensures forall k :: 0 <= k < BufferBits && !InCounter(c, k) ==> Bit(b', k) == Bit(b, k)
  {
    var f := HeightFields[c];
    var flips := HeightFlips(h);
    FlipEntryIsFlipBit(b, c, 0);
    var b1 := FlipEntry(b, f, 0, flips[0]);
    FlipEntryIsFlipBit(b1, c, 1);
    var b2 := FlipEntry(b1, f, 1, flips[1]);
    FlipEntryIsFlipBit(b2, c, 2);
    var b3 := FlipEntry(b2, f, 2, flips[2]);
    b3
  }

  /** Bit k is one of column c's counter bits. */
  predicate InCounter(c: nat, k: nat)
  {
    k == CounterIndex(c, 0) || k == CounterIndex(c, 1) || k == CounterIndex(c, 2)
  }

  /**
   * Toggling counter entry j exactly when its bit differs from v writes v
   * into that bit.
   */
  lemma FlipEntryWritesDigit(b: Buffer, c: nat, j: nat, v: bool, flip: bool)
    requires c < Columns && j < CounterBits
    requires flip <==> Bit(b, CounterIndex(c, j)) != v
    ensures ByteOf(HeightFields[c], j) < BufferSize
    ensures FlipEntry(b, HeightFields[c], j, flip) == WriteBit(b, CounterIndex(c, j), v)
  {
    FlipEntryIsFlipBit(b, c, j);
  }

  /**
   * The flip vector applied to a counter that holds h < 7 gives the buffer
   * that writing h + 1 into the counter gives.
   */
  lemma IncrementIsWriteCounter(b: Buffer, c: nat)
    requires c < Columns && ReadHeight(b, c) + 1 < 8
    ensures IncrementHeight(b, c, ReadHeight(b, c)) == WriteCounter(b, c, ReadHeight(b, c) + 1)
  {
    var h := ReadHeight(b, c);
    var flips := HeightFlips(h);
    var k0, k1, k2 := CounterIndex(c, 0), CounterIndex(c, 1), CounterIndex(c, 2);
    var x0, x1, x2 := Bit(b, k0), Bit(b, k1), Bit(b, k2);
    var v0, v1, v2 := CounterDigit(h + 1, 0), CounterDigit(h + 1, 1), CounterDigit(h + 1, 2);
    HeightFlipsOfDigits(h, x0, x1, x2);
    assert flips[0] == (x0 != v0) && flips[1] == (x1 != v1) && flips[2] == (x2 != v2);
    FlipEntryWritesDigit(b, c, 0, v0, flips[0]);
    var b1 := WriteBit(b, k0, v0);
    assert Bit(b1, k1) == Bit(b, k1) && Bit(b1, k2) == Bit(b, k2);
    FlipEntryWritesDigit(b1, c, 1, v1, flips[1]);
    var b2 := WriteBit(b1, k1, v1);
    assert Bit(b2, k2) == Bit(b, k2);
    FlipEntryWritesDigit(b2, c, 2, v2, flips[2]);
  }

  /** Adding one through the flip vector: a counter that holds h < 7 holds h + 1 afterwards. */
  lemma HeightIncrement(b: Buffer, c: nat)
    requires c < Columns && ReadHeight(b, c) + 1 < 8
    ensures ReadHeight(IncrementHeight(b, c, ReadHeight(b, c)), c) == ReadHeight(b, c) + 1
  {
    IncrementIsWriteCounter(b, c);
    HeightRoundTrip(b, c, ReadHeight(b, c) + 1);
  }

  // ---------------------------------------------------------------------------
  // Placing a piece and passing the turn

  /**
   * The piece write of connect_four.go:294-299 with `|` for `&` and the byte
   * choice of check_spot: cell (c, h) is set and no other bit changes.
   */
  function PlacePiece(b: Buffer, c: nat, h: nat): (b': Buffer)
    requires c < Columns && h < Rows
    ensures forall k :: 0 <= k < BufferBits ==> Bit(b', k) == (k == CellIndex(c, h) || Bit(b, k))
  {
    var i := WrapByte(c, h);
    var n := CellIndex(c, h);
    ColumnLayout(c, h);
    var b' := b[i := b[i] | ColumnFields[c].masks[h]];
    forall k | 0 <= k < BufferBits
      ensures Bit(b', k) == (k == n || Bit(b, k))
    {
      SetBitAt(b, n, k);
    }
    b'
  }

  /** Or-ing bit n's mask into its byte sets bit n and no other. */
  lemma SetBitAt(b: Buffer, n: nat, k: nat)
    requires n < BufferBits && k < BufferBits
    ensures Bit(b[n / 8 := b[n / 8] | Mask(n % 8)], k) == (k == n || Bit(b, k))
  {
    var i := n / 8;
    BitOfUpdate(b, i, b[i] | Mask(n % 8), k);
    if k / 8 == i {
      MaskBits(b[i], n % 8, k % 8);
      if k % 8 == n % 8 {
        DivModUnique(k, n);
      } else {
        assert k != n;
      }
    } else {
      assert k != n;
    }
  }

  /**
   * The piece write as written (connect_four.go:295-299): `&` instead of `|`,
   * and byte start_byte when masks[h] > masks[0], start_byte+1 otherwise, the
   * reverse of check_spot's choice.
   */
  function PlacePieceAsWritten(b: Buffer, c: nat, h: nat): Buffer
    requires c < Columns && h < Rows
  {
    var f := ColumnFields[c];
    ColumnLayout(c, 0);
    if f.masks[h] > f.masks[0] then b[f.startByte := b[f.startByte] & f.masks[h]]
    else b[f.startByte + 1 := b[f.startByte + 1] & f.masks[h]]
  }

  /**
   * Playing cell (0, 0) on a board whose byte 1 is full: the as-written write
   * leaves cell (0, 0) clear and wipes seven bits of byte 1.
   */
  lemma PlacePieceAsWrittenMisplaces()
    ensures CellBit(PlacePiece([0, 255, 0, 0, 0, 0, 0, 0], 0, 0), 0, 0)
    ensures !CellBit(PlacePieceAsWritten([0, 255, 0, 0, 0, 0, 0, 0], 0, 0), 0, 0)
    ensures PlacePieceAsWritten([0, 255, 0, 0, 0, 0, 0, 0], 0, 0) == [0, 128, 0, 0, 0, 0, 0, 0]
  {
    var b: Buffer := [0, 255, 0, 0, 0, 0, 0, 0];
    assert Bit(PlacePiece(b, 0, 0), CellIndex(0, 0));
    ColumnLayout(0, 0);
  }

  /** The turn flip of connect_four.go:302: only the turn bit changes. */
  function FlipTurn(b: Buffer): (b': Buffer)
    ensures forall k :: 0 <= k < BufferBits ==> Bit(b', k) == if k == TurnIndex then !Bit(b, k) else Bit(b, k)
  {
    var b' := b[TurnField.startByte := TurnField.masks[0] ^ b[TurnField.startByte]];
    assert b' == FlipBit(b, TurnIndex);
    b'
  }

  // ---------------------------------------------------------------------------
  // The move

  /**
   * apply_turn_in_place with read_height's result kept (the slip at line 273):
   * an error leaves the buffer as it was, otherwise the result is the new
   * buffer.
   */
  function ApplyTurn(b: Buffer, c: nat): (r: Result<Buffer>)
    ensures c > MaxColumns <==> r == Err(InvalidColumn)
    ensures c <= MaxColumns ==> (ReadHeight(b, c) >= MaxHeight <==> r == Err(ColumnFull))
    ensures r.Err? ==> c > MaxColumns || ReadHeight(b, c) >= MaxHeight
    ensures r.Ok? ==> MoveEffect(b, c, ReadHeight(b, c), r.value)
  {
    if c > MaxColumns then Err(InvalidColumn)
    else
      var h := ReadHeight(b, c);
      if h >= MaxHeight then Err(ColumnFull)
      else
        var b1 := IncrementHeight(b, c, h);
        var b2 := if ReadTurn(b1) then PlacePiece(b1, c, h) else b1;
        MoveEffectHolds(b, c);
        Ok(FlipTurn(b2))
  }

  /**
   * What an accepted move at height h of column c does to the bits: the
   * counter goes from h to h + 1, cell (c, h) gains the turn bit, the turn bit
   * flips, and every other bit keeps its value.
   */
  predicate MoveEffect(b: Buffer, c: nat, h: nat, b': Buffer)
    requires c < Columns && h < Rows
  {
    && ReadHeight(b', c) == ReadHeight(b, c) + 1
    && CellBit(b', c, h) == (CellBit(b, c, h) || TurnBitOf(b))
    && TurnBitOf(b') == !TurnBitOf(b)
    && forall k :: 0 <= k < BufferBits && !InCounter(c, k) && k != CellIndex(c, h) && k != TurnIndex ==>
         Bit(b', k) == Bit(b, k)
  }

  lemma MoveEffectHolds(b: Buffer, c: nat)
    requires c < Columns && ReadHeight(b, c) < MaxHeight
    ensures var h := ReadHeight(b, c);
            var b1 := IncrementHeight(b, c, h);
            MoveEffect(b, c, h, FlipTurn(if ReadTurn(b1) then PlacePiece(b1, c, h) else b1))
  {
    var h := ReadHeight(b, c);
    var b1 := IncrementHeight(b, c, h);
    HeightIncrement(b, c);
    var b2 := if ReadTurn(b1) then PlacePiece(b1, c, h) else b1;
    var b3 := FlipTurn(b2);
    var n := CellIndex(c, h);
    assert !InCounter(c, n) && !InCounter(c, TurnIndex) && n != TurnIndex;
    assert Bit(b1, TurnIndex) == Bit(b, TurnIndex);
    assert Bit(b1, n) == Bit(b, n);
    assert Bit(b3, n) == Bit(b2, n);
    assert Bit(b2, TurnIndex) == Bit(b1, TurnIndex);
    forall j | 0 <= j < CounterBits
      ensures Bit(b3, CounterIndex(c, j)) == Bit(b1, CounterIndex(c, j))
    {
      assert CounterIndex(c, j) != n && CounterIndex(c, j) != TurnIndex;
    }
    assert CounterValue(b3, c) == CounterValue(b1, c);
    assert ReadHeight(b3, c) == h + 1;
    assert CellBit(b3, c, h) == (CellBit(b, c, h) || TurnBitOf(b));
    assert TurnBitOf(b3) == !TurnBitOf(b);
    forall k | 0 <= k < BufferBits && !InCounter(c, k) && k != n && k != TurnIndex
      ensures Bit(b3, k) == Bit(b, k)
    {
      assert Bit(b1, k) == Bit(b, k);
      assert Bit(b2, k) == Bit(b1, k);
    }
    assert MoveEffect(b, c, h, b3);
  }

  /**
   * apply_turn_copy as a function of the buffer: the move's result, or the
   * buffer unchanged when the move is refused (connect_four.go:307-310).
   */
  function ApplyTurnCopy(b: Buffer, c: nat): (b': Buffer)
    ensures b' == b <==> ApplyTurn(b, c).Err?
    ensures ApplyTurn(b, c).Ok? ==> b' == ApplyTurn(b, c).value
  {
    match ApplyTurn(b, c)
    case Ok(moved) =>
      assert Bit(moved, TurnIndex) != Bit(b, TurnIndex);
      moved
    case Err(_) => b
  }

  /** An accepted move followed by another accepted move gives the turn back to the first mover. */
  lemma TwoMovesRestoreTurn(b: Buffer, c: nat, c': nat)
    ensures ApplyTurn(b, c).Ok? && ApplyTurn(ApplyTurn(b, c).value, c').Ok? ==>
              TurnBitOf(ApplyTurn(ApplyTurn(b, c).value, c').value) == TurnBitOf(b)
  {
  }

  // ---------------------------------------------------------------------------
  // The move on the decoded position

  /** A column other than the moved one keeps its counter and its cells. */
  lemma MoveKeepsOtherColumn(b: Buffer, c: nat, h: nat, b': Buffer, c': nat)
    requires c < Columns && h < Rows && c' < Columns && c' != c
    requires MoveEffect(b, c, h, b')
    ensures ReadHeight(b', c') == ReadHeight(b, c')
    ensures forall r :: 0 <= r < Rows ==> CellBit(b', c', r) == CellBit(b, c', r)
  {
    forall j | 0 <= j < CounterBits
      ensures Bit(b', CounterIndex(c', j)) == Bit(b, CounterIndex(c', j))
    {
      var k := CounterIndex(c', j);
      assert !InCounter(c, k) && k != CellIndex(c, h) && k != TurnIndex;
    }
    forall r | 0 <= r < Rows
      ensures CellBit(b', c', r) == CellBit(b, c', r)
    {
      var k := CellIndex(c', r);
      assert !InCounter(c, k) && k != CellIndex(c, h) && k != TurnIndex;
    }
  }

  /** The moved column keeps its cells other than row h. */
  lemma MoveKeepsOtherCells(b: Buffer, c: nat, h: nat, b': Buffer)
    requires c < Columns && h < Rows
    requires MoveEffect(b, c, h, b')
    ensures forall r :: 0 <= r < Rows && r != h ==> CellBit(b', c, r) == CellBit(b, c, r)
  {
    forall r | 0 <= r < Rows && r != h
      ensures CellBit(b', c, r) == CellBit(b, c, r)
    {
      var k := CellIndex(c, r);
      assert !InCounter(c, k) && k != CellIndex(c, h) && k != TurnIndex;
    }
  }

  /** An accepted move keeps the buffer well-formed. */
  lemma MovePreservesWellFormed(b: Buffer, c: nat, b': Buffer)
    requires WellFormed(b) && c < Columns && ReadHeight(b, c) < MaxHeight
    requires MoveEffect(b, c, ReadHeight(b, c), b')
    ensures WellFormed(b')
  {
    var h := ReadHeight(b, c);
    MoveKeepsOtherCells(b, c, h, b');
    forall c' | 0 <= c' < Columns
      ensures ReadHeight(b', c') <= MaxHeight
      ensures forall r :: ReadHeight(b', c') <= r < Rows ==> !CellBit(b', c', r)
    {
      if c' != c {
        MoveKeepsOtherColumn(b, c, h, b', c');
      }
    }
  }

  /** Decoding after an accepted move: column c gains the mover on top, the others are unchanged. */
  lemma MoveDecodesColumns(b: Buffer, c: nat, b': Buffer, c': nat)
    requires WellFormed(b) && WellFormed(b') && c < Columns && ReadHeight(b, c) < MaxHeight && c' < Columns
    requires MoveEffect(b, c, ReadHeight(b, c), b')
    ensures DecodeColumn(b', c') == if c' == c then DecodeColumn(b, c) + [PlayerOf(TurnBitOf(b))] else DecodeColumn(b, c')
  {
    var h := ReadHeight(b, c);
    if c' == c {
      MoveKeepsOtherCells(b, c, h, b');
      assert !CellBit(b, c, h);
      var d, e := DecodeColumn(b', c), DecodeColumn(b, c) + [PlayerOf(TurnBitOf(b))];
      assert |d| == |e|;
      forall r | 0 <= r < |d|
        ensures d[r] == e[r]
      {
        if r < h {
          assert CellBit(b', c, r) == CellBit(b, c, r);
        }
      }
    } else {
      MoveKeepsOtherColumn(b, c, h, b', c');
    }
  }

  /**
   * The packed move refines the game: on a well-formed buffer it is refused
   * exactly when the game refuses the move, with the same error, and otherwise
   * yields a well-formed buffer that decodes to the game's next position.
   */
  lemma MoveRefinesPlay(b: Buffer, c: nat)
    requires WellFormed(b)
    ensures ApplyTurn(b, c).Err? <==> Play(Decode(b), c).Err?
    ensures ApplyTurn(b, c).Err? ==> ApplyTurn(b, c).error == Play(Decode(b), c).error
    ensures ApplyTurn(b, c).Ok? ==>
              && WellFormed(ApplyTurn(b, c).value)
              && Decode(ApplyTurn(b, c).value) == Play(Decode(b), c).value
  {
    var p := Decode(b);
    if c <= MaxColumns {
      assert |p.columns[c]| == ReadHeight(b, c);
      var r := ApplyTurn(b, c);
      if r.Ok? {
        MoveDecodesToPlay(b, c, r.value);
      }
    }
  }

  /** A buffer that a move's effect leads to decodes to the game's next position. */
  lemma MoveDecodesToPlay(b: Buffer, c: nat, b': Buffer)
    requires WellFormed(b) && c < Columns && ReadHeight(b, c) < MaxHeight
    requires MoveEffect(b, c, ReadHeight(b, c), b')
    ensures Play(Decode(b), c).Ok?
    ensures WellFormed(b') && Decode(b') == Play(Decode(b), c).value
  {
    var p := Decode(b);
    assert |p.columns[c]| == ReadHeight(b, c);
    MovePreservesWellFormed(b, c, b');
    var expected := Play(p, c).value;
    forall c' | 0 <= c' < Columns
      ensures ReadHeight(b', c') <= Rows && DecodeColumn(b', c') == expected.columns[c']
    {
      MoveDecodesColumns(b, c, b', c');
    }
    DecodesTo(b', expected);
  }

  // ---------------------------------------------------------------------------
  // Games

  /** A game on the packed board, one column per move, stopping at the first refused move. */
  function ApplyMoves(b: Buffer, cs: seq<nat>): (r: Result<Buffer>)
    decreases |cs|
  {
    if cs == [] then Ok(b)
    else
      match ApplyTurn(b, cs[0])
      case Err(e) => Err(e)
      case Ok(b') => ApplyMoves(b', cs[1..])
  }

  /**
   * A game on a well-formed buffer is the game on its decoded position: both
   * refuse the same move with the same error, or both finish, the buffer well
   * formed and decoding to the position reached.
   */
  lemma {:induction false} MovesRefinePlays(b: Buffer, cs: seq<nat>)
    requires WellFormed(b)
    ensures ApplyMoves(b, cs).Err? <==> PlayMoves(Decode(b), cs).Err?
    ensures ApplyMoves(b, cs).Err? ==> ApplyMoves(b, cs).error == PlayMoves(Decode(b), cs).error
    ensures ApplyMoves(b, cs).Ok? ==>
              && WellFormed(ApplyMoves(b, cs).value)
              && Decode(ApplyMoves(b, cs).value) == PlayMoves(Decode(b), cs).value
    decreases |cs|
  {
    if cs != [] {
      MoveRefinesPlay(b, cs[0]);
      var r := ApplyTurn(b, cs[0]);
      if r.Ok? {
        MovesRefinePlays(r.value, cs[1..]);
      }
    }
  }

  /**
   * Every buffer a game reaches from the all-zero board is well formed and
   * stands for the position the same moves reach from the start of a game.
   */
  lemma ReachedWellFormed(cs: seq<nat>)
    ensures ApplyMoves(EmptyBoard(), cs).Err? <==> PlayMoves(StartPosition(), cs).Err?
    ensures ApplyMoves(EmptyBoard(), cs).Ok? ==>
              && WellFormed(ApplyMoves(EmptyBoard(), cs).value)
              && Decode(ApplyMoves(EmptyBoard(), cs).value) == PlayMoves(StartPosition(), cs).value
  {
    EmptyBoardStart();
    MovesRefinePlays(EmptyBoard(), cs);
  }

  // ---------------------------------------------------------------------------
  // The move as written at line 273

  /**
   * apply_turn_in_place with line 273 as written: the result of read_height is
   * dropped, so the counter is updated as if it held 0 and the piece goes to
   * row 0 whatever the column holds.
   */
  function ApplyTurnIgnoringHeight(b: Buffer, c: nat): Result<Buffer>
  {
    if c > MaxColumns then Err(InvalidColumn)
    else
      var h := 0;
      if h >= MaxHeight then Err(ColumnFull)
      else
        var b1 := IncrementHeight(b, c, h);
        var b2 := if ReadTurn(b1) then PlacePiece(b1, c, h) else b1;
        Ok(FlipTurn(b2))
  }

  /**
   * A full column (counter 5) is refused by the move that keeps the height,
   * but accepted by the as-written one, which turns the counter into 4.
   */
  lemma FullColumnAccepted(b: Buffer, c: nat)
    requires c < Columns && ReadHeight(b, c) == MaxHeight
    ensures ApplyTurn(b, c) == Err(ColumnFull)
    ensures ApplyTurnIgnoringHeight(b, c).Ok?
    ensures ReadHeight(ApplyTurnIgnoringHeight(b, c).value, c) == MaxHeight - 1
  {
    var b1 := IncrementHeight(b, c, 0);
    var b2 := if ReadTurn(b1) then PlacePiece(b1, c, 0) else b1;
    var b3 := FlipTurn(b2);
    assert HeightFlips(0) == [false, false, true];
    ValueDigits(Bit(b, CounterIndex(c, 0)), Bit(b, CounterIndex(c, 1)), Bit(b, CounterIndex(c, 2)));
    forall j | 0 <= j < CounterBits
      ensures Bit(b3, CounterIndex(c, j)) == Bit(b1, CounterIndex(c, j))
    {
      assert CounterIndex(c, j) != CellIndex(c, 0) && CounterIndex(c, j) != TurnIndex;
    }
    assert CounterValue(b3, c) == MaxHeight - 1;
  }
}
