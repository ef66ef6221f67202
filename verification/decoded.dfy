/**
 * The decoded view of a packed board: seven stacks of pieces and the player to
 * move, the grid-plus-turn shape of basic_board (connect_four.go:139-142) and
 * of the unfinished to_basic_board (connect_four.go:254-262).
 *
 * The buffer does not name the player of a piece directly. A piece is played
 * with its cell bit set exactly when the turn bit is 1, so below a column's
 * height a set bit is a piece of the player who moves while the turn bit is 1
 * (`One`) and a clear bit a piece of the other player (`Zero`); cells at or
 * above the height are empty.
 */
module Decoded {
  import opened Layout
  import opened Board

  /** The two players, named by the value of the turn bit while they move. */
  datatype Player = Zero | One

  function PlayerOf(bit: bool): Player
  {
    if bit then One else Zero
  }

  function Other(p: Player): Player
  {
    if p == Zero then One else Zero
  }

  /** One stack of pieces per column, bottom first, and the player to move. */
  datatype Position = Position(columns: seq<seq<Player>>, turn: Player)

  predicate ValidPosition(p: Position)
  {
    && |p.columns| == Columns
    && forall c :: 0 <= c < Columns ==> |p.columns[c]| <= MaxHeight
  }

  /**
   * Well-formed buffers: every counter is at most MAX_HEIGHT and every cell at
   * or above its column's counter is clear. Every buffer a game reaches from
   * the all-zero board is well formed (Moves.ReachedWellFormed), but not every
   * well-formed buffer is reached: the turn bit, say, may disagree with the
   * number of pieces.
   */
  predicate WellFormed(b: Buffer)
  {
    forall c :: 0 <= c < Columns ==>
      && ReadHeight(b, c) <= MaxHeight
      && forall r :: ReadHeight(b, c) <= r < Rows ==> !CellBit(b, c, r)
  }

  function DecodeColumn(b: Buffer, c: nat): seq<Player>
    requires c < Columns && ReadHeight(b, c) <= Rows
  {
    seq(ReadHeight(b, c), r requires 0 <= r < ReadHeight(b, c) => PlayerOf(CellBit(b, c, r)))
  }

  /** The decoded position of a well-formed buffer. */
  function Decode(b: Buffer): (p: Position)
    requires WellFormed(b)
    ensures ValidPosition(p)
  {
    Position(seq(Columns, c requires 0 <= c < Columns => DecodeColumn(b, c)), PlayerOf(TurnBitOf(b)))
  }

  /** Bit k of the buffer that encodes p. */
  function EncodedBit(p: Position, k: nat): bool
    requires ValidPosition(p) && k < BufferBits
  {
    if k < CellIndex(Columns, 0) then
      var c, r := k / Rows, k % Rows;
      r < |p.columns[c]| && p.columns[c][r] == One
    else if k < TurnIndex then
      var c, j := (k - CounterIndex(0, 0)) / CounterBits, (k - CounterIndex(0, 0)) % CounterBits;
      CounterDigit(|p.columns[c]|, j)
    else
      p.turn == One
  }

  /** A byte from its eight bits, most significant first. */
  function ByteOfBits(x0: bool, x1: bool, x2: bool, x3: bool, x4: bool, x5: bool, x6: bool, x7: bool): (x: bv8)
    ensures x & Mask(0) != 0 <==> x0
    ensures x & Mask(1) != 0 <==> x1
    ensures x & Mask(2) != 0 <==> x2
    ensures x & Mask(3) != 0 <==> x3
    ensures x & Mask(4) != 0 <==> x4
    ensures x & Mask(5) != 0 <==> x5
    ensures x & Mask(6) != 0 <==> x6
    ensures x & Mask(7) != 0 <==> x7
  {
    (if x0 then Bitmask0 else 0) | (if x1 then Bitmask1 else 0) | (if x2 then Bitmask2 else 0) | (if x3 then Bitmask3 else 0)
    | (if x4 then Bitmask4 else 0) | (if x5 then Bitmask5 else 0) | (if x6 then Bitmask6 else 0) | (if x7 then Bitmask7 else 0)
  }

  function EncodedByte(p: Position, i: nat): bv8
    requires ValidPosition(p) && i < BufferSize
  {
    ByteOfBits(EncodedBit(p, 8 * i), EncodedBit(p, 8 * i + 1), EncodedBit(p, 8 * i + 2), EncodedBit(p, 8 * i + 3),
               EncodedBit(p, 8 * i + 4), EncodedBit(p, 8 * i + 5), EncodedBit(p, 8 * i + 6), EncodedBit(p, 8 * i + 7))
  }

  /** The buffer that encodes a position. */
  function Encode(p: Position): (b: Buffer)
    requires ValidPosition(p)
    ensures forall k :: 0 <= k < BufferBits ==> Bit(b, k) == EncodedBit(p, k)
  {
    var b: Buffer := seq(BufferSize, i requires 0 <= i < BufferSize => EncodedByte(p, i));
    forall k | 0 <= k < BufferBits
      ensures Bit(b, k) == EncodedBit(p, k)
    {
      EncodedBufferBit(p, b, k);
    }
    b
  }

  lemma EncodedBufferBit(p: Position, b: Buffer, k: nat)
    requires ValidPosition(p) && k < BufferBits
    requires b[k / 8] == EncodedByte(p, k / 8)
    ensures Bit(b, k) == EncodedBit(p, k)
  {
    var i, j := k / 8, k % 8;
    assert k == 8 * i + j;
    EncodedByteBit(p, i, j);
  }

  lemma EncodedByteBit(p: Position, i: nat, j: nat)
    requires ValidPosition(p) && i < BufferSize && j < 8
    ensures EncodedByte(p, i) & Mask(j) != 0 <==> EncodedBit(p, 8 * i + j)
  {
    if j == 0 {} else if j == 1 {} else if j == 2 {} else if j == 3 {} else if j == 4 {} else if j == 5 {} else if j == 6 {} else {}
  }

  lemma EncodedBitOfCell(p: Position, c: nat, r: nat)
    requires ValidPosition(p) && c < Columns && r < Rows
    ensures EncodedBit(p, CellIndex(c, r)) == (r < |p.columns[c]| && p.columns[c][r] == One)
  {
    var k := CellIndex(c, r);
    assert k / Rows == c && k % Rows == r;
  }

  lemma EncodedBitOfCounter(p: Position, c: nat, j: nat)
    requires ValidPosition(p) && c < Columns && j < CounterBits
    ensures EncodedBit(p, CounterIndex(c, j)) == CounterDigit(|p.columns[c]|, j)
  {
    var k := CounterIndex(c, j);
    assert (k - CounterIndex(0, 0)) / CounterBits == c && (k - CounterIndex(0, 0)) % CounterBits == j;
  }

  /** The encoded cell bit of (c, r) is set exactly for a piece of One. */
  lemma EncodedCell(p: Position, c: nat, r: nat)
    requires ValidPosition(p) && c < Columns && r < Rows
    ensures CellBit(Encode(p), c, r) == (r < |p.columns[c]| && p.columns[c][r] == One)
  {
    EncodedBitOfCell(p, c, r);
  }

  /** The encoded counter of column c holds the column's height. */
  lemma EncodedHeight(p: Position, c: nat)
    requires ValidPosition(p) && c < Columns
    ensures ReadHeight(Encode(p), c) == |p.columns[c]|
  {
    var v := |p.columns[c]|;
    EncodedBitOfCounter(p, c, 0);
    EncodedBitOfCounter(p, c, 1);
    EncodedBitOfCounter(p, c, 2);
    DigitsValue(v);
  }

  /** A number below 8 is the weighted sum of its three digits. */
  lemma DigitsValue(v: nat)
    requires v < 8
    ensures 4 * Digit(CounterDigit(v, 0)) + 2 * Digit(CounterDigit(v, 1)) + Digit(CounterDigit(v, 2)) == v
  {
  }

  /** The digits of a counter's value are its bits. */
  lemma ValueDigits(x0: bool, x1: bool, x2: bool)
    ensures var v := 4 * Digit(x0) + 2 * Digit(x1) + Digit(x2);
            CounterDigit(v, 0) == x0 && CounterDigit(v, 1) == x1 && CounterDigit(v, 2) == x2
  {
  }

  /** The encoded counter and cells of column c respect the well-formedness bound. */
  lemma EncodedColumnWellFormed(p: Position, c: nat)
    requires ValidPosition(p) && c < Columns
    ensures ReadHeight(Encode(p), c) <= MaxHeight
    ensures forall r :: ReadHeight(Encode(p), c) <= r < Rows ==> !CellBit(Encode(p), c, r)
  {
    EncodedHeight(p, c);
    forall r | ReadHeight(Encode(p), c) <= r < Rows
      ensures !CellBit(Encode(p), c, r)
    {
      EncodedCell(p, c, r);
    }
  }

  /** Decoding column c of an encoded position gives the column back. */
  lemma DecodedColumnOfEncode(p: Position, c: nat)
    requires ValidPosition(p) && c < Columns
    ensures ReadHeight(Encode(p), c) <= Rows
    ensures DecodeColumn(Encode(p), c) == p.columns[c]
  {
    var b := Encode(p);
    EncodedHeight(p, c);
    forall r | 0 <= r < |p.columns[c]|
      ensures CellBit(b, c, r) == (p.columns[c][r] == One)
    {
      EncodedCell(p, c, r);
    }
    DecodesColumn(b, c, p.columns[c]);
  }

  /** A column whose height and cells agree with a stack decodes to that stack. */
  lemma DecodesColumn(b: Buffer, c: nat, col: seq<Player>)
    requires c < Columns && ReadHeight(b, c) == |col| <= Rows
    requires forall r :: 0 <= r < |col| ==> CellBit(b, c, r) == (col[r] == One)
    ensures DecodeColumn(b, c) == col
  {
    var d := DecodeColumn(b, c);
    forall r | 0 <= r < |d|
      ensures d[r] == col[r]
    {
      assert CellBit(b, c, r) == (col[r] == One);
    }
  }

  /** Encoding a valid position yields a well-formed buffer. */
  lemma EncodedWellFormed(p: Position)
    requires ValidPosition(p)
    ensures WellFormed(Encode(p))
  {
    forall c | 0 <= c < Columns
      ensures ReadHeight(Encode(p), c) <= MaxHeight
      ensures forall r :: ReadHeight(Encode(p), c) <= r < Rows ==> !CellBit(Encode(p), c, r)
    {
      EncodedColumnWellFormed(p, c);
    }
  }

  /** The encoded turn bit is set exactly when One is to move. */
  lemma EncodedTurn(p: Position)
    requires ValidPosition(p)
    ensures TurnBitOf(Encode(p)) <==> p.turn == One
  {
    assert Bit(Encode(p), TurnIndex) == EncodedBit(p, TurnIndex);
  }

  /** A well-formed buffer whose columns and turn bit match p decodes to p. */
  lemma DecodesTo(b: Buffer, p: Position)
    requires WellFormed(b) && ValidPosition(p)
    requires forall c :: 0 <= c < Columns ==> ReadHeight(b, c) <= Rows && DecodeColumn(b, c) == p.columns[c]
    requires TurnBitOf(b) <==> p.turn == One
    ensures Decode(b) == p
  {
    assert Decode(b).columns == p.columns;
  }

  /** Encoding a valid position yields a well-formed buffer that decodes back to it. */
  lemma DecodeEncode(p: Position)
    requires ValidPosition(p)
    ensures WellFormed(Encode(p))
    ensures Decode(Encode(p)) == p
  {
    EncodedWellFormed(p);
    EncodedTurn(p);
    forall c | 0 <= c < Columns
      ensures ReadHeight(Encode(p), c) <= Rows && DecodeColumn(Encode(p), c) == p.columns[c]
    {
      DecodedColumnOfEncode(p, c);
    }
    DecodesTo(Encode(p), p);
  }

  /** Cell bit (c, r) survives decoding and re-encoding. */
  lemma ReencodedCell(b: Buffer, c: nat, r: nat)
    requires WellFormed(b) && c < Columns && r < Rows
    ensures EncodedBit(Decode(b), CellIndex(c, r)) == CellBit(b, c, r)
  {
    var p := Decode(b);
    EncodedBitOfCell(p, c, r);
    assert p.columns[c] == DecodeColumn(b, c);
    if r < ReadHeight(b, c) {
      assert p.columns[c][r] == PlayerOf(CellBit(b, c, r));
    }
  }

  /** Counter bit j of column c survives decoding and re-encoding. */
  lemma ReencodedCounter(b: Buffer, c: nat, j: nat)
    requires WellFormed(b) && c < Columns && j < CounterBits
    ensures EncodedBit(Decode(b), CounterIndex(c, j)) == Bit(b, CounterIndex(c, j))
  {
    var p := Decode(b);
    EncodedBitOfCounter(p, c, j);
    assert |p.columns[c]| == CounterValue(b, c) by {
      assert p.columns[c] == DecodeColumn(b, c);
    }
    CounterDigitOfValue(b, c, j);
  }

  /** Digit j of a counter's value is the counter's bit j. */
  lemma CounterDigitOfValue(b: Buffer, c: nat, j: nat)
    requires c < Columns && j < CounterBits
    ensures CounterDigit(CounterValue(b, c), j) == Bit(b, CounterIndex(c, j))
  {
    ValueDigits(Bit(b, CounterIndex(c, 0)), Bit(b, CounterIndex(c, 1)), Bit(b, CounterIndex(c, 2)));
  }

  /** Every bit survives decoding and re-encoding. */
  lemma ReencodedBit(b: Buffer, k: nat)
    requires WellFormed(b) && k < BufferBits
    ensures EncodedBit(Decode(b), k) == Bit(b, k)
  {
    if k < CellIndex(Columns, 0) {
      var c, r := k / Rows, k % Rows;
      assert k == CellIndex(c, r);
      ReencodedCell(b, c, r);
    } else if k < TurnIndex {
      var c, j := (k - CounterIndex(0, 0)) / CounterBits, (k - CounterIndex(0, 0)) % CounterBits;
      assert k == CounterIndex(c, j);
      ReencodedCounter(b, c, j);
    }
  }

  /** Decoding a well-formed buffer loses nothing: encoding the decoded position gives the buffer back. */
  lemma EncodeDecode(b: Buffer)
    requires WellFormed(b)
    ensures Encode(Decode(b)) == b
  {
    var b' := Encode(Decode(b));
    forall k | 0 <= k < BufferBits
      ensures Bit(b', k) == Bit(b, k)
    {
      ReencodedBit(b, k);
    }
    BitsDetermineBuffer(b', b);
  }

  /**
   * The game the packed board stands for: a move names a column, is refused
   * past the last column or on a full column, and otherwise puts the mover's
   * piece on top of that column and passes the turn.
   */
  function Play(p: Position, c: nat): (r: Result<Position>)
    requires ValidPosition(p)
    ensures r.Ok? ==> ValidPosition(r.value)
  {
    if c > MaxColumns then Err(InvalidColumn)
    else if |p.columns[c]| >= MaxHeight then Err(ColumnFull)
    else Ok(Position(p.columns[c := p.columns[c] + [p.turn]], Other(p.turn)))
  }

  /** A game from position p, one column per move, stopping at the first refused move. */
  function PlayMoves(p: Position, cs: seq<nat>): (r: Result<Position>)
    requires ValidPosition(p)
    ensures r.Ok? ==> ValidPosition(r.value)
    decreases |cs|
  {
    if cs == [] then Ok(p)
    else
      match Play(p, cs[0])
      case Err(e) => Err(e)
      case Ok(p') => PlayMoves(p', cs[1..])
  }

  /** The start of a game: seven empty columns with Zero to move. */
  function StartPosition(): (p: Position)
    ensures ValidPosition(p)
  {
    Position(seq(Columns, c => []), Zero)
  }

  /** The all-zero buffer: every counter 0, no cell set, turn bit 0. */
  function EmptyBoard(): (b: Buffer)
  {
    seq(BufferSize, i => 0)
  }

  /** The all-zero buffer is well formed and stands for the start of a game. */
  lemma EmptyBoardStart()
    ensures WellFormed(EmptyBoard())
    ensures Decode(EmptyBoard()) == StartPosition()
  {
    var b := EmptyBoard();
    forall k | 0 <= k < BufferBits
      ensures !Bit(b, k)
    {
      assert b[k / 8] == 0;
    }
    forall c | 0 <= c < Columns
      ensures ReadHeight(b, c) == 0
    {
      assert !Bit(b, CounterIndex(c, 0)) && !Bit(b, CounterIndex(c, 1)) && !Bit(b, CounterIndex(c, 2));
    }
    assert !Bit(b, TurnIndex);
    assert WellFormed(b);
    assert Decode(b).columns == StartPosition().columns;
  }
}
