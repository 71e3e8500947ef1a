// Salsa20/8 on sixteen 32-bit words: section 3 of RFC 7914, by the quarter-rounds of the
// Salsa20 specification, and the interleaved lines that compute it.
module Salsa {
  import opened Words32

  type Block = b: seq<Word> | |b| == 16 witness seq(16, _ => seq(32, _ => false))

  datatype Quarter = Quarter(y0: Word, y1: Word, y2: Word, y3: Word)

  function QuarterRound(q: Quarter): Quarter {
    var z1 := Xor(q.y1, Rol(Add(q.y0, q.y3), 7));
    var z2 := Xor(q.y2, Rol(Add(z1, q.y0), 9));
    var z3 := Xor(q.y3, Rol(Add(z2, z1), 13));
    var z0 := Xor(q.y0, Rol(Add(z3, z2), 18));
    Quarter(z0, z1, z2, z3)
  }

  /** The sixteen words, four to a row. */
  datatype Cells = Cells(x00: Word, x01: Word, x02: Word, x03: Word,
    x04: Word, x05: Word, x06: Word, x07: Word,
    x08: Word, x09: Word, x10: Word, x11: Word,
    x12: Word, x13: Word, x14: Word, x15: Word)

  /** The columns, each from its diagonal element down. */
  function ColumnRound(c: Cells): Cells {
    var q0 := QuarterRound(Quarter(c.x00, c.x04, c.x08, c.x12));
    var q1 := QuarterRound(Quarter(c.x05, c.x09, c.x13, c.x01));
    var q2 := QuarterRound(Quarter(c.x10, c.x14, c.x02, c.x06));
    var q3 := QuarterRound(Quarter(c.x15, c.x03, c.x07, c.x11));
    Cells(q0.y0, q1.y3, q2.y2, q3.y1, q0.y1, q1.y0, q2.y3, q3.y2,
          q0.y2, q1.y1, q2.y0, q3.y3, q0.y3, q1.y2, q2.y1, q3.y0)
  }

  /** The rows, each from its diagonal element on. */
  function RowRound(c: Cells): Cells {
    var q0 := QuarterRound(Quarter(c.x00, c.x01, c.x02, c.x03));
    var q1 := QuarterRound(Quarter(c.x05, c.x06, c.x07, c.x04));
    var q2 := QuarterRound(Quarter(c.x10, c.x11, c.x08, c.x09));
    var q3 := QuarterRound(Quarter(c.x15, c.x12, c.x13, c.x14));
    Cells(q0.y0, q0.y1, q0.y2, q0.y3, q1.y3, q1.y0, q1.y1, q1.y2,
          q2.y2, q2.y3, q2.y0, q2.y1, q3.y1, q3.y2, q3.y3, q3.y0)
  }

  function DoubleRound(c: Cells): Cells { RowRound(ColumnRound(c)) }

  function DoubleRounds(c: Cells, n: nat): Cells {
    if n == 0 then c else DoubleRound(DoubleRounds(c, n - 1))
  }

  function CellsOf(b: Block): Cells {
    Cells(b[0], b[1], b[2], b[3],
          b[4], b[5], b[6], b[7],
          b[8], b[9], b[10], b[11],
          b[12], b[13], b[14], b[15])
  }

  function BlockOf(c: Cells): Block {
    [c.x00, c.x01, c.x02, c.x03,
     c.x04, c.x05, c.x06, c.x07,
     c.x08, c.x09, c.x10, c.x11,
     c.x12, c.x13, c.x14, c.x15]
  }

  /** Eight rounds. */
  function Rounds(b: Block): Block { BlockOf(DoubleRounds(CellsOf(b), 4)) }

  function AddBlock(a: Block, b: Block): Block { seq(16, i requires 0 <= i < 16 => Add(a[i], b[i])) }

  /** Salsa20/8: the rounds with the input added at the end. */
  function Core(b: Block): Block { AddBlock(b, Rounds(b)) }

  /** The eight rounds as they run: columns and rows in turn, four quarter-rounds side by side. */
  method RunRounds(b: Block) returns (r: Block)
    ensures r == Rounds(b)
  {
    hide DoubleRound, CellsOf, BlockOf;
    var c := CellsOf(b);
    var i := 0;
    while i < 8
      invariant i % 2 == 0 && i <= 8
      invariant c == DoubleRounds(CellsOf(b), i / 2)
    {
      c := RunDoubleRound(c);
      i := i + 2;
    }
    r := BlockOf(c);
  }

  method RunDoubleRound(c: Cells) returns (r: Cells)
    ensures r == DoubleRound(c)
  {
    hide Xor, Add, Rol;
    var x00, x01, x02, x03 := c.x00, c.x01, c.x02, c.x03;
    var x04, x05, x06, x07 := c.x04, c.x05, c.x06, c.x07;
    var x08, x09, x10, x11 := c.x08, c.x09, c.x10, c.x11;
    var x12, x13, x14, x15 := c.x12, c.x13, c.x14, c.x15;
    // columns
    x04 := Xor(x04, Rol(Add(x00, x12), 7));
    x09 := Xor(x09, Rol(Add(x05, x01), 7));
    x14 := Xor(x14, Rol(Add(x10, x06), 7));
    x03 := Xor(x03, Rol(Add(x15, x11), 7));
    x08 := Xor(x08, Rol(Add(x04, x00), 9));
    x13 := Xor(x13, Rol(Add(x09, x05), 9));
    x02 := Xor(x02, Rol(Add(x14, x10), 9));
    x07 := Xor(x07, Rol(Add(x03, x15), 9));
    x12 := Xor(x12, Rol(Add(x08, x04), 13));
    x01 := Xor(x01, Rol(Add(x13, x09), 13));
    x06 := Xor(x06, Rol(Add(x02, x14), 13));
    x11 := Xor(x11, Rol(Add(x07, x03), 13));
    x00 := Xor(x00, Rol(Add(x12, x08), 18));
    x05 := Xor(x05, Rol(Add(x01, x13), 18));
    x10 := Xor(x10, Rol(Add(x06, x02), 18));
    x15 := Xor(x15, Rol(Add(x11, x07), 18));
    // rows
    x01 := Xor(x01, Rol(Add(x00, x03), 7));
    x06 := Xor(x06, Rol(Add(x05, x04), 7));
    x11 := Xor(x11, Rol(Add(x10, x09), 7));
    x12 := Xor(x12, Rol(Add(x15, x14), 7));
    x02 := Xor(x02, Rol(Add(x01, x00), 9));
    x07 := Xor(x07, Rol(Add(x06, x05), 9));
    x08 := Xor(x08, Rol(Add(x11, x10), 9));
    x13 := Xor(x13, Rol(Add(x12, x15), 9));
    x03 := Xor(x03, Rol(Add(x02, x01), 13));
    x04 := Xor(x04, Rol(Add(x07, x06), 13));
    x09 := Xor(x09, Rol(Add(x08, x11), 13));
    x14 := Xor(x14, Rol(Add(x13, x12), 13));
    x00 := Xor(x00, Rol(Add(x03, x02), 18));
    x05 := Xor(x05, Rol(Add(x04, x07), 18));
    x10 := Xor(x10, Rol(Add(x09, x08), 18));
    x15 := Xor(x15, Rol(Add(x14, x13), 18));
    r := Cells(x00, x01, x02, x03, x04, x05, x06, x07,
               x08, x09, x10, x11, x12, x13, x14, x15);
  }
}
