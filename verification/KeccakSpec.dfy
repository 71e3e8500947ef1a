// Keccak-f[1600] as section 3 of FIPS 202 defines it: 25 lanes A[x, y], the five step
// mappings, and 24 rounds.
module KeccakSpec {
  import opened Words
  import opened KeccakLanes

  /** The lanes, with A[x, y] at index 5x + y. */
  type State = s: seq<Lane> | |s| == 25 witness seq(25, _ => ZERO)

  const START: State := seq(25, _ => ZERO)

  /** The sum of the five lanes of column x. */
  function Column(s: State, x: nat): Lane
    requires x < 5
  {
    Xor(Xor(Xor(Xor(s[5 * x], s[5 * x + 1]), s[5 * x + 2]), s[5 * x + 3]), s[5 * x + 4])
  }

  function Mix(s: State, x: nat): Lane
    requires x < 5
  {
    Xor(Column(s, (x + 4) % 5), Rol(Column(s, (x + 1) % 5), 1))
  }

  function Theta(s: State): State {
    seq(25, i requires 0 <= i < 25 => Xor(s[i], Mix(s, i / 5)))
  }

  /** Rotation amounts, in the order A[0,0], A[0,1], ... A[4,4]. */
  const OFFSETS: seq<nat> := [
    0, 36, 3, 41, 18,
    1, 44, 10, 45, 2,
    62, 6, 43, 15, 61,
    28, 55, 25, 21, 56,
    27, 20, 39, 8, 14]

  function Offset(i: nat): (n: nat)
    requires i < 25
    ensures n < 64
  {
    OFFSETS[i]
  }

  function Rho(s: State): State {
    seq(25, i requires 0 <= i < 25 => Rol(s[i], Offset(i)))
  }

  /** The lane that the pi mapping moves to index i = 5x + y, that is, A[x + 3y, x]. */
  function PiSource(i: nat): (k: nat)
    requires i < 25
    ensures k < 25
  {
    5 * ((i / 5 + 3 * (i % 5)) % 5) + i / 5
  }

  function Pi(s: State): State {
    seq(25, i requires 0 <= i < 25 => s[PiSource(i)])
  }

  /** The lane A[x + 1, y] next to A[x, y] in its row. */
  function Right(i: nat): (k: nat)
    requires i < 25
    ensures k < 25
  {
    (i + 5) % 25
  }

  function ChiLane(a: Lane, b: Lane, c: Lane): Lane { Xor(a, And(Not(b), c)) }

  function Chi(s: State): State {
    seq(25, i requires 0 <= i < 25 => ChiLane(s[i], s[Right(i)], s[Right(Right(i))]))
  }

  function Iota(s: State, k: Lane): State { s[0 := Xor(s[0], k)] }

  function Round(s: State, k: Lane): State { Iota(Chi(Pi(Rho(Theta(s)))), k) }

  const ROUNDS: nat := 24

  /** The first n rounds. */
  function Rounds(s: State, n: nat): State
    requires n <= ROUNDS
  {
    if n == 0 then s else Round(Rounds(s, n - 1), RoundConstant(n - 1))
  }

  function F1600(s: State): State { Rounds(s, ROUNDS) }

  function RC(r: nat): nat
    requires r < ROUNDS
  {
    match r
    case 0 => 0x0000000000000001
    case 1 => 0x0000000000008082
    case 2 => 0x800000000000808A
    case 3 => 0x8000000080008000
    case 4 => 0x000000000000808B
    case 5 => 0x0000000080000001
    case 6 => 0x8000000080008081
    case 7 => 0x8000000000008009
    case 8 => 0x000000000000008A
    case 9 => 0x0000000000000088
    case 10 => 0x0000000080008009
    case 11 => 0x000000008000000A
    case 12 => 0x000000008000808B
    case 13 => 0x800000000000008B
    case 14 => 0x8000000000008089
    case 15 => 0x8000000000008003
    case 16 => 0x8000000000008002
    case 17 => 0x8000000000000080
    case 18 => 0x000000000000800A
    case 19 => 0x800000008000000A
    case 20 => 0x8000000080008081
    case 21 => 0x8000000000008080
    case 22 => 0x0000000080000001
    case _ => 0x8000000080008008
  }

  function RoundConstant(r: nat): Lane
    requires r < ROUNDS
  {
    FromNat(RC(r))
  }
}
