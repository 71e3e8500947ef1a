// The SHA-512 compression function as sections 4.1.3, 4.2.3 and 6.4.2 of FIPS 180-4 give it.
module Sha512Spec {
  import opened Words

  function Ch(x: Word, y: Word, z: Word): Word { Xor(And(x, y), And(Not(x), z)) }

  function Maj(x: Word, y: Word, z: Word): Word { Xor(Xor(And(x, y), And(x, z)), And(y, z)) }

  function BigSigma0(x: Word): Word { Xor(Xor(Ror(x, 28), Ror(x, 34)), Ror(x, 39)) }

  function BigSigma1(x: Word): Word { Xor(Xor(Ror(x, 14), Ror(x, 18)), Ror(x, 41)) }

  function SmallSigma0(x: Word): Word { Xor(Xor(Ror(x, 1), Ror(x, 8)), Shr(x, 7)) }

  function SmallSigma1(x: Word): Word { Xor(Xor(Ror(x, 19), Ror(x, 61)), Shr(x, 6)) }

  /** A row of four numbers. */
  datatype Four = Four(a: nat, b: nat, c: nat, d: nat) {
    function At(i: nat): nat { if i == 0 then a else if i == 1 then b else if i == 2 then c else d }
  }

  /** The eighty round constants, four to a row. */
  function KRow(r: nat): Four
    requires r < 20
  {
    match r
    case 0 => Four(0x428a2f98d728ae22, 0x7137449123ef65cd, 0xb5c0fbcfec4d3b2f, 0xe9b5dba58189dbbc)
    case 1 => Four(0x3956c25bf348b538, 0x59f111f1b605d019, 0x923f82a4af194f9b, 0xab1c5ed5da6d8118)
    case 2 => Four(0xd807aa98a3030242, 0x12835b0145706fbe, 0x243185be4ee4b28c, 0x550c7dc3d5ffb4e2)
    case 3 => Four(0x72be5d74f27b896f, 0x80deb1fe3b1696b1, 0x9bdc06a725c71235, 0xc19bf174cf692694)
    case 4 => Four(0xe49b69c19ef14ad2, 0xefbe4786384f25e3, 0x0fc19dc68b8cd5b5, 0x240ca1cc77ac9c65)
    case 5 => Four(0x2de92c6f592b0275, 0x4a7484aa6ea6e483, 0x5cb0a9dcbd41fbd4, 0x76f988da831153b5)
    case 6 => Four(0x983e5152ee66dfab, 0xa831c66d2db43210, 0xb00327c898fb213f, 0xbf597fc7beef0ee4)
    case 7 => Four(0xc6e00bf33da88fc2, 0xd5a79147930aa725, 0x06ca6351e003826f, 0x142929670a0e6e70)
    case 8 => Four(0x27b70a8546d22ffc, 0x2e1b21385c26c926, 0x4d2c6dfc5ac42aed, 0x53380d139d95b3df)
    case 9 => Four(0x650a73548baf63de, 0x766a0abb3c77b2a8, 0x81c2c92e47edaee6, 0x92722c851482353b)
    case 10 => Four(0xa2bfe8a14cf10364, 0xa81a664bbc423001, 0xc24b8b70d0f89791, 0xc76c51a30654be30)
    case 11 => Four(0xd192e819d6ef5218, 0xd69906245565a910, 0xf40e35855771202a, 0x106aa07032bbd1b8)
    case 12 => Four(0x19a4c116b8d2d0c8, 0x1e376c085141ab53, 0x2748774cdf8eeb99, 0x34b0bcb5e19b48a8)
    case 13 => Four(0x391c0cb3c5c95a63, 0x4ed8aa4ae3418acb, 0x5b9cca4f7763e373, 0x682e6ff3d6b2b8a3)
    case 14 => Four(0x748f82ee5defb2fc, 0x78a5636f43172f60, 0x84c87814a1f0ab72, 0x8cc702081a6439ec)
    case 15 => Four(0x90befffa23631e28, 0xa4506cebde82bde9, 0xbef9a3f7b2c67915, 0xc67178f2e372532b)
    case 16 => Four(0xca273eceea26619c, 0xd186b8c721c0c207, 0xeada7dd6cde0eb1e, 0xf57d4f7fee6ed178)
    case 17 => Four(0x06f067aa72176fba, 0x0a637dc5a2c898a6, 0x113f9804bef90dae, 0x1b710b35131c471b)
    case 18 => Four(0x28db77f523047d84, 0x32caab7b40c72493, 0x3c9ebe0a15c9bebc, 0x431d67c49c100d4c)
    case _ => Four(0x4cc5d4becb3e42b6, 0x597f299cfc657e2a, 0x5fcb6fab3ad6faec, 0x6c44198c4a475817)
  }

  function K(t: nat): nat
    requires t < 80
  {
    KRow(t / 4).At(t % 4)
  }

  function Constant(t: nat): Word
    requires t < 80
  {
    FromNat(K(t))
  }

  /** The eight working variables. */
  datatype Regs = Regs(a: Word, b: Word, c: Word, d: Word, e: Word, f: Word, g: Word, h: Word)

  type Block = b: seq<Byte> | |b| == 128 witness seq(128, _ => seq(8, _ => false))

  /** Word t of the message schedule. */
  function Schedule(block: Block, t: nat): Word {
    if t < 16 then LoadBE(block[8 * t..8 * t + 8])
    else Add(Add(Add(SmallSigma1(Schedule(block, t - 2)), Schedule(block, t - 7)),
                 SmallSigma0(Schedule(block, t - 15))), Schedule(block, t - 16))
  }

  function Round(r: Regs, k: Word, w: Word): Regs {
    var t1 := Add(Add(Add(Add(r.h, BigSigma1(r.e)), Ch(r.e, r.f, r.g)), k), w);
    var t2 := Add(BigSigma0(r.a), Maj(r.a, r.b, r.c));
    Regs(Add(t1, t2), r.a, r.b, r.c, Add(r.d, t1), r.e, r.f, r.g)
  }

  /** The first t rounds. */
  function Rounds(r: Regs, block: Block, t: nat): Regs
    requires t <= 80
  {
    if t == 0 then r else Round(Rounds(r, block, t - 1), Constant(t - 1), Schedule(block, t - 1))
  }

  function AddRegs(r: Regs, s: Regs): Regs {
    Regs(Add(r.a, s.a), Add(r.b, s.b), Add(r.c, s.c), Add(r.d, s.d),
         Add(r.e, s.e), Add(r.f, s.f), Add(r.g, s.g), Add(r.h, s.h))
  }

  /** The next hash value. */
  function Compress(h: Regs, block: Block): Regs { AddRegs(h, Rounds(h, block, 80)) }

  function Initial(): Regs {
    Regs(FromNat(0x6a09e667f3bcc908), FromNat(0xbb67ae8584caa73b), FromNat(0x3c6ef372fe94f82b),
         FromNat(0xa54ff53a5f1d36f1), FromNat(0x510e527fade682d1), FromNat(0x9b05688c2b3e6c1f),
         FromNat(0x1f83d9abfb41bd6b), FromNat(0x5be0cd19137e2179))
  }
}
