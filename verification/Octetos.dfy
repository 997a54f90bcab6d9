/** Octets, octet strings, and the exclusive-or that checksums are made of. */
module Octetos {

  newtype byte = x: int | 0 <= x < 0x100

  type bytes = seq<byte>

  datatype Option<+T> = None | Some(value: T)

  // ------------------------------------------------------------ Exclusive-or

  /** Bitwise exclusive-or, lowest bit last. */
  function XorNat(a: nat, b: nat): nat {
    if a == 0 && b == 0 then 0 else 2 * XorNat(a / 2, b / 2) + Paridade(a, b)
  }

  lemma {:induction false} XorNatLimite(a: nat, b: nat, limite: nat)
    requires a < limite && b < limite && limite in {1, 2, 4, 8, 16, 32, 64, 128, 256}
    ensures XorNat(a, b) < limite
    decreases limite
  {
    if limite > 1 {
      XorNatLimite(a / 2, b / 2, limite / 2);
    }
  }

  function Xor(a: byte, b: byte): byte {
    XorNatLimite(a as nat, b as nat, 256);
    XorNat(a as nat, b as nat) as byte
  }

  function Paridade(a: nat, b: nat): nat { if a % 2 == b % 2 then 0 else 1 }

  lemma {:induction false} XorNatMetades(a: nat, b: nat)
    ensures XorNat(a, b) == 2 * XorNat(a / 2, b / 2) + Paridade(a, b)
    ensures XorNat(a, b) / 2 == XorNat(a / 2, b / 2) && XorNat(a, b) % 2 == Paridade(a, b)
  {}

  lemma {:induction false} XorNatAssoc(a: nat, b: nat, c: nat)
    ensures XorNat(XorNat(a, b), c) == XorNat(a, XorNat(b, c))
    decreases a + b + c
  {
    if a + b + c > 0 {
      XorNatAssoc(a / 2, b / 2, c / 2);
      var ab, bc := XorNat(a, b), XorNat(b, c);
      assert ab / 2 == XorNat(a / 2, b / 2) && ab % 2 == Paridade(a, b) by { XorNatMetades(a, b); }
      assert bc / 2 == XorNat(b / 2, c / 2) && bc % 2 == Paridade(b, c) by { XorNatMetades(b, c); }
      XorNatMetades(ab, c);
      XorNatMetades(a, bc);
    }
  }

  lemma {:induction false} XorNatComm(a: nat, b: nat)
    ensures XorNat(a, b) == XorNat(b, a)
    decreases a + b
  {
    if a + b > 0 {
      XorNatComm(a / 2, b / 2);
    }
  }

  lemma {:induction false} XorNatSelf(a: nat)
    ensures XorNat(a, a) == 0 && XorNat(a, 0) == a
  {
    if a > 0 {
      XorNatSelf(a / 2);
    }
  }

  /** Exclusive-or is a commutative group in which every octet is its own inverse. */
  lemma XorGrupo(a: byte, b: byte, c: byte)
    ensures Xor(Xor(a, b), c) == Xor(a, Xor(b, c))
    ensures Xor(a, b) == Xor(b, a)
    ensures Xor(a, a) == 0 && Xor(a, 0) == a
  {
    XorNatAssoc(a as nat, b as nat, c as nat);
    XorNatComm(a as nat, b as nat);
    XorNatSelf(a as nat);
  }

  /** An equation is solved by moving a term to the other side. */
  lemma XorMove(a: byte, b: byte, c: byte)
    ensures Xor(a, b) == c <==> b == Xor(a, c)
  {
    XorGrupo(a, a, b);
    XorGrupo(a, a, c);
    XorGrupo(b, 0, 0);
    XorGrupo(c, 0, 0);
    XorGrupo(0, b, 0);
    XorGrupo(0, c, 0);
  }

  /** Exclusive-or of all the octets of a string, taken from the left. */
  function XorAll(s: bytes): byte {
    if s == [] then 0 else Xor(XorAll(s[..|s| - 1]), s[|s| - 1])
  }

  /** Replacing one octet changes the exclusive-or by exactly the bits that differ. */
  lemma {:induction false} XorAllUpdate(s: bytes, i: nat, b: byte)
    requires i < |s|
    ensures XorAll(s[i := b]) == Xor(XorAll(s), Xor(s[i], b))
  {
    var n := |s| - 1;
    var t := s[i := b];
    var x := XorAll(s[..n]);
    if i == n {
      assert t[..n] == s[..n];
      XorGrupo(x, s[n], Xor(s[n], b));
      XorMove(s[n], Xor(s[n], b), b);
    } else {
      assert t[..n] == s[..n][i := b];
      XorAllUpdate(s[..n], i, b);
      XorGrupo(x, Xor(s[i], b), s[n]);
      XorGrupo(x, s[n], Xor(s[i], b));
      XorGrupo(Xor(s[i], b), s[n], 0);
    }
  }

  // ----------------------------------------------------------------- Bits

  /** Bit j, the least significant being bit 0: what masking with 1 << j tells. */
  predicate Bit(b: nat, j: nat)
    decreases j
  {
    if j == 0 then b % 2 == 1 else Bit(b / 2, j - 1)
  }

  function Pot2(m: nat): (p: nat)
    ensures p > 0
  {
    if m == 0 then 1 else 2 * Pot2(m - 1)
  }

  /** The number that the first m bits of b make. */
  function SomaDosBits(b: nat, m: nat): nat {
    if m == 0 then 0 else SomaDosBits(b, m - 1) + if Bit(b, m - 1) then Pot2(m - 1) else 0
  }

  lemma {:induction false} SomaDesdeOMenor(b: nat, m: nat)
    ensures SomaDosBits(b, m + 1) == b % 2 + 2 * SomaDosBits(b / 2, m)
  {
    if m > 0 {
      SomaDesdeOMenor(b, m - 1);
    }
  }

  /** A number of m bits is the sum of the powers of two of the bits it has. */
  lemma {:induction false} BitsSomam(b: nat, m: nat)
    requires b < Pot2(m)
    ensures SomaDosBits(b, m) == b
  {
    if m > 0 {
      BitsSomam(b / 2, m - 1);
      SomaDesdeOMenor(b, m - 1);
    }
  }

  /** Exclusive-or works on each bit alone. */
  lemma {:induction false} BitDoXor(a: nat, b: nat, j: nat)
    ensures Bit(XorNat(a, b), j) <==> Bit(a, j) != Bit(b, j)
    decreases j
  {
    XorNatMetades(a, b);
    if j > 0 {
      BitDoXor(a / 2, b / 2, j - 1);
    }
  }

  /** How many octets of a string have this bit. */
  function ComBit(s: bytes, j: nat): nat {
    if s == [] then 0 else ComBit(s[..|s| - 1], j) + if Bit(s[|s| - 1] as nat, j) then 1 else 0
  }

  lemma {:induction false} BitDoXorAll(s: bytes, j: nat)
    ensures Bit(XorAll(s) as nat, j) <==> ComBit(s, j) % 2 == 1
  {
    if s == [] {
      BitDoZero(j);
    } else {
      BitDoXorAll(s[..|s| - 1], j);
      BitDoXor(XorAll(s[..|s| - 1]) as nat, s[|s| - 1] as nat, j);
    }
  }

  lemma {:induction false} BitDoZero(j: nat)
    ensures !Bit(0, j)
  {
    if j > 0 {
      BitDoZero(j - 1);
    }
  }

  // ---------------------------------------------------------- Concatenation

  /** Octet string made of the given pieces, in order. */
  function Concat(ss: seq<bytes>): bytes {
    if ss == [] then [] else Concat(ss[..|ss| - 1]) + ss[|ss| - 1]
  }

  lemma ConcatAssoc(a: bytes, b: bytes, c: bytes)
    ensures (a + b) + c == a + (b + c)
  {}

  lemma ConcatOne(ss: seq<bytes>, s: bytes)
    ensures Concat(ss + [s]) == Concat(ss) + s
  {
    assert (ss + [s])[..|ss|] == ss;
  }
}
