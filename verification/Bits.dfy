/**
 The panel's bit masks (open zones, zones in alarm, sirens): each octet numbers
 eight consecutive items from its least significant bit, and the listing names
 the items whose bit is set, or clear.
 */
module Bits {

  import opened Octetos

  /** Whether item n, counted from 1, has its bit set. */
  predicate Ligado(octetos: bytes, n: nat)
    requires 1 <= n <= 8 * |octetos|
  {
    Bit(octetos[(n - 1) / 8] as nat, (n - 1) % 8)
  }

  predicate Crescente(ns: seq<nat>) {
    forall i, j :: 0 <= i < j < |ns| ==> ns[i] < ns[j]
  }

  /** In increasing order, each once, exactly the items up to `ate` whose bit is as asked. */
  predicate Listagem(octetos: bytes, inverso: bool, ate: nat, lista: seq<nat>)
    requires ate <= 8 * |octetos|
  {
    && Crescente(lista)
    && (forall k :: 0 <= k < |lista| ==> 1 <= lista[k] <= ate)
    && (forall n :: 1 <= n <= ate ==> (n in lista <==> Ligado(octetos, n) != inverso))
  }

  lemma ListagemMais(octetos: bytes, inverso: bool, ate: nat, lista: seq<nat>)
    requires ate < 8 * |octetos| && Listagem(octetos, inverso, ate, lista)
    ensures Listagem(octetos, inverso, ate + 1,
                     if Ligado(octetos, ate + 1) != inverso then lista + [ate + 1] else lista)
  {
    assert ate + 1 !in lista;
  }

  lemma ListagemVazia(octetos: bytes, inverso: bool)
    ensures Listagem(octetos, inverso, 0, [])
  {
  }

  method BitsParaNumeros(octetos: bytes, inverso: bool) returns (lista: seq<nat>)
    ensures Listagem(octetos, inverso, 8 * |octetos|, lista)
  {
    lista := [];
    ListagemVazia(octetos, inverso);
    hide Listagem, Bit;
    for i := 0 to |octetos|
      invariant Listagem(octetos, inverso, 8 * i, lista)
    {
      for j := 0 to 8
        invariant Listagem(octetos, inverso, 8 * i + j, lista)
      {
        ListagemMais(octetos, inverso, 8 * i + j, lista);
        var bit := Bit(octetos[i] as nat, j);
        if (bit && !inverso) || (!bit && inverso) {
          lista := lista + [1 + j + i * 8];
        }
      }
    }
  }

  /** Numbers of m bits, all the same, are the same number. */
  lemma BitsDeterminam(b: nat, c: nat, m: nat)
    requires b < Pot2(m) && c < Pot2(m)
    requires forall j :: 0 <= j < m ==> Bit(b, j) == Bit(c, j)
    ensures b == c
  {
    BitsSomam(b, m);
    BitsSomam(c, m);
    SomasIguais(b, c, m);
  }

  lemma {:induction false} SomasIguais(b: nat, c: nat, m: nat)
    requires forall j :: 0 <= j < m ==> Bit(b, j) == Bit(c, j)
    ensures SomaDosBits(b, m) == SomaDosBits(c, m)
  {
    if m > 0 {
      SomasIguais(b, c, m - 1);
    }
  }

  /** Nothing is lost in the listing: masks of one length that are listed alike are alike. */
  lemma ListagemFiel(a: bytes, b: bytes, inverso: bool, lista: seq<nat>)
    requires |a| == |b|
    requires Listagem(a, inverso, 8 * |a|, lista) && Listagem(b, inverso, 8 * |b|, lista)
    ensures a == b
  {
    forall i | 0 <= i < |a|
      ensures a[i] == b[i]
    {
      var x, y := a[i] as nat, b[i] as nat;
      forall j | 0 <= j < 8
        ensures Bit(x, j) == Bit(y, j)
      {
        var n := 8 * i + j + 1;
        assert n in lista <==> Ligado(a, n) != inverso;
        assert n in lista <==> Ligado(b, n) != inverso;
      }
      assert Pot2(8) == 256;
      BitsDeterminam(x, y, 8);
    }
  }

  /** One mask has one listing, so the method's result is determined. */
  lemma ListagemUnica(octetos: bytes, inverso: bool, ate: nat, x: seq<nat>, y: seq<nat>)
    requires ate <= 8 * |octetos| && Listagem(octetos, inverso, ate, x) && Listagem(octetos, inverso, ate, y)
    ensures x == y
  {
    CrescentesIguais(x, y);
  }

  lemma {:induction false} CrescentesIguais(x: seq<nat>, y: seq<nat>)
    requires Crescente(x) && Crescente(y) && forall n :: n in x <==> n in y
    ensures x == y
  {
    if x != [] || y != [] {
      NaoVazia(x, y);
      assert x[0] in y && y[0] in x;
      assert x[0] == y[0];
      forall n
        ensures n in x[1..] <==> n in y[1..]
      {
        assert n in x <==> n in [x[0]] + x[1..];
        assert n in y <==> n in [y[0]] + y[1..];
        assert x[0] !in x[1..] && y[0] !in y[1..];
      }
      CrescentesIguais(x[1..], y[1..]);
      assert x == [x[0]] + x[1..] && y == [y[0]] + y[1..];
    }
  }

  lemma NaoVazia(x: seq<nat>, y: seq<nat>)
    requires (x != [] || y != []) && forall n :: n in x <==> n in y
    ensures x != [] && y != []
  {
    var n := if x != [] then x[0] else y[0];
    assert n in x && n in y;
  }

  /** Octets 05 and 80 have items 1, 3 and 16, and lack the others. */
  lemma ListagemExemplo()
    ensures Listagem([0x05, 0x80], false, 16, [1, 3, 16])
    ensures Listagem([0x05], true, 8, [2, 4, 5, 6, 7, 8])
  {
    BitsDoExemplo();
    hide Bit;
  }

  lemma BitsDoExemplo()
    ensures Bit(5, 0) && !Bit(5, 1) && Bit(5, 2) && forall j :: 3 <= j < 8 ==> !Bit(5, j)
    ensures Bit(0x80, 7) && forall j :: 0 <= j < 7 ==> !Bit(0x80, j)
  {
    assert !Bit(5, 3) && !Bit(5, 4) && !Bit(5, 5) && !Bit(5, 6) && !Bit(5, 7);
    assert !Bit(0x80, 0) && !Bit(0x80, 1) && !Bit(0x80, 2) && !Bit(0x80, 3);
    assert !Bit(0x80, 4) && !Bit(0x80, 5) && !Bit(0x80, 6);
  }
}
