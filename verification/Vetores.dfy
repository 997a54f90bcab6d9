/**
 Octets written out: what the codecs give on the inputs that the repository's
 own tests use, and for the one message whose layout no test writes down.
 */
module Vetores {
  import opened Octetos
  import opened Protocolo
  import opened Quadros

  lemma Xor7401() ensures XorNat(0x74, 0x01) == 0x75 { XorNatSelf(58); }

  lemma Xor7535() ensures XorNat(0x75, 0x35) == 0x40 { assert XorNat(14, 6) == 8; }

  lemma Xor4050() ensures XorNat(0x40, 0x50) == 0x10 { assert XorNat(8, 10) == 2; }

  lemma Xor1026() ensures XorNat(0x10, 0x26) == 0x36 { assert XorNat(4, 9) == 13; }

  lemma Xor36ff() ensures XorNat(0x36, 0xff) == 201 { assert XorNat(6, 31) == 25; }

  /** The checksum test. */
  lemma ChecksumDoTeste()
    ensures Checksum([0x74, 0x01, 0x35, 0x50, 0x26]) == 201
  {
    hide XorNat;
    Xor7401();
    Xor7535();
    Xor4050();
    Xor1026();
    Xor36ff();
    var s: bytes := [0x74, 0x01, 0x35, 0x50, 0x26];
    XorNatSelf(0x74);
    XorNatComm(0, 0x74);
    assert XorAll([0x74]) == 0x74 by { assert XorAll([]) == 0; }
    assert s[..1] == [0x74] && s[..2][..1] == s[..1] && s[..3][..2] == s[..2] && s[..4][..3] == s[..3];
    assert XorAll(s[..2]) == 0x75;
    assert XorAll(s[..3]) == 0x40;
    assert XorAll(s[..4]) == 0x10;
  }

  /** The Contact-ID tests. */
  lemma ContactIDDoTeste()
    ensures ContactID([0x01, 0x0a, 0x03]) == 103 && ContactID([0x0a, 0x0a, 0x03]) == 3
    ensures ContactID([0x0a, 0x0b, 0x03]) == -1 && ContactID([0x0a, 0x00, 0x03]) == -1
    ensures DigitosContactID(103, 3) == [0x01, 0x0a, 0x03]
  {
    assert ContactID([0x01]) == 1 && ContactID([0x0a]) == 0 by {
      var um, zero: bytes := [0x01], [0x0a];
      assert um[..0] == [] && zero[..0] == [];
    }
    AcrescentaDigito([0x01], 0x0a);
    AcrescentaDigito([0x0a], 0x0a);
    assert [0x01 as byte] + [0x0a] == [0x01, 0x0a] && [0x0a as byte] + [0x0a] == [0x0a, 0x0a];
    AcrescentaDigito([0x01, 0x0a], 0x03);
    AcrescentaDigito([0x0a, 0x0a], 0x03);
    assert [0x01 as byte, 0x0a] + [0x03] == [0x01, 0x0a, 0x03] && [0x0a as byte, 0x0a] + [0x03] == [0x0a, 0x0a, 0x03];
    var mau, nulo: bytes := [0x0a, 0x0b, 0x03], [0x0a, 0x00, 0x03];
    assert !DigitoValido(mau[1]) && !DigitoValido(nulo[1]);
  }

  /** The BCD tests. */
  lemma BCDDoTeste()
    ensures BCD(89) == 0x89 && BCD(120) == 0
    ensures NumeroBCD([0x89]) == 89 && NumeroBCD([0x89, 0x01]) == 8901 && !Decimais([0xee])
  {
    var mau: bytes := [0xee];
    assert !Decimal(mau[0]);
  }

  /** A packet is its eight octets of header, its payload and its checksum. */
  lemma PacotePorExtenso(m: Mensagem)
    requires |m.payload| < 254 && m.cmd < 65536
    ensures var v: bytes := [0, 0, 143, 255, 0, (|m.payload| + 2) as byte, (m.cmd / 256) as byte, (m.cmd % 256) as byte]
                            + m.payload;
            PacoteIsecNet2(m) == v + [Checksum(v)]
  {
    hide Checksum;
    assert Cabecalho(m)
        == [0, 0, 143, 255, 0, (|m.payload| + 2) as byte, (m.cmd / 256) as byte, (m.cmd % 256) as byte];
  }

  /** The packet tests. */
  lemma PacoteDoTeste()
    ensures var v: bytes := [0, 0, 143, 255, 0, 4, 202, 254, 186, 190];
            PacoteIsecNet2(Mensagem(0xcafe, [0xba, 0xbe])) == v + [Checksum(v)]
  {
    hide Checksum, PacoteIsecNet2;
    PacotePorExtenso(Mensagem(0xcafe, [0xba, 0xbe]));
    assert [0, 0, 143, 255, 0, 4, 202, 254] + [186, 190] == [0, 0, 143, 255, 0, 4, 202, 254, 186, 190 as byte];
  }

  lemma AuthDoTeste()
    ensures var v: bytes := [0, 0, 143, 255, 0, 10, 240, 240, 2, 1, 2, 3, 4, 5, 6, 16];
            PacoteIsecNet2Auth(123456, 6) == v + [Checksum(v)]
  {
    hide Checksum, PacoteIsecNet2;
    assert DigitosContactID(123456, 6) == [1, 2, 3, 4, 5, 6];
    var payload: bytes := [2, 1, 2, 3, 4, 5, 6, 16];
    assert [2 as byte] + [1, 2, 3, 4, 5, 6] + [16] == payload;
    PacotePorExtenso(Mensagem(0xf0f0, payload));
    assert [0, 0, 143, 255, 0, 10, 240, 240] + payload
        == [0, 0, 143, 255, 0, 10, 240, 240, 2, 1, 2, 3, 4, 5, 6, 16 as byte];
  }

  lemma ByeDoTeste()
    ensures var v: bytes := [0, 0, 143, 255, 0, 2, 240, 241];
            PacoteIsecNet2Bye() == v + [Checksum(v)]
  {
    hide Checksum, PacoteIsecNet2;
    PacotePorExtenso(Mensagem(0xf0f1, []));
    assert [0, 0, 143, 255, 0, 2, 240, 241] + [] == [0, 0, 143, 255, 0, 2, 240, 241 as byte];
  }

  /** The date answer of Friday, 17 May 2024, 21:05:09. */
  lemma DataHoraEscrita()
    ensures var v: bytes := [8, 0x80, 0x24, 0x05, 0x17, 0x05, 0x21, 0x05, 0x09];
            RIPRespostaDataHora(DataHora(2024, 5, 17, 5, 21, 5, 9)).Encode() == v + [Checksum(v)]
    ensures RIPRespostaGenerica().Encode() == [0xfe]
  {
    hide Checksum;
    assert BCD(24) == 0x24 && BCD(5) == 0x05 && BCD(17) == 0x17 && BCD(21) == 0x21 && BCD(9) == 0x09;
    var corpo := RIPRespostaDataHora(DataHora(2024, 5, 17, 5, 21, 5, 9)).Payload;
    assert corpo == [0x80, 0x24, 0x05, 0x17, 0x05, 0x21, 0x05, 0x09];
    assert [8 as byte] + corpo == [8, 0x80, 0x24, 0x05, 0x17, 0x05, 0x21, 0x05, 0x09];
  }

  /** Numbers in digits, the zero as 0x0a. */
  lemma Digitos1234()
    ensures DigitosContactID(1234, 4) == [0x01, 0x02, 0x03, 0x04]
  {
    assert DigitosContactID(123, 3) == [0x01, 0x02, 0x03];
  }

  lemma Digitos130()
    ensures DigitosContactID(130, 3) == [0x01, 0x03, 0x0a]
  {}

  lemma Digitos5()
    ensures DigitosContactID(5, 3) == [0x0a, 0x0a, 0x05]
  {}

  lemma DigitosDeDois()
    ensures DigitosContactID(18, 2) == [0x01, 0x08] && DigitosContactID(1, 2) == [0x0a, 0x01]
  {}

  /** The fields of an alarm: channel, account 1234, type 18, qualifier 1, code 130, partition 1, zone 5. */
  lemma AlarmeEscrito()
    ensures Alarme(0x11, 1234, 18, 1, 130, 1, 5).Campos()
         == [0x11, 0x01, 0x02, 0x03, 0x04, 0x01, 0x08, 0x01, 0x01, 0x03, 0x0a, 0x0a, 0x01, 0x0a, 0x0a, 0x05]
  {
    hide DigitosContactID;
    Digitos1234();
    Digitos130();
    Digitos5();
    DigitosDeDois();
    assert Alarme(0x11, 1234, 18, 1, 130, 1, 5).Campos()
        == [0x11] + [0x01, 0x02, 0x03, 0x04] + [0x01, 0x08] + [1]
           + [0x01, 0x03, 0x0a] + [0x0a, 0x01] + [0x0a, 0x0a, 0x05];
  }

  /** With photos: length and type first, and after the fields the checksum, the index and the number of photos. */
  lemma AlarmeComFotosEscrito(a: Alarme, chk: byte)
    ensures QuadroComFotos(a, chk, 0x0102, 3) == [20, 0xb5] + a.Campos() + [chk, 0x01, 0x02, 3]
  {
    assert BE16(0x0102) == [0x01, 0x02];
  }
}
