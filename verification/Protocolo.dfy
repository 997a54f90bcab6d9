/**
 The wire codecs: checksum, Contact-ID and BCD numbers, big-endian words
 and ISECNet2 packets.
 */
module Protocolo {
  import opened Octetos

  // ---------------------------------------------------------------- Checksum

  /** Exclusive-or of every octet, complemented. */
  function Checksum(dados: bytes): byte {
    Xor(XorAll(dados), 0xff)
  }

  method CalculaChecksum(dados: bytes) returns (chksum: byte)
    ensures chksum == Checksum(dados)
  {
    chksum := 0;
    for i := 0 to |dados|
      invariant chksum == XorAll(dados[..i])
    {
      assert dados[..i + 1][..i] == dados[..i];
      chksum := Xor(chksum, dados[i]);
    }
    assert dados[..|dados|] == dados;
    chksum := Xor(chksum, 0xff);
  }

  /** A bit is set in the checksum exactly when an even number of the octets have it. */
  lemma BitDoChecksum(dados: bytes, j: nat)
    requires j < 8
    ensures Bit(Checksum(dados) as nat, j) <==> ComBit(dados, j) % 2 == 0
  {
    BitDoXorAll(dados, j);
    BitDoXor(XorAll(dados) as nat, 0xff, j);
    TodosOsBits(j);
  }

  lemma {:induction false} TodosOsBits(j: nat)
    requires j < 8
    ensures Bit(0xff, j)
  {
    assert Bit(0x01, 0) && Bit(0x03, 1) && Bit(0x07, 2) && Bit(0x0f, 3);
    assert Bit(0x1f, 4) && Bit(0x3f, 5) && Bit(0x7f, 6) && Bit(0xff, 7);
    assert Bit(0x0f, 0) && Bit(0x1f, 1) && Bit(0x3f, 2) && Bit(0x7f, 3);
    assert Bit(0x7f, 0) && Bit(0x7f, 1) && Bit(0x7f, 2) && Bit(0x7f, 4) && Bit(0x7f, 5);
  }

  lemma ZeroChecksum(dados: bytes)
    ensures Checksum(dados) == 0 <==> XorAll(dados) == 0xff
  {
    XorMove(XorAll(dados), 0xff, 0);
    XorGrupo(XorAll(dados), 0, 0);
  }

  /** A string followed by one octet has checksum zero exactly when that octet is its checksum. */
  lemma ChecksumSela(dados: bytes, c: byte)
    ensures Checksum(dados + [c]) == 0 <==> c == Checksum(dados)
  {
    assert (dados + [c])[..|dados|] == dados;
    ZeroChecksum(dados + [c]);
    XorMove(XorAll(dados), c, 0xff);
  }

  /** No single wrong octet goes unnoticed. */
  lemma ChecksumDetecta(dados: bytes, i: nat, b: byte)
    requires i < |dados| && b != dados[i] && Checksum(dados) == 0
    ensures Checksum(dados[i := b]) != 0
  {
    XorAllUpdate(dados, i, b);
    ZeroChecksum(dados);
    ZeroChecksum(dados[i := b]);
    XorMove(0xff, Xor(dados[i], b), 0xff);
    XorGrupo(0xff, 0, 0);
    XorMove(dados[i], b, 0);
    XorGrupo(dados[i], 0, 0);
  }

  // -------------------------------------------------------------- Contact-ID

  function Pow10(n: nat): (p: nat)
    ensures p > 0
  {
    if n == 0 then 1 else 10 * Pow10(n - 1)
  }

  predicate DigitoValido(d: byte) { 0x01 <= d <= 0x0a }

  predicate DigitosValidos(dados: bytes) {
    forall i :: 0 <= i < |dados| ==> DigitoValido(dados[i])
  }

  /** The octet 0x0a stands for the digit zero. */
  function Digito(d: byte): nat { if d == 0x0a then 0 else d as nat }

  /** Decimal value, most significant digit first. */
  function NumeroContactID(dados: bytes): nat {
    if dados == [] then 0
    else 10 * NumeroContactID(dados[..|dados| - 1]) + Digito(dados[|dados| - 1])
  }

  /** What decoding returns: the number, or -1 when some octet is not a digit. */
  function ContactID(dados: bytes): int {
    if DigitosValidos(dados) then NumeroContactID(dados) else -1
  }

  lemma {:induction false} NumeroDesdeOMaisSignificativo(d: byte, dados: bytes)
    ensures NumeroContactID([d] + dados) == Digito(d) * Pow10(|dados|) + NumeroContactID(dados)
  {
    if dados == [] {
      assert ([d] + dados)[..0] == [];
    } else {
      var ini := dados[..|dados| - 1];
      NumeroDesdeOMaisSignificativo(d, ini);
      assert ([d] + dados)[..|dados|] == [d] + ini;
      MulTen(Digito(d), Pow10(|ini|));
    }
  }

  lemma MulTen(a: nat, b: nat) ensures 10 * (a * b) == a * (10 * b) {}

  lemma MulZero(a: int) ensures a * 0 == 0 {}

  lemma MulComm(a: int, b: int) ensures a * b == b * a {}

  method ContactIDDecode(dados: bytes) returns (numero: int, ok: bool)
    ensures numero == ContactID(dados) && ok == (numero >= 0)
  {
    numero, ok := 0, true;
    var posicao := 1;
    for i := 0 to |dados|
      invariant DigitosValidos(dados[|dados| - i..])
      invariant numero == NumeroContactID(dados[|dados| - i..])
      invariant posicao == Pow10(i) && ok
    {
      var digito := dados[|dados| - 1 - i];
      ghost var lidos := dados[|dados| - i..];
      assert dados[|dados| - 1 - i..] == [digito] + lidos;
      if digito == 0x0a {
        // a zero
        MulZero(posicao);
      } else if 0x01 <= digito <= 0x09 {
        numero := numero + posicao * digito as int;
      } else {
        assert !DigitoValido(dados[|dados| - 1 - i]);
        return -1, false;
      }
      NumeroDesdeOMaisSignificativo(digito, lidos);
      MulComm(Digito(digito), posicao);
      posicao := posicao * 10;
    }
    assert dados[0..] == dados;
  }

  function Abs(n: int): nat { if n < 0 then -n else n }

  /** The last `length` decimal digits of n, most significant first. */
  function DigitosContactID(n: nat, length: nat): (dados: bytes)
    ensures |dados| == length
  {
    if length == 0 then []
    else DigitosContactID(n / 10, length - 1) + [if n % 10 == 0 then 0x0a else (n % 10) as byte]
  }

  method ContactIDEncode(number: int, length: nat) returns (dados: array<byte>)
    ensures fresh(dados) && dados[..] == DigitosContactID(Abs(number), length)
  {
    dados := new byte[length];
    var n := number;
    if n < 0 {
      n := -n;
    }
    for i := 0 to length
      invariant n >= 0
      invariant DigitosContactID(Abs(number), length) == DigitosContactID(n, length - i) + dados[length - i..]
    {
      ghost var feitos := dados[length - i..];
      var digit := n % 10;
      n := n / 10;
      if digit == 0 {
        digit := 0x0a;
      }
      dados[length - 1 - i] := digit as byte;
      assert dados[length - 1 - i..] == [digit as byte] + feitos;
    }
    assert dados[0..] == dados[..];
  }

  lemma ModTen(n: nat, m: nat)
    requires m > 0
    ensures n % (10 * m) == 10 * ((n / 10) % m) + n % 10
  {
    var q := n / 10;
    var r := 10 * (q % m) + n % 10;
    assert q == m * (q / m) + q % m;
    ModUnique(n, 10 * m, q / m, r) by {
      assert 10 * (m * (q / m)) == (10 * m) * (q / m);
    }
  }

  lemma ModUnique(n: nat, m: nat, a: nat, r: nat)
    requires m > 0 && r < m && n == m * a + r
    ensures n % m == r
  {
    var k := n / m - a;
    assert m * k == r - n % m by {
      assert n == m * (n / m) + n % m;
      assert m * (n / m) - m * a == m * k;
    }
    NoSmallMultiple(m, k);
  }

  lemma NoSmallMultiple(m: int, k: int)
    requires 0 < m && -m < m * k < m
    ensures k == 0
  {
    if k >= 1 {
      MulAtLeast(m, k);
    } else if k <= -1 {
      MulAtLeast(m, -k);
    }
  }

  lemma MulAtLeast(m: int, k: int)
    requires k >= 1 && m >= 0
    ensures m * k >= m && m * -k <= -m
  {
    assert m * k == m + m * (k - 1);
  }

  /** Encoding then decoding keeps the number modulo a power of ten. */
  lemma {:induction false} ContactIDIdaEVolta(number: int, length: nat)
    ensures ContactID(DigitosContactID(Abs(number), length)) == Abs(number) % Pow10(length)
    decreases length
  {
    var n := Abs(number);
    if length != 0 {
      ContactIDIdaEVolta(n / 10, length - 1);
      AcrescentaDigito(DigitosContactID(n / 10, length - 1), if n % 10 == 0 then 0x0a else (n % 10) as byte);
      ModTen(n, Pow10(length - 1));
    }
  }

  lemma AcrescentaDigito(dados: bytes, d: byte)
    requires DigitosValidos(dados) && DigitoValido(d)
    ensures ContactID(dados + [d]) == 10 * ContactID(dados) + Digito(d)
  {
    assert (dados + [d])[..|dados|] == dados;
  }

  /** Decoding then encoding gives back the very octets, and only digit strings decode. */
  lemma {:induction false} ContactIDVoltaEIda(dados: bytes)
    ensures ContactID(dados) >= 0 <==> DigitosValidos(dados)
    ensures DigitosValidos(dados) ==> DigitosContactID(ContactID(dados), |dados|) == dados
  {
    if DigitosValidos(dados) && dados != [] {
      var ini := dados[..|dados| - 1];
      ContactIDVoltaEIda(ini);
      assert dados == ini + [dados[|dados| - 1]];
    }
  }

  // --------------------------------------------------------------------- BCD

  /** One or two decimal digits in one octet; zero when out of range. */
  function BCD(n: int): byte {
    if n > 99 || n < 0 then 0 else ((n / 10) * 16 + n % 10) as byte
  }

  predicate Decimal(b: byte) { b as int / 16 <= 9 && b as int % 16 <= 9 }

  predicate Decimais(dados: bytes) {
    forall i :: 0 <= i < |dados| ==> Decimal(dados[i])
  }

  /** Base-100 value of the octets, reading each as two nibbles. */
  function NumeroBCD(dados: bytes): nat {
    if dados == [] then 0
    else
      var b := dados[|dados| - 1] as int;
      100 * NumeroBCD(dados[..|dados| - 1]) + 10 * (b / 16) + b % 16
  }

  function Pow100(n: nat): nat { if n == 0 then 1 else 100 * Pow100(n - 1) }

  lemma {:induction false} BCDDesdeOMaisSignificativo(d: byte, dados: bytes)
    ensures NumeroBCD([d] + dados) == (10 * (d as int / 16) + d as int % 16) * Pow100(|dados|) + NumeroBCD(dados)
  {
    if dados == [] {
      assert ([d] + dados)[..0] == [];
    } else {
      var ini := dados[..|dados| - 1];
      BCDDesdeOMaisSignificativo(d, ini);
      assert ([d] + dados)[..|dados|] == [d] + ini;
      MulHundred(10 * (d as int / 16) + d as int % 16, Pow100(|ini|));
    }
  }

  lemma MulHundred(a: nat, b: nat) ensures 100 * (a * b) == a * (100 * b) {}

  method FromBCD(dados: bytes) returns (numero: int, ok: bool)
    ensures ok <==> Decimais(dados)
    ensures numero == if ok then NumeroBCD(dados) else 0
  {
    numero, ok := 0, true;
    var posicao := 1;
    for i := 0 to |dados|
      invariant Decimais(dados[|dados| - i..])
      invariant numero == NumeroBCD(dados[|dados| - i..])
      invariant posicao == Pow100(i) && ok
    {
      var b := dados[|dados| - 1 - i];
      var nibble1, nibble2 := b as int / 16, b as int % 16;
      assert dados[|dados| - 1 - i..] == [b] + dados[|dados| - i..];
      if nibble1 > 9 || nibble2 > 9 {
        assert !Decimal(dados[|dados| - 1 - i]);
        return 0, false;
      }
      BCDDesdeOMaisSignificativo(b, dados[|dados| - i..]);
      BCDPosicoes(nibble1, nibble2, posicao);
      numero := numero + nibble1 * 10 * posicao;
      numero := numero + nibble2 * posicao;
      posicao := posicao * 100;
    }
    assert dados[0..] == dados;
  }

  lemma BCDPosicoes(hi: int, lo: int, p: int)
    ensures hi * 10 * p + lo * p == (10 * hi + lo) * p
  {}

  lemma NumeroDeUmOcteto(b: byte)
    ensures NumeroBCD([b]) == 10 * (b as int / 16) + b as int % 16
  {
    assert [b][..0] == [];
  }

  /** A number read back from its BCD octet is itself from 0 to 99, and zero elsewhere. */
  lemma BCDIdaEVolta(n: int)
    ensures Decimal(BCD(n)) && NumeroBCD([BCD(n)]) == if 0 <= n <= 99 then n else 0
  {
    NumeroDeUmOcteto(BCD(n));
  }

  /** An octet is the BCD of its own number exactly when both nibbles are decimal digits. */
  lemma BCDVoltaEIda(b: byte)
    ensures Decimal(b) <==> BCD(NumeroBCD([b])) == b
  {
    NumeroDeUmOcteto(b);
  }

  // -------------------------------------------------------- Big-endian words

  /** Two octets, each truncated to eight bits. */
  function BE16(n: nat): (dados: bytes)
    ensures |dados| == 2
  {
    [((n / 256) % 256) as byte, (n % 256) as byte]
  }

  function ParseBE16(dados: bytes): nat
    requires |dados| >= 2
  {
    dados[0] as nat * 256 + dados[1] as nat
  }

  lemma BE16IdaEVolta(n: nat, resto: bytes)
    ensures ParseBE16(BE16(n) + resto) == n % 65536
  {
    assert (BE16(n) + resto)[0] == BE16(n)[0] && (BE16(n) + resto)[1] == BE16(n)[1];
  }

  // ---------------------------------------------------------------- ISECNet2

  datatype Mensagem = Mensagem(cmd: nat, payload: bytes)

  function Cabecalho(m: Mensagem): (h: bytes)
    ensures |h| == 8
  {
    BE16(0x0000) + BE16(0x8fff) + BE16(|m.payload| + 2) + BE16(m.cmd)
  }

  function PacoteIsecNet2(m: Mensagem): (pct: bytes)
    ensures |pct| == 9 + |m.payload|
  {
    var pacote := Cabecalho(m) + m.payload;
    pacote + [Checksum(pacote)]
  }

  function PacoteIsecNet2Auth(senha: int, tamanho: nat): bytes {
    PacoteIsecNet2(Mensagem(0xf0f0, [0x02] + DigitosContactID(Abs(senha), tamanho) + [0x10]))
  }

  function PacoteIsecNet2Bye(): bytes { PacoteIsecNet2(Mensagem(0xf0f1, [])) }

  /** Length of the packet at the head of the buffer, or 0 when it is not all there. */
  function PacoteIsecNet2Completo(dados: bytes): (n: nat)
    ensures n <= |dados|
    ensures n != 0 ==> n >= 7 && |dados| >= 9
  {
    if |dados| < 9 then 0
    else
      var comprimento := 6 + ParseBE16(dados[4..6]) + 1;
      if |dados| < comprimento then 0 else comprimento
  }

  predicate PacoteIsecNet2Correto(pct: bytes)
    requires |pct| >= 6
  {
    ParseBE16(pct[4..6]) >= 2 && Checksum(pct) == 0
  }

  function PacoteIsecNet2Parse(pct: bytes): Mensagem
    requires |pct| >= 8 && ParseBE16(pct[4..6]) >= 2
    requires |pct| >= 6 + ParseBE16(pct[4..6])
  {
    Mensagem(ParseBE16(pct[6..8]), pct[8..6 + ParseBE16(pct[4..6])])
  }

  /** A message whose command and length fit their 16-bit fields. */
  predicate Representavel(m: Mensagem) { m.cmd < 65536 && |m.payload| < 65534 }

  lemma CamposDoPacote(m: Mensagem, resto: bytes)
    ensures var s := PacoteIsecNet2(m) + resto;
            && ParseBE16(s[4..6]) == (|m.payload| + 2) % 65536
            && ParseBE16(s[6..8]) == m.cmd % 65536
  {
    var s := PacoteIsecNet2(m) + resto;
    assert s[4..6] == BE16(|m.payload| + 2) + [];
    assert s[6..8] == BE16(m.cmd) + [];
    BE16IdaEVolta(|m.payload| + 2, []);
    BE16IdaEVolta(m.cmd, []);
  }

  /** The declared length is the true one exactly when the payload fits the length field. */
  lemma PacoteCompletoSse(m: Mensagem, resto: bytes)
    ensures PacoteIsecNet2Completo(PacoteIsecNet2(m) + resto) == |PacoteIsecNet2(m)| <==> |m.payload| < 65534
  {
    CamposDoPacote(m, resto);
  }

  lemma PacoteCorretoEParse(m: Mensagem)
    requires Representavel(m)
    ensures ParseBE16(PacoteIsecNet2(m)[4..6]) == |m.payload| + 2
    ensures PacoteIsecNet2Correto(PacoteIsecNet2(m))
    ensures PacoteIsecNet2Parse(PacoteIsecNet2(m)) == m
  {
    CamposExatos(m);
    ChecksumSela(Cabecalho(m) + m.payload, Checksum(Cabecalho(m) + m.payload));
  }

  lemma CamposExatos(m: Mensagem)
    requires Representavel(m)
    ensures var pct := PacoteIsecNet2(m);
            && ParseBE16(pct[4..6]) == |m.payload| + 2
            && ParseBE16(pct[6..8]) == m.cmd
            && pct[8..8 + |m.payload|] == m.payload
  {
    assert PacoteIsecNet2(m) + [] == PacoteIsecNet2(m);
    CamposDoPacote(m, []);
  }

  /** No proper prefix of a packet looks complete. */
  lemma PrefixoIncompleto(m: Mensagem, k: nat)
    requires Representavel(m) && k < |PacoteIsecNet2(m)|
    ensures PacoteIsecNet2Completo(PacoteIsecNet2(m)[..k]) == 0
  {
    var pct := PacoteIsecNet2(m);
    if k >= 9 {
      CamposExatos(m);
      FatiaDoPrefixo(pct, k, 4, 6);
    }
  }

  lemma FatiaDoPrefixo(s: bytes, k: nat, a: nat, b: nat)
    requires a <= b <= k <= |s|
    ensures s[..k][a..b] == s[a..b]
  {}

  /** One altered octet anywhere in a packet makes the correctness test fail. */
  lemma PacoteAlteradoIncorreto(m: Mensagem, i: nat, b: byte)
    requires Representavel(m) && i < |PacoteIsecNet2(m)| && b != PacoteIsecNet2(m)[i]
    ensures !PacoteIsecNet2Correto(PacoteIsecNet2(m)[i := b])
  {
    PacoteCorretoEParse(m);
    ChecksumDetecta(PacoteIsecNet2(m), i, b);
  }

  /** A complete and correct packet at the head of the buffer. */
  predicate CabecaBoa(fluxo: bytes) {
    var n := PacoteIsecNet2Completo(fluxo);
    n != 0 && PacoteIsecNet2Correto(fluxo[..n])
  }

  /** The message in the packet at the head of the buffer. */
  function Cabeca(fluxo: bytes): Mensagem
    requires CabecaBoa(fluxo)
  {
    var pct := fluxo[..PacoteIsecNet2Completo(fluxo)];
    assert pct[4..6] == fluxo[4..6];
    PacoteIsecNet2Parse(pct)
  }

  /** The messages of a stream: good packets cut off its head for as long as there are any. */
  function Mensagens(fluxo: bytes): seq<Mensagem> {
    if !CabecaBoa(fluxo) then []
    else [Cabeca(fluxo)] + Mensagens(fluxo[PacoteIsecNet2Completo(fluxo)..])
  }

  function SobraDeMensagens(fluxo: bytes): bytes {
    if !CabecaBoa(fluxo) then fluxo else SobraDeMensagens(fluxo[PacoteIsecNet2Completo(fluxo)..])
  }

  /** The packet at the head depends only on its own octets. */
  lemma CabecaEstavel(a: bytes, b: bytes)
    requires PacoteIsecNet2Completo(a) != 0
    ensures PacoteIsecNet2Completo(a + b) == PacoteIsecNet2Completo(a)
    ensures CabecaBoa(a + b) == CabecaBoa(a) && (CabecaBoa(a) ==> Cabeca(a + b) == Cabeca(a))
  {
    var n := PacoteIsecNet2Completo(a);
    assert (a + b)[4..6] == a[4..6];
    assert (a + b)[..n] == a[..n];
  }

  /** More bytes never change the messages already cut off. */
  lemma {:induction false} MensagensConcat(a: bytes, b: bytes)
    ensures Mensagens(a + b) == Mensagens(a) + Mensagens(SobraDeMensagens(a) + b)
    ensures SobraDeMensagens(a + b) == SobraDeMensagens(SobraDeMensagens(a) + b)
    decreases |a|
  {
    hide PacoteIsecNet2Completo, CabecaBoa, Cabeca;
    if CabecaBoa(a) {
      var n := PacoteIsecNet2Completo(a);
      CabecaBoaTemPacote(a);
      CabecaEstavel(a, b);
      assert (a + b)[n..] == a[n..] + b;
      MensagensConcat(a[n..], b);
    }
  }

  lemma CabecaBoaTemPacote(fluxo: bytes)
    requires CabecaBoa(fluxo)
    ensures var n := PacoteIsecNet2Completo(fluxo);
            n >= 9 && n == 7 + ParseBE16(fluxo[..n][4..6])
  {
    assert fluxo[..PacoteIsecNet2Completo(fluxo)][4..6] == fluxo[4..6];
  }

  /** The messages of a single good packet. */
  lemma MensagensDeUmPacote(fluxo: bytes)
    requires CabecaBoa(fluxo)
    ensures var pct := fluxo[..PacoteIsecNet2Completo(fluxo)];
            Mensagens(pct) == [Cabeca(fluxo)] && SobraDeMensagens(pct) == []
  {
    var n := PacoteIsecNet2Completo(fluxo);
    var pct := fluxo[..n];
    assert pct + fluxo[n..] == fluxo && pct[4..6] == fluxo[4..6];
    assert PacoteIsecNet2Completo(pct) == n;
    CabecaEstavel(pct, fluxo[n..]);
    assert pct[n..] == [] && !CabecaBoa([]);
  }

  function Empacota(ms: seq<Mensagem>): bytes {
    if ms == [] then [] else PacoteIsecNet2(ms[0]) + Empacota(ms[1..])
  }

  lemma CabecaDoPacote(m: Mensagem, cauda: bytes)
    requires Representavel(m)
    ensures var fluxo := PacoteIsecNet2(m) + cauda;
            && PacoteIsecNet2Completo(fluxo) == |PacoteIsecNet2(m)|
            && CabecaBoa(fluxo) && Cabeca(fluxo) == m
            && fluxo[PacoteIsecNet2Completo(fluxo)..] == cauda
  {
    var pct := PacoteIsecNet2(m);
    PacoteCompletoSse(m, cauda);
    assert (pct + cauda)[..|pct|] == pct && (pct + cauda)[|pct|..] == cauda;
    PacoteCorretoEParse(m);
  }

  /** Any list of packets followed by a cut-short one splits back into exactly that list. */
  lemma {:induction false} MensagensDosPacotes(ms: seq<Mensagem>, ultima: Mensagem, k: nat)
    requires forall i :: 0 <= i < |ms| ==> Representavel(ms[i])
    requires Representavel(ultima) && k < |PacoteIsecNet2(ultima)|
    ensures Mensagens(Empacota(ms) + PacoteIsecNet2(ultima)[..k]) == ms
    ensures SobraDeMensagens(Empacota(ms) + PacoteIsecNet2(ultima)[..k]) == PacoteIsecNet2(ultima)[..k]
  {
    hide PacoteIsecNet2, PacoteIsecNet2Completo, Cabeca;
    var parcial := PacoteIsecNet2(ultima)[..k];
    if ms == [] {
      assert Empacota(ms) + parcial == parcial;
      PrefixoIncompleto(ultima, k);
    } else {
      var cauda := Empacota(ms[1..]) + parcial;
      MensagensDosPacotes(ms[1..], ultima, k);
      CabecaDoPacote(ms[0], cauda);
      ConcatAssoc(PacoteIsecNet2(ms[0]), Empacota(ms[1..]), parcial);
    }
  }
}
