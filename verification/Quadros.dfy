/**
 RIP frames: encoding, extraction from the head of a buffer, the sequence of
 frames in a whole byte stream, and the messages carried inside them.
 */
module Quadros {
  import opened Octetos
  import opened Protocolo

  const HEARTBEAT: byte := 0xf7

  datatype PacoteRIP = PacoteRIP(Longo: bool, Tipo: int, Payload: bytes) {

    function Encode(): bytes {
      if Longo then
        var pacote := [(|Payload| % 256) as byte] + Payload;
        pacote + [Checksum(pacote)]
      else Payload
    }
  }

  /** The frame at the head of the buffer and the octets it takes; zero octets when there is none. */
  function ExtrairFrameRIP(buffer: bytes): (r: (PacoteRIP, nat))
    ensures r.1 <= |buffer|
  {
    if |buffer| < 1 then (PacoteRIP(false, 0, []), 0)
    else if buffer[0] == HEARTBEAT then (PacoteRIP(false, HEARTBEAT as int, buffer[0..1]), 1)
    else if |buffer| < 2 then (PacoteRIP(false, 0, []), 0)
    else
      var esperado := buffer[0] as nat + 2;
      if |buffer| < esperado then (PacoteRIP(false, 0, []), 0)
      else
        // a wrong checksum is only logged: some panels send one
        (PacoteRIP(true, buffer[1] as int, buffer[2..esperado]), esperado)
  }

  /** The octets at the head of the buffer decide it all: a heartbeat is 0xf7, anything else says its own length. */
  lemma QuadroPorExtenso(buffer: bytes)
    ensures var (p, n) := ExtrairFrameRIP(buffer);
            && (n > 0 <==> |buffer| > 0 && (buffer[0] == 0xf7 || |buffer| >= buffer[0] as int + 2))
            && (n > 0 && buffer[0] == 0xf7 ==> n == 1 && p == PacoteRIP(false, 0xf7, [0xf7]))
            && (n > 0 && buffer[0] != 0xf7 ==>
                  n == buffer[0] as int + 2 && p == PacoteRIP(true, buffer[1] as int, buffer[2..n]))
  {}

  /** A long frame of the given type and length is at the head of the buffer. */
  predicate NaFrente(buffer: bytes, tipo: byte) {
    |buffer| >= 2 && buffer[0] != 0xf7 && buffer[1] == tipo && |buffer| >= buffer[0] as int + 2
  }

  /** What is extracted depends only on the octets taken, never on what follows. */
  lemma ExtracaoEstavel(buffer: bytes, k: nat)
    requires k <= |buffer|
    ensures var (p, n) := ExtrairFrameRIP(buffer);
            && (0 < n <= k ==> ExtrairFrameRIP(buffer[..k]) == (p, n))
            && (n == 0 || k < n ==> ExtrairFrameRIP(buffer[..k]).1 == 0)
  {
    var n := ExtrairFrameRIP(buffer).1;
    if 0 < n <= k {
      assert buffer[..k][..1] == buffer[..1];
      assert n >= 2 ==> buffer[..k][2..n] == buffer[2..n];
    }
  }

  /** An encoded long frame is extracted whole exactly when its length octet can say so. */
  lemma EncodeExtrairSse(corpo: bytes, resto: bytes)
    ensures var e := PacoteRIP(true, 0, corpo).Encode();
            var (p, n) := ExtrairFrameRIP(e + resto);
            && (n == |e| <==> |corpo| <= 255 && |corpo| != 0xf7)
            && (n == |e| && corpo != [] ==> p == PacoteRIP(true, corpo[0] as int, corpo[1..] + [e[|e| - 1]]))
  {
    var e := PacoteRIP(true, 0, corpo).Encode();
    var s := e + resto;
    assert s[0] == (|corpo| % 256) as byte;
    if |corpo| <= 255 && |corpo| != 0xf7 && corpo != [] {
      assert s[2..|e|] == corpo[1..] + [e[|e| - 1]];
    }
  }

  // ------------------------------------------------------ Frames of a stream

  /** The frames of a stream, cut off one after another. */
  function Frames(fluxo: bytes): seq<PacoteRIP> {
    var (p, n) := ExtrairFrameRIP(fluxo);
    if n == 0 then [] else [p] + Frames(fluxo[n..])
  }

  /** The octets left over once every frame is cut off. */
  function Sobra(fluxo: bytes): bytes {
    var n := ExtrairFrameRIP(fluxo).1;
    if n == 0 then fluxo else Sobra(fluxo[n..])
  }

  /** Cutting frames early, before the rest of the stream arrives, changes nothing. */
  lemma {:induction false} FramesConcat(a: bytes, b: bytes)
    ensures Frames(a + b) == Frames(a) + Frames(Sobra(a) + b)
    ensures Sobra(a + b) == Sobra(Sobra(a) + b)
    decreases |a|
  {
    var (p, n) := ExtrairFrameRIP(a);
    if n != 0 {
      assert (a + b)[..|a|] == a;
      ExtracaoEstavel(a + b, |a|);
      assert (a + b)[n..] == a[n..] + b;
      FramesConcat(a[n..], b);
    }
  }

  /** The leftover is a suffix of the stream in which no frame is complete. */
  lemma {:induction false} SobraIncompleta(fluxo: bytes)
    ensures |Sobra(fluxo)| <= |fluxo| && fluxo[|fluxo| - |Sobra(fluxo)|..] == Sobra(fluxo)
    ensures ExtrairFrameRIP(Sobra(fluxo)).1 == 0
    ensures Frames(Sobra(fluxo)) == [] && Sobra(Sobra(fluxo)) == Sobra(fluxo)
    decreases |fluxo|
  {
    var n := ExtrairFrameRIP(fluxo).1;
    if n != 0 {
      SobraIncompleta(fluxo[n..]);
    }
  }

  /** A reader that keeps a buffer and cuts off every complete frame after each chunk. */
  function Leitor(pedacos: seq<bytes>): (seq<PacoteRIP>, bytes) {
    if pedacos == [] then ([], [])
    else
      var (antes, buffer) := Leitor(pedacos[..|pedacos| - 1]);
      var dados := buffer + pedacos[|pedacos| - 1];
      (antes + Frames(dados), Sobra(dados))
  }

  /** However a stream is split into chunks, the reader sees the frames of the whole stream. */
  lemma {:induction false} FramesIndependemDosPedacos(pedacos: seq<bytes>)
    ensures Leitor(pedacos) == (Frames(Concat(pedacos)), Sobra(Concat(pedacos)))
  {
    if pedacos != [] {
      var antes := pedacos[..|pedacos| - 1];
      FramesIndependemDosPedacos(antes);
      FramesConcat(Concat(antes), pedacos[|pedacos| - 1]);
    }
  }

  /** A body that a long frame can carry: its length octet is not zero, does not overflow, is not a heartbeat. */
  type Corpo = c: bytes | 1 <= |c| <= 255 && |c| != 0xf7 witness [0]

  /** The frame that a receiver makes of an encoded body: first octet the type, checksum kept at the end. */
  function QuadroDoCorpo(corpo: Corpo): PacoteRIP {
    PacoteRIP(true, corpo[0] as int, corpo[1..] + [Checksum([|corpo| as byte] + corpo)])
  }

  function Transmissao(corpos: seq<Corpo>): bytes {
    if corpos == [] then []
    else Transmissao(corpos[..|corpos| - 1]) + PacoteRIP(true, 0, corpos[|corpos| - 1]).Encode()
  }

  function QuadrosDosCorpos(corpos: seq<Corpo>): (ps: seq<PacoteRIP>)
    ensures |ps| == |corpos|
  {
    if corpos == [] then []
    else QuadrosDosCorpos(corpos[..|corpos| - 1]) + [QuadroDoCorpo(corpos[|corpos| - 1])]
  }

  /** Frames that the encoder produced, sent back to back, are all recovered in order. */
  lemma {:induction false} FramesDaTransmissao(corpos: seq<Corpo>)
    ensures Frames(Transmissao(corpos)) == QuadrosDosCorpos(corpos)
    ensures Sobra(Transmissao(corpos)) == []
  {
    if corpos != [] {
      var n := |corpos| - 1;
      FramesDaTransmissao(corpos[..n]);
      MaisUmQuadro(Transmissao(corpos[..n]), corpos[n]);
    }
  }

  lemma MaisUmQuadro(fluxo: bytes, corpo: Corpo)
    requires Sobra(fluxo) == []
    ensures Frames(fluxo + PacoteRIP(true, 0, corpo).Encode()) == Frames(fluxo) + [QuadroDoCorpo(corpo)]
    ensures Sobra(fluxo + PacoteRIP(true, 0, corpo).Encode()) == []
  {
    var e := PacoteRIP(true, 0, corpo).Encode();
    FramesConcat(fluxo, e);
    assert [] + e == e;
    ExtraiCodificado(corpo);
    assert e[|e|..] == [];
  }

  lemma ExtraiCodificado(corpo: Corpo)
    ensures var e := PacoteRIP(true, 0, corpo).Encode();
            e != [] && ExtrairFrameRIP(e) == (QuadroDoCorpo(corpo), |e|)
  {
    var e := PacoteRIP(true, 0, corpo).Encode();
    assert e + [] == e;
    EncodeExtrairSse(corpo, []);
  }

  // ------------------------------------------------------------ Date and time

  datatype DataHora = DataHora(ano: int, mes: int, dia: int, dow: int, hora: int, minuto: int, segundo: int) {

    predicate Calendario() {
      1 <= mes <= 12 && 1 <= dia <= 31 && 0 <= dow <= 6 && 0 <= hora <= 23 && 0 <= minuto <= 59 && 0 <= segundo <= 59
    }
  }

  /** What a clock can read. */
  type Instante = t: DataHora | t.Calendario() witness DataHora(2000, 1, 1, 6, 0, 0, 0)

  function RIPRespostaGenerica(): PacoteRIP { PacoteRIP(false, 0xfe, [0xfe]) }

  function RIPRespostaDataHora(t: DataHora): PacoteRIP {
    PacoteRIP(true, 0x80, [0x80, BCD(t.ano - 2000), BCD(t.mes), BCD(t.dia), BCD(t.dow),
                           BCD(t.hora), BCD(t.minuto), BCD(t.segundo)])
  }

  /** What a panel reads out of a date answer. */
  function LeDataHora(msg: bytes): DataHora
    requires |msg| == 8
  {
    DataHora(2000 + NumeroBCD(msg[0..1]), NumeroBCD(msg[1..2]), NumeroBCD(msg[2..3]), NumeroBCD(msg[3..4]),
             NumeroBCD(msg[4..5]), NumeroBCD(msg[5..6]), NumeroBCD(msg[6..7]))
  }

  /** The date answer reads back as the date sent, except that years outside 2000 to 2099 read as 2000. */
  lemma DataHoraIdaEVolta(t: DataHora, resto: bytes)
    requires t.Calendario()
    ensures var (p, n) := ExtrairFrameRIP(RIPRespostaDataHora(t).Encode() + resto);
            && n == 10 && p.Longo && p.Tipo == 0x80 && |p.Payload| == 8
            && LeDataHora(p.Payload) == t.(ano := if 2000 <= t.ano <= 2099 then t.ano else 2000)
  {
    QuadroDataHora(t, resto);
    LeOQueEscreve(t, ExtrairFrameRIP(RIPRespostaDataHora(t).Encode() + resto).0.Payload);
  }

  lemma LeOQueEscreve(t: DataHora, msg: bytes)
    requires t.Calendario() && |msg| == 8
    requires msg[..7] == RIPRespostaDataHora(t).Payload[1..]
    ensures LeDataHora(msg) == t.(ano := if 2000 <= t.ano <= 2099 then t.ano else 2000)
  {
    var campos := RIPRespostaDataHora(t).Payload;
    assert forall i :: 0 <= i < 7 ==> msg[i] == msg[..7][i] == campos[i + 1];
    CampoBCD(msg, 0, t.ano - 2000);
    CampoBCD(msg, 1, t.mes);
    CampoBCD(msg, 2, t.dia);
    CampoBCD(msg, 3, t.dow);
    CampoBCD(msg, 4, t.hora);
    CampoBCD(msg, 5, t.minuto);
    CampoBCD(msg, 6, t.segundo);
  }

  lemma QuadroDataHora(t: DataHora, resto: bytes)
    ensures var corpo := RIPRespostaDataHora(t).Payload;
            ExtrairFrameRIP(RIPRespostaDataHora(t).Encode() + resto) == (QuadroDoCorpo(corpo), 10)
  {
    var corpo := RIPRespostaDataHora(t).Payload;
    EncodeExtrairSse(corpo, resto);
    assert RIPRespostaDataHora(t).Encode() == PacoteRIP(true, 0, corpo).Encode();
  }

  lemma CampoBCD(payload: bytes, i: nat, n: int)
    requires i < |payload| && payload[i] == BCD(n)
    ensures NumeroBCD(payload[i..i + 1]) == if 0 <= n <= 99 then n else 0
  {
    assert payload[i..i + 1] == [BCD(n)];
    BCDIdaEVolta(n);
  }

  // ------------------------------------------------------------------ Alarms

  datatype ErroAlarme =
    | SemErro | Tamanho | ContactIdInvalido | TipoInvalido | CodigoInvalido | ParticaoInvalida | ZonaInvalida

  datatype Qualificacao = Aber | Rest | Qualquer

  /** Known event codes and, for each, the descriptions of its qualifications, with blanks for zone and partition. */
  type TabelaContactID = map<int, map<Qualificacao, string>>

  /** A description before its numbers are written into it; with photos these are announced too. */
  datatype Descricao = Descricao(padrao: string, zona: int, particao: int, fotos: Option<(int, int)>)

  datatype RIPAlarme = RIPAlarme(
    Valido: bool, Erro: ErroAlarme, Canal: int, ContactId: int, Tipo: int, Qualificador: int,
    Codigo: int, Particao: int, Zona: int, IndiceFotos: int, NrFotos: int,
    CodigoConhecido: bool, DescricaoHumana: Option<Descricao>)

  const ALARME_NULO: RIPAlarme := RIPAlarme(false, SemErro, 0, 0, 0, 0, 0, 0, 0, 0, 0, false, None)

  function TamanhoDoAlarme(comFoto: bool): nat { if comFoto then 20 else 17 }

  function QualificacaoDe(tabela: TabelaContactID, codigo: int, qualificador: int): Qualificacao
    requires codigo in tabela
  {
    if qualificador == 1 && Aber in tabela[codigo] then Aber
    else if qualificador == 3 && Rest in tabela[codigo] then Rest
    else Qualquer
  }

  predicate Conhecido(tabela: TabelaContactID, tipo: int, codigo: int, qualificador: int) {
    tipo == 18 && codigo in tabela && QualificacaoDe(tabela, codigo, qualificador) in tabela[codigo]
  }

  /** The alarm with its event looked up in the table. */
  function Descrito(r: RIPAlarme, comFoto: bool, tabela: TabelaContactID): (d: RIPAlarme)
    ensures d == r.(CodigoConhecido := d.CodigoConhecido, DescricaoHumana := d.DescricaoHumana)
  {
    if !Conhecido(tabela, r.Tipo, r.Codigo, r.Qualificador) then r
    else
      r.(CodigoConhecido := true,
         DescricaoHumana := Some(Descricao(tabela[r.Codigo][QualificacaoDe(tabela, r.Codigo, r.Qualificador)],
                                           r.Zona, r.Particao,
                                           if comFoto then Some((r.IndiceFotos, r.NrFotos)) else None)))
  }

  /** Fields are filled in the order they are read; reading stops at the first that is not a number. */
  method ParseRIPAlarme(pacote: PacoteRIP, comFoto: bool, tabela: TabelaContactID) returns (res: RIPAlarme)
    ensures res == AlarmeDoPacote(pacote, comFoto, tabela)
  {
    res := ALARME_NULO;
    var msg := pacote.Payload;
    if |msg| != TamanhoDoAlarme(comFoto) {
      res := res.(Erro := Tamanho);
      return;
    }
    res := res.(Canal := msg[0] as int);
    var n, ok := ContactIDDecode(msg[1..5]);
    res := res.(ContactId := n);
    if !ok {
      res := res.(Erro := ContactIdInvalido);
      return;
    }
    n, ok := ContactIDDecode(msg[5..7]);
    res := res.(Tipo := n);
    if !ok {
      res := res.(Erro := TipoInvalido);
      return;
    }
    res := res.(Qualificador := msg[7] as int);
    n, ok := ContactIDDecode(msg[8..11]);
    res := res.(Codigo := n);
    if !ok {
      res := res.(Erro := CodigoInvalido);
      return;
    }
    n, ok := ContactIDDecode(msg[11..13]);
    res := res.(Particao := n);
    if !ok {
      res := res.(Erro := ParticaoInvalida);
      return;
    }
    n, ok := ContactIDDecode(msg[13..16]);
    res := res.(Zona := n);
    if !ok {
      res := res.(Erro := ZonaInvalida);
      return;
    }
    res := res.(Valido := true);
    if comFoto {
      res := res.(IndiceFotos := msg[17] as int * 256 + msg[18] as int, NrFotos := msg[19] as int);
    }
    if res.Tipo == 18 && res.Codigo in tabela {
      var qualif := Qualquer;
      if res.Qualificador == 1 {
        qualif := Aber;
        if qualif !in tabela[res.Codigo] {
          qualif := Qualquer;
        }
      } else if res.Qualificador == 3 {
        qualif := Rest;
        if qualif !in tabela[res.Codigo] {
          qualif := Qualquer;
        }
      }
      if qualif in tabela[res.Codigo] {
        var fotos := if comFoto then Some((res.IndiceFotos, res.NrFotos)) else None;
        res := res.(CodigoConhecido := true,
                    DescricaoHumana := Some(Descricao(tabela[res.Codigo][qualif], res.Zona, res.Particao, fotos)));
      }
    }
  }

  /** The alarm in a frame: every field decoded on its own, kept up to the first bad one. */
  function AlarmeDoPacote(pacote: PacoteRIP, comFoto: bool, tabela: TabelaContactID): RIPAlarme {
    var msg := pacote.Payload;
    if |msg| != TamanhoDoAlarme(comFoto) then ALARME_NULO.(Erro := Tamanho)
    else
      var (id, tipo, codigo, particao, zona) :=
        (ContactID(msg[1..5]), ContactID(msg[5..7]), ContactID(msg[8..11]),
         ContactID(msg[11..13]), ContactID(msg[13..16]));
      var r0 := ALARME_NULO.(Canal := msg[0] as int, ContactId := id);
      if id < 0 then r0.(Erro := ContactIdInvalido)
      else
        var r1 := r0.(Tipo := tipo);
        if tipo < 0 then r1.(Erro := TipoInvalido)
        else
          var r2 := r1.(Qualificador := msg[7] as int, Codigo := codigo);
          if codigo < 0 then r2.(Erro := CodigoInvalido)
          else
            var r3 := r2.(Particao := particao);
            if particao < 0 then r3.(Erro := ParticaoInvalida)
            else
              var r4 := r3.(Zona := zona);
              if zona < 0 then r4.(Erro := ZonaInvalida)
              else
                var r5 := r4.(Valido := true,
                              IndiceFotos := if comFoto then msg[17] as int * 256 + msg[18] as int else 0,
                              NrFotos := if comFoto then msg[19] as int else 0);
                Descrito(r5, comFoto, tabela)
  }

  /** The first field that is not made of digits is the one reported, and an alarm without any is valid. */
  lemma ErroDoAlarmeSse(pacote: PacoteRIP, comFoto: bool, tabela: TabelaContactID)
    ensures var (r, msg) := (AlarmeDoPacote(pacote, comFoto, tabela), pacote.Payload);
            var tamanho := |msg| == if comFoto then 20 else 17;
            && (r.Erro == Tamanho <==> !tamanho)
            && (tamanho ==>
                  var (d1, d2, d3, d4, d5) := (DigitosValidos(msg[1..5]), DigitosValidos(msg[5..7]),
                                               DigitosValidos(msg[8..11]), DigitosValidos(msg[11..13]),
                                               DigitosValidos(msg[13..16]));
                  && (r.Valido <==> d1 && d2 && d3 && d4 && d5) && (r.Valido <==> r.Erro == SemErro)
                  && (r.Erro == ContactIdInvalido <==> !d1)
                  && (r.Erro == TipoInvalido <==> d1 && !d2)
                  && (r.Erro == CodigoInvalido <==> d1 && d2 && !d3)
                  && (r.Erro == ParticaoInvalida <==> d1 && d2 && d3 && !d4)
                  && (r.Erro == ZonaInvalida <==> d1 && d2 && d3 && d4 && !d5))
  {
    hide NumeroContactID, DigitosValidos;
  }

  /** Qualifier 1 describes an opening and 3 a restoral where the table tells them apart; the rest share one text. */
  lemma DescricaoSse(r: RIPAlarme, comFoto: bool, tabela: TabelaContactID)
    requires r.DescricaoHumana == None && !r.CodigoConhecido
    ensures var d := Descrito(r, comFoto, tabela);
            && (d.CodigoConhecido <==> d.DescricaoHumana.Some?)
            && (r.Tipo != 18 || r.Codigo !in tabela ==> d == r)
            && (r.Tipo == 18 && r.Codigo in tabela ==>
                  var textos := tabela[r.Codigo];
                  var proprio := if r.Qualificador == 1 then Some(Aber)
                                 else if r.Qualificador == 3 then Some(Rest) else None;
                  var texto := if proprio.Some? && proprio.value in textos then Some(textos[proprio.value])
                               else if Qualquer in textos then Some(textos[Qualquer]) else None;
                  && (d.CodigoConhecido <==> texto.Some?)
                  && (texto.Some? ==> d.DescricaoHumana.value.padrao == texto.value
                                      && d.DescricaoHumana.value.zona == r.Zona
                                      && d.DescricaoHumana.value.particao == r.Particao))
  {}

  /** The same alarm read without ever giving up: a field that is not a number counts as -1. */
  function AlarmeSemConsistir(pacote: PacoteRIP, comFoto: bool, tabela: TabelaContactID): RIPAlarme {
    var msg := pacote.Payload;
    if |msg| != TamanhoDoAlarme(comFoto) then ALARME_NULO.(Erro := Tamanho)
    else
      Descrito(RIPAlarme(true, SemErro, msg[0] as int, ContactID(msg[1..5]), ContactID(msg[5..7]), msg[7] as int,
                         ContactID(msg[8..11]), ContactID(msg[11..13]), ContactID(msg[13..16]),
                         if comFoto then msg[17] as int * 256 + msg[18] as int else 0,
                         if comFoto then msg[19] as int else 0, false, None),
               comFoto, tabela)
  }

  /** The two readings agree exactly on the alarms that the careful one accepts or whose length is wrong. */
  lemma LeiturasConcordamSse(pacote: PacoteRIP, comFoto: bool, tabela: TabelaContactID)
    ensures AlarmeSemConsistir(pacote, comFoto, tabela) == AlarmeDoPacote(pacote, comFoto, tabela) <==>
            AlarmeDoPacote(pacote, comFoto, tabela).Valido || |pacote.Payload| != TamanhoDoAlarme(comFoto)
  {}

  /** Scripts run for an alarm: one with its numbers, one with its text. */
  datatype Gancho = Ev(codigo: int, particao: int, zona: int, qualificador: int) | Msg(alarme: RIPAlarme)

  function GanchosDoAlarme(r: RIPAlarme): seq<Gancho> {
    if r.Valido then [Ev(r.Codigo, r.Particao, r.Zona, r.Qualificador), Msg(r)] else []
  }

  /** An alarm as a panel sees it. */
  datatype Alarme = Alarme(
    canal: byte, contactId: nat, tipo: nat, qualificador: byte, codigo: nat, particao: nat, zona: nat)
  {

    predicate Valido() { contactId < 10000 && tipo < 100 && codigo < 1000 && particao < 100 && zona < 1000 }

    function Campos(): (c: bytes)
      ensures |c| == 16
    {
      [canal] + DigitosContactID(contactId, 4) + DigitosContactID(tipo, 2) + [qualificador]
      + DigitosContactID(codigo, 3) + DigitosContactID(particao, 2) + DigitosContactID(zona, 3)
    }
  }

  /** What the receiver should read out of an alarm. */
  function Leitura(a: Alarme, comFoto: bool, indice: int, nrFotos: int, tabela: TabelaContactID): RIPAlarme {
    Descrito(RIPAlarme(true, SemErro, a.canal as int, a.contactId, a.tipo, a.qualificador as int,
                       a.codigo, a.particao, a.zona, indice, nrFotos, false, None),
             comFoto, tabela)
  }

  /** The octets of a frame with photos: its checksum moves inward and the photo count takes the last place. */
  function QuadroComFotos(a: Alarme, chk: byte, indice: nat, nrFotos: byte): (q: bytes)
    ensures |q| == 22
  {
    [20, 0xb5] + a.Campos() + [chk] + BE16(indice) + [nrFotos]
  }

  lemma Potencias()
    ensures Pow10(2) == 100 && Pow10(3) == 1000 && Pow10(4) == 10000
  {
    assert Pow10(1) == 10;
    assert Pow10(2) == 10 * Pow10(1);
    assert Pow10(3) == 10 * Pow10(2);
    assert Pow10(4) == 10 * Pow10(3);
  }

  lemma NumeroQueCabe(n: nat, length: nat)
    requires n < Pow10(length)
    ensures ContactID(DigitosContactID(n, length)) == n
  {
    ContactIDIdaEVolta(n, length);
  }

  lemma CamposDoAlarme(a: Alarme, msg: bytes)
    requires a.Valido() && |msg| >= 16 && msg[..16] == a.Campos()
    ensures msg[0] == a.canal && ContactID(msg[1..5]) == a.contactId && ContactID(msg[5..7]) == a.tipo
    ensures msg[7] == a.qualificador && ContactID(msg[8..11]) == a.codigo
    ensures ContactID(msg[11..13]) == a.particao && ContactID(msg[13..16]) == a.zona
  {
    var c := a.Campos();
    assert forall i :: 0 <= i < 16 ==> msg[i] == c[i];
    assert msg[1..5] == DigitosContactID(a.contactId, 4);
    assert msg[5..7] == DigitosContactID(a.tipo, 2);
    assert msg[8..11] == DigitosContactID(a.codigo, 3);
    assert msg[11..13] == DigitosContactID(a.particao, 2);
    assert msg[13..16] == DigitosContactID(a.zona, 3);
    Potencias();
    NumeroQueCabe(a.contactId, 4);
    NumeroQueCabe(a.tipo, 2);
    NumeroQueCabe(a.codigo, 3);
    NumeroQueCabe(a.particao, 2);
    NumeroQueCabe(a.zona, 3);
  }

  /** An encoded alarm, without or with photos, is extracted and parsed back to all its fields. */
  lemma AlarmeIdaEVolta(a: Alarme, resto: bytes, tabela: TabelaContactID, chk: byte, indice: nat, nrFotos: byte)
    requires a.Valido() && indice < 65536
    ensures var (p, n) := ExtrairFrameRIP(PacoteRIP(true, 0xb0, [0xb0] + a.Campos()).Encode() + resto);
            var r := AlarmeDoPacote(p, false, tabela);
            && n == 19 && p.Tipo == 0xb0
            && r == Leitura(a, false, 0, 0, tabela)
    ensures var (p, n) := ExtrairFrameRIP(QuadroComFotos(a, chk, indice, nrFotos) + resto);
            var r := AlarmeDoPacote(p, true, tabela);
            && n == 22 && p.Tipo == 0xb5
            && r == Leitura(a, true, indice, nrFotos as int, tabela)
  {
    AlarmeSemFotos(a, resto, tabela);
    AlarmeComFotos(a, resto, tabela, chk, indice, nrFotos);
  }

  lemma AlarmeSemFotos(a: Alarme, resto: bytes, tabela: TabelaContactID)
    requires a.Valido()
    ensures var (p, n) := ExtrairFrameRIP(PacoteRIP(true, 0xb0, [0xb0] + a.Campos()).Encode() + resto);
            var r := AlarmeDoPacote(p, false, tabela);
            && n == 19 && p.Tipo == 0xb0
            && r == Leitura(a, false, 0, 0, tabela)
  {
    var corpo := [0xb0] + a.Campos();
    EncodeExtrairSse(corpo, resto);
    assert PacoteRIP(true, 0xb0, corpo).Encode() == PacoteRIP(true, 0, corpo).Encode();
    var p := ExtrairFrameRIP(PacoteRIP(true, 0xb0, corpo).Encode() + resto).0;
    assert p.Payload[..16] == a.Campos();
    CamposDoAlarme(a, p.Payload);
  }

  lemma AlarmeComFotos(a: Alarme, resto: bytes, tabela: TabelaContactID, chk: byte, indice: nat, nrFotos: byte)
    requires a.Valido() && indice < 65536
    ensures var (p, n) := ExtrairFrameRIP(QuadroComFotos(a, chk, indice, nrFotos) + resto);
            var r := AlarmeDoPacote(p, true, tabela);
            && n == 22 && p.Tipo == 0xb5
            && r == Leitura(a, true, indice, nrFotos as int, tabela)
  {
    ExtraiComFotos(a, resto, chk, indice, nrFotos);
    CamposDoAlarme(a, QuadroComFotos(a, chk, indice, nrFotos)[2..]);
  }

  lemma ExtraiComFotos(a: Alarme, resto: bytes, chk: byte, indice: nat, nrFotos: byte)
    requires indice < 65536
    ensures var q := QuadroComFotos(a, chk, indice, nrFotos);
            && ExtrairFrameRIP(q + resto) == (PacoteRIP(true, 0xb5, q[2..]), 22)
            && q[2..][..16] == a.Campos()
            && q[2..][17] as int * 256 + q[2..][18] as int == indice && q[2..][19] == nrFotos
  {
    var q := QuadroComFotos(a, chk, indice, nrFotos);
    var s := q + resto;
    assert s[0] == 20 && s[1] == 0xb5;
    assert s[2..22] == q[2..];
    assert q[19] == BE16(indice)[0] && q[20] == BE16(indice)[1];
  }
}
