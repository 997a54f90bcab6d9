/**
 The Go receiver of one panel connection: it gathers chunks in a buffer,
 handles every complete frame, answers each one, and times out a frame that
 stays incomplete.  Times are seconds; a timer field holds when it is due.
 */
module ReceptorTratador {
  import opened Octetos
  import opened Protocolo
  import opened Quadros

  predicate EhAlarme(p: PacoteRIP) { p.Longo && p.Tipo in {0xb0, 0xb5} }

  predicate EhIdentificacao(p: PacoteRIP) { p.Longo && p.Tipo == 0x94 && |p.Payload| == 7 }

  predicate PedeDataHora(p: PacoteRIP) { p.Longo && p.Tipo == 0x80 }

  /** Which octets at the head of the buffer make each kind of frame. */
  lemma TiposNaFrente(buffer: bytes)
    ensures var (p, n) := ExtrairFrameRIP(buffer);
            && (n > 0 && EhIdentificacao(p) <==> NaFrente(buffer, 0x94) && buffer[0] == 7)
            && (n > 0 && EhAlarme(p) <==> NaFrente(buffer, 0xb0) || NaFrente(buffer, 0xb5))
            && (n > 0 && PedeDataHora(p) <==> NaFrente(buffer, 0x80))
  {
    QuadroPorExtenso(buffer);
  }

  /** The octets that answer a frame: the date, when asked for it, or 0xfe. */
  function Resposta(p: PacoteRIP, relogio: Instante): bytes {
    if PedeDataHora(p) then RIPRespostaDataHora(relogio).Encode() else [0xfe]
  }

  /** One answer per frame, in frame order; relogio(i) is what the clock reads when frame i is handled. */
  function RespostasDe(ps: seq<PacoteRIP>, relogio: nat -> Instante): seq<bytes> {
    if ps == [] then [] else RespostasDe(ps[..|ps| - 1], relogio) + [Resposta(ps[|ps| - 1], relogio(|ps| - 1))]
  }

  /** Answer i answers frame i, and there is no other. */
  lemma {:induction false} RespostaDoQuadro(ps: seq<PacoteRIP>, relogio: nat -> Instante)
    ensures |RespostasDe(ps, relogio)| == |ps|
    ensures forall i :: 0 <= i < |ps| ==> RespostasDe(ps, relogio)[i] == Resposta(ps[i], relogio(i))
  {
    if ps != [] {
      RespostaDoQuadro(ps[..|ps| - 1], relogio);
    }
  }

  /** The scripts that a sequence of frames calls for: two per valid alarm, in frame order. */
  function GanchosDe(ps: seq<PacoteRIP>, tabela: TabelaContactID): seq<Gancho> {
    if ps == [] then []
    else
      var p := ps[|ps| - 1];
      GanchosDe(ps[..|ps| - 1], tabela)
      + if EhAlarme(p) then GanchosDoAlarme(AlarmeDoPacote(p, p.Tipo == 0xb5, tabela)) else []
  }

  predicate AlgumaIdentificacao(ps: seq<PacoteRIP>) {
    ps != [] && (AlgumaIdentificacao(ps[..|ps| - 1]) || EhIdentificacao(ps[|ps| - 1]))
  }

  lemma {:induction false} AlgumaIdentificacaoSse(ps: seq<PacoteRIP>)
    ensures AlgumaIdentificacao(ps) <==>
            exists i :: 0 <= i < |ps| && ps[i].Longo && ps[i].Tipo == 0x94 && |ps[i].Payload| == 7
  {
    if ps != [] {
      AlgumaIdentificacaoSse(ps[..|ps| - 1]);
      assert forall i :: 0 <= i < |ps| - 1 ==> ps[..|ps| - 1][i] == ps[i];
    }
  }

  /** A stream of encoded identifications and alarms: only the former identify, only the latter run scripts. */
  lemma IdentificacaoCodificada(corpo: Corpo)
    ensures EhIdentificacao(QuadroDoCorpo(corpo)) <==> corpo[0] == 0x94 && |corpo| == 7
    ensures !EhAlarme(QuadroDoCorpo(corpo)) <==> corpo[0] != 0xb0 && corpo[0] != 0xb5
  {}

  /** One more frame adds the two scripts of its alarm, if it is one and valid, and otherwise none. */
  lemma GanchosDeMaisUm(ps: seq<PacoteRIP>, p: PacoteRIP, tabela: TabelaContactID)
    ensures p.Longo && p.Tipo == 0xb0 ==>
              GanchosDe(ps + [p], tabela) == GanchosDe(ps, tabela) + GanchosDoAlarme(AlarmeDoPacote(p, false, tabela))
    ensures p.Longo && p.Tipo == 0xb5 ==>
              GanchosDe(ps + [p], tabela) == GanchosDe(ps, tabela) + GanchosDoAlarme(AlarmeDoPacote(p, true, tabela))
    ensures !p.Longo || (p.Tipo != 0xb0 && p.Tipo != 0xb5) ==> GanchosDe(ps + [p], tabela) == GanchosDe(ps, tabela)
  {
    assert (ps + [p])[..|ps|] == ps;
    assert GanchosDe(ps, tabela) + [] == GanchosDe(ps, tabela);
  }

  /** An encoded alarm, with photos or without, has both scripts run with its fields. */
  lemma AlarmeCodificadoAvisa(a: Alarme, resto: bytes, tabela: TabelaContactID, chk: byte, indice: nat, nrFotos: byte,
                              ps: seq<PacoteRIP>)
    requires a.Valido() && indice < 65536
    ensures var p := ExtrairFrameRIP(PacoteRIP(true, 0xb0, [0xb0] + a.Campos()).Encode() + resto).0;
            GanchosDe(ps + [p], tabela) == GanchosDe(ps, tabela)
              + [Ev(a.codigo, a.particao, a.zona, a.qualificador as int), Msg(Leitura(a, false, 0, 0, tabela))]
    ensures var p := ExtrairFrameRIP(QuadroComFotos(a, chk, indice, nrFotos) + resto).0;
            GanchosDe(ps + [p], tabela) == GanchosDe(ps, tabela)
              + [Ev(a.codigo, a.particao, a.zona, a.qualificador as int),
                 Msg(Leitura(a, true, indice, nrFotos as int, tabela))]
  {
    hide AlarmeDoPacote, GanchosDe;
    AlarmeIdaEVolta(a, resto, tabela, chk, indice, nrFotos);
    var p := ExtrairFrameRIP(PacoteRIP(true, 0xb0, [0xb0] + a.Campos()).Encode() + resto).0;
    var q := ExtrairFrameRIP(QuadroComFotos(a, chk, indice, nrFotos) + resto).0;
    GanchosDeMaisUm(ps, p, tabela);
    GanchosDeMaisUm(ps, q, tabela);
  }

  /** When the chunk arrived that holds the octet at this position of the stream. */
  function ChegadaDoOcteto(pedacos: seq<bytes>, quando: seq<real>, posicao: nat): real
    requires |pedacos| == |quando| && posicao < |Concat(pedacos)|
  {
    var n := |pedacos| - 1;
    if posicao >= |Concat(pedacos[..n])| then quando[n]
    else ChegadaDoOcteto(pedacos[..n], quando[..n], posicao)
  }

  /** A frame completed by a chunk takes every octet that was waiting, so what is left lies in the chunk. */
  lemma SobraDentroDoPedaco(sobra: bytes, pedaco: bytes)
    requires ExtrairFrameRIP(sobra).1 == 0 && Frames(sobra + pedaco) != []
    ensures |Sobra(sobra + pedaco)| < |pedaco|
  {
    var n := ExtrairFrameRIP(sobra + pedaco).1;
    assert (sobra + pedaco)[..|sobra|] == sobra;
    ExtracaoEstavel(sobra + pedaco, |sobra|);
    SobraIncompleta((sobra + pedaco)[n..]);
  }

  /** When the wait for the leftover ends: 60 s after the arrival of its first octet. */
  function PrazoDaEspera(pedacos: seq<bytes>, quando: seq<real>, sobra: bytes): Option<real>
    requires |pedacos| == |quando| && |sobra| <= |Concat(pedacos)|
  {
    if sobra == [] then None else Some(ChegadaDoOcteto(pedacos, quando, |Concat(pedacos)| - |sobra|) + 60.0)
  }

  /** The wait ends 60 s after the chunk came that holds the first octet of the leftover. */
  lemma {:induction false} PrazoPeloPedaco(pedacos: seq<bytes>, quando: seq<real>, sobra: bytes, j: nat)
    requires |pedacos| == |quando| && sobra != [] && |sobra| <= |Concat(pedacos)| && j < |pedacos|
    requires |Concat(pedacos[..j])| <= |Concat(pedacos)| - |sobra| < |Concat(pedacos[..j + 1])|
    ensures PrazoDaEspera(pedacos, quando, sobra) == Some(quando[j] + 60.0)
  {
    ChegadaPeloPedaco(pedacos, quando, |Concat(pedacos)| - |sobra|, j);
  }

  lemma {:induction false} ChegadaPeloPedaco(pedacos: seq<bytes>, quando: seq<real>, posicao: nat, j: nat)
    requires |pedacos| == |quando| && posicao < |Concat(pedacos)| && j < |pedacos|
    requires |Concat(pedacos[..j])| <= posicao < |Concat(pedacos[..j + 1])|
    ensures ChegadaDoOcteto(pedacos, quando, posicao) == quando[j]
  {
    var n := |pedacos| - 1;
    if j < n {
      ConcatPrefixo(pedacos, j + 1, n);
      assert pedacos[..n][..j] == pedacos[..j] && pedacos[..n][..j + 1] == pedacos[..j + 1];
      ChegadaPeloPedaco(pedacos[..n], quando[..n], posicao, j);
    }
  }

  lemma {:induction false} ConcatPrefixo(ss: seq<bytes>, i: nat, n: nat)
    requires i <= n <= |ss|
    ensures |Concat(ss[..i])| <= |Concat(ss[..n])|
    decreases n
  {
    if i < n {
      assert ss[..n][..n - 1] == ss[..n - 1];
      ConcatPrefixo(ss, i, n - 1);
    }
  }

  /**
   After one more chunk the leftover starts in that chunk, unless a frame was
   already pending and stays so: then the wait ends when it was to end.
   */
  lemma EsperaDepoisDoPedaco(pedacos: seq<bytes>, quando: seq<real>, buf: bytes, agora: real)
    requires |pedacos| == |quando|
    ensures var sobra := Sobra(Concat(pedacos));
            var (novos, resto) := (Frames(sobra + buf), Sobra(sobra + buf));
            && Frames(Concat(pedacos + [buf])) == Frames(Concat(pedacos)) + novos
            && Sobra(Concat(pedacos + [buf])) == resto
            && |sobra| <= |Concat(pedacos)| && |resto| <= |Concat(pedacos + [buf])|
            && PrazoDaEspera(pedacos + [buf], quando + [agora], resto)
               == (var livre := if novos == [] then PrazoDaEspera(pedacos, quando, sobra) else None;
                   if resto != [] && livre == None then Some(agora + 60.0) else livre)
  {
    var sobra := Sobra(Concat(pedacos));
    ConcatOne(pedacos, buf);
    FramesConcat(Concat(pedacos), buf);
    SobraIncompleta(Concat(pedacos));
    SobraIncompleta(Concat(pedacos + [buf]));
    assert (pedacos + [buf])[..|pedacos|] == pedacos && (quando + [agora])[..|pedacos|] == quando;
    if Frames(sobra + buf) != [] {
      SobraDentroDoPedaco(sobra, buf);
    }
  }

  class TratadorReceptorIP {
    const tabela: TabelaContactID
    const relogio: nat -> Instante
    const inicio: real

    var buffer: bytes
    var central_identificada: bool
    var to_ident: Option<real>
    var to_comm: real
    var to_incompleta: Option<real>
    var enviados: seq<bytes>     // every answer handed to the session
    var ganchos: seq<Gancho>     // every script run

    ghost var pedacos: seq<bytes>        // every chunk received
    ghost var quando: seq<real>          // when each one arrived
    ghost var tratados: seq<PacoteRIP>   // every frame handled

    /** Every frame handled so far was answered once, and its effects are in place. */
    ghost predicate EmDia()
      reads `enviados, `ganchos, `tratados, `central_identificada, `to_ident
    {
      && enviados == RespostasDe(tratados, relogio)
      && ganchos == GanchosDe(tratados, tabela)
      && (central_identificada <==> AlgumaIdentificacao(tratados))
      && to_ident == (if central_identificada then None else Some(inicio + 120.0))
    }

    /** True between any two events of any run. */
    ghost predicate Valid()
      reads this
    {
      && |pedacos| == |quando|
      && tratados == Frames(Concat(pedacos)) && buffer == Sobra(Concat(pedacos))
      && EmDia()
      && to_comm == (if quando == [] then inicio else quando[|quando| - 1]) + 600.0
      && |buffer| <= |Concat(pedacos)|
      && to_incompleta == PrazoDaEspera(pedacos, quando, buffer)
    }

    constructor (agora: real, tabela: TabelaContactID, relogio: nat -> Instante)
      ensures Valid() && pedacos == [] && inicio == agora && this.tabela == tabela && this.relogio == relogio
    {
      this.tabela, this.relogio, inicio := tabela, relogio, agora;
      buffer, central_identificada := [], false;
      to_ident, to_comm, to_incompleta := Some(agora + 120.0), agora + 600.0, None;
      enviados, ganchos := [], [];
      pedacos, quando, tratados := [], [], [];
    }

    /** A chunk arrives from the session. */
    method Recv(buf: bytes, agora: real)
      requires Valid()
      modifies this
      ensures Valid()
      ensures pedacos == old(pedacos) + [buf] && quando == old(quando) + [agora]
      ensures tratados == old(tratados) + Frames(old(buffer) + buf)
      ensures old(enviados) <= enviados && old(ganchos) <= ganchos
      ensures to_ident == None <==>
              exists i :: 0 <= i < |tratados|
                          && tratados[i].Longo && tratados[i].Tipo == 0x94 && |tratados[i].Payload| == 7
    {
      hide EmDia, Frames, Sobra, PrazoDaEspera;
      EsperaDepoisDoPedaco(pedacos, quando, buf, agora);
      buffer := buffer + buf;
      Parse(agora);
      pedacos, quando := pedacos + [buf], quando + [agora];
      assert to_ident == None <==> AlgumaIdentificacao(tratados) by { IdentificadaEmDia(); }
      AlgumaIdentificacaoSse(tratados);
    }

    lemma IdentificadaEmDia()
      requires EmDia()
      ensures to_ident == None <==> AlgumaIdentificacao(tratados)
    {}

    method Parse(agora: real)
      requires EmDia()
      modifies `buffer, `central_identificada, `to_ident, `to_comm, `to_incompleta, `enviados, `ganchos, `tratados
      ensures tratados == old(tratados) + Frames(old(buffer)) && buffer == Sobra(old(buffer))
      ensures EmDia()
      ensures to_comm == agora + 600.0
      ensures to_incompleta ==
              var livre := if Frames(old(buffer)) == [] then old(to_incompleta) else None;
              if buffer != [] && livre == None then Some(agora + 60.0) else livre
      ensures old(enviados) <= enviados && old(ganchos) <= ganchos
    {
      hide EmDia;
      to_comm := agora + 600.0;
      ghost var novos: seq<PacoteRIP> := [];
      while true
        invariant Frames(old(buffer)) == novos + Frames(buffer) && Sobra(old(buffer)) == Sobra(buffer)
        invariant tratados == old(tratados) + novos
        invariant EmDia()
        invariant to_incompleta == if novos == [] then old(to_incompleta) else None
        invariant old(enviados) <= enviados && old(ganchos) <= ganchos && to_comm == agora + 600.0
        decreases |buffer|
      {
        var (pacote, consumo) := ExtrairFrameRIP(buffer);
        if consumo <= 0 {
          break;
        }
        to_incompleta := None;
        buffer := buffer[consumo..];
        novos := novos + [pacote];
        TrataPacote(pacote);
      }
      if |buffer| > 0 && to_incompleta == None {
        to_incompleta := Some(agora + 60.0);
      }
    }

    method TrataPacote(pacote: PacoteRIP)
      requires pacote.Longo || pacote.Tipo == 0xf7
      requires EmDia()
      modifies `central_identificada, `to_ident, `enviados, `ganchos, `tratados
      ensures tratados == old(tratados) + [pacote]
      ensures |enviados| == |old(enviados)| + 1 && old(enviados) <= enviados
      ensures EmDia() && old(ganchos) <= ganchos
    {
      RespostaDoQuadro(tratados, relogio);
      tratados := tratados + [pacote];
      assert tratados[..|tratados| - 1] == old(tratados);
      if pacote.Longo {
        match pacote.Tipo {
          case 0x80 => SolicitaDataHora(relogio(|enviados|));
          case 0x94 => IdentificacaoCentral(pacote);
          case 0xb0 => EventoAlarme(pacote, false);
          case 0xb5 => EventoAlarme(pacote, true);
          case _ => RespostaGenerica();
        }
      } else {
        RespostaGenerica();
      }
    }

    method RespostaGenerica()
      modifies `enviados
      ensures enviados == old(enviados) + [[0xfe]]
    {
      enviados := enviados + [RIPRespostaGenerica().Encode()];
    }

    method SolicitaDataHora(agora: Instante)
      modifies `enviados
      ensures enviados == old(enviados) + [RIPRespostaDataHora(agora).Encode()]
    {
      enviados := enviados + [RIPRespostaDataHora(agora).Encode()];
    }

    method IdentificacaoCentral(pacote: PacoteRIP)
      modifies `central_identificada, `to_ident, `enviados
      ensures enviados == old(enviados) + [[0xfe]]
      ensures central_identificada == (old(central_identificada) || |pacote.Payload| == 7)
      ensures to_ident == if |pacote.Payload| == 7 then None else old(to_ident)
    {
      if |pacote.Payload| == 7 {
        central_identificada := true;
        if to_ident != None {
          to_ident := None;
        }
      }
      RespostaGenerica();
    }

    method EventoAlarme(pacote: PacoteRIP, comFoto: bool)
      modifies `ganchos, `enviados
      ensures enviados == old(enviados) + [[0xfe]]
      ensures ganchos == old(ganchos) + GanchosDoAlarme(AlarmeDoPacote(pacote, comFoto, tabela))
    {
      var evento := ParseRIPAlarme(pacote, comFoto, tabela);
      if evento.Valido {
        ganchos := ganchos + [Ev(evento.Codigo, evento.Particao, evento.Zona, evento.Qualificador)];
        ganchos := ganchos + [Msg(evento)];
      }
      RespostaGenerica();
    }
  }
}
