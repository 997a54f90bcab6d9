/**
 The Python receiver of one panel connection.  Bytes arrive in chunks; frames
 are consumed one per firing of a timer whose delay doubles with every frame
 accepted and halves each time a second timer fires.  Times are seconds; a timer
 field holds the time at which it is due.
 */
module TratadorPython {
  import opened Octetos
  import opened Quadros
  import Protocolo
  import ReceptorTratador

  const BACKOFF_MINIMO: real := 0.125
  const RECUO_BACKOFF_MINIMO: real := 1.0
  const PRAZO_IDENT: real := 120.0
  const PRAZO_COMM: real := 600.0
  const PRAZO_INCOMPLETA: real := 60.0

  function Max(a: real, b: real): real { if a >= b then a else b }

  /** Delay before the next frame at level k: the minimum doubled k times. */
  function Nivel(k: nat): (r: real)
    ensures r >= BACKOFF_MINIMO
    ensures k > 0 ==> r >= 2.0 * BACKOFF_MINIMO
  {
    if k == 0 then BACKOFF_MINIMO else 2.0 * Nivel(k - 1)
  }

  function Recuo(backoff: real): real { Max(RECUO_BACKOFF_MINIMO, backoff * 2.0) }

  lemma {:induction false} NivelCresce(j: nat, k: nat)
    requires j <= k
    ensures Nivel(j) <= Nivel(k)
  {
    if j < k {
      NivelCresce(j, k - 1);
    }
  }

  /** Level k is 2^k eighths of a second. */
  lemma {:induction false} NivelPorExtenso(k: nat)
    ensures Nivel(k) == Pot2(k) as real / 8.0
  {
    if k > 0 {
      NivelPorExtenso(k - 1);
    }
  }

  /** What a frame handler takes from outside: the panel filter, a free connection slot, the clock, the event table. */
  datatype Ambiente = Ambiente(centralValida: bool, vaga: bool, relogio: Instante, tabela: TabelaContactID)

  /** A photo put in the download queue. */
  datatype FotoPedida = FotoPedida(indice: int, nr: int)

  datatype Efeito = Efeito(
    respostas: seq<bytes>, ganchos: seq<Gancho>, fotos: seq<FotoPedida>, ignora: bool, identifica: bool, excecao: bool)

  const NADA: Efeito := Efeito([], [], [], false, false, false)

  datatype Vida = Aberta | Destruida | Abortada

  /** What happened so far, for the properties to speak of. */
  datatype Historia = Historia(
    agora: real,                  // time of the last event
    ultimo: real,                 // time of the last chunk
    recebido: bytes,              // everything that arrived, ignored or not
    consumido: bytes,             // everything cut off the buffer as frames
    processados: seq<PacoteRIP>,  // every frame accepted
    ambientes: seq<Ambiente>,     // and what was outside when each was handled
    parcial: Option<real>,        // when a firing first found the frame at the head incomplete
    nivel: nat,                   // how many times the minimum backoff is doubled
    recuos: seq<real>)            // when the backoff was reduced

  datatype Estado = Estado(
    recv_buf: bytes,
    backoff: real,
    ignorar: bool,
    central_identificada: bool,
    to_ident: Option<real>,
    to_comm: Option<real>,
    to_processa: Option<real>,
    to_incompleta: Option<real>,
    to_backoff: Option<real>,
    enviados: seq<bytes>,
    ganchos: seq<Gancho>,
    fotos: seq<FotoPedida>,
    vida: Vida,
    h: Historia)

  function Inicial(agora: real, lotado: bool): Estado {
    Estado([], BACKOFF_MINIMO, lotado, false, Some(agora + PRAZO_IDENT), Some(agora + PRAZO_COMM), None, None, None,
           [], [], [], Aberta, Historia(agora, agora, [], [], [], [], None, 0, []))
  }

  /** Photos 0 to n - 1 of an event. */
  function FotosDoEvento(indice: int, n: int): (fs: seq<FotoPedida>)
    ensures |fs| == if n > 0 then n else 0
    ensures forall i :: 0 <= i < |fs| ==> fs[i] == FotoPedida(indice, i)
  {
    if n <= 0 then [] else FotosDoEvento(indice, n - 1) + [FotoPedida(indice, n - 1)]
  }

  /** The scripts and the photos that an alarm calls for; photos only of events that are in the table. */
  function EfeitoDoAlarme(r: RIPAlarme, comFoto: bool): Efeito {
    Efeito([[0xfe]], GanchosDoAlarme(r),
           if r.CodigoConhecido && comFoto then FotosDoEvento(r.IndiceFotos, r.NrFotos) else [],
           false, false, false)
  }

  function EfeitoDaIdentificacao(msg: bytes, amb: Ambiente): Efeito {
    var tamanhoErrado := if |msg| != 7 then [[0xfe]] else [];
    if msg == [] then NADA.(respostas := tamanhoErrado, excecao := true)
    else if !amb.centralValida || !amb.vaga then NADA.(respostas := tamanhoErrado, ignora := true)
    else NADA.(respostas := tamanhoErrado + [[0xfe]], identifica := true)
  }

  /** The effect of one frame on everything but the buffer and the schedule. */
  function Trata(p: PacoteRIP, amb: Ambiente): Efeito {
    if !p.Longo then NADA.(respostas := [[0xfe]])
    else if p.Tipo == 0x80 then NADA.(respostas := [RIPRespostaDataHora(amb.relogio).Encode()])
    else if p.Tipo == 0x94 then EfeitoDaIdentificacao(p.Payload, amb)
    else if p.Tipo == 0xb0 then EfeitoDoAlarme(AlarmeSemConsistir(p, false, amb.tabela), false)
    else if p.Tipo == 0xb5 then EfeitoDoAlarme(AlarmeSemConsistir(p, true, amb.tabela), true)
    else NADA.(respostas := [[0xfe]])
  }

  /** The frame that ends the program: an identification with nothing in it. */
  const FATAL: PacoteRIP := PacoteRIP(true, 0x94, [])

  /** An identification that the filter or the connection limit turns away. */
  predicate Recusada(p: PacoteRIP, amb: Ambiente) {
    p.Longo && p.Tipo == 0x94 && p.Payload != [] && (!amb.centralValida || !amb.vaga)
  }

  /** An identification that is let in. */
  predicate Aceita(p: PacoteRIP, amb: Ambiente) {
    p.Longo && p.Tipo == 0x94 && p.Payload != [] && amb.centralValida && amb.vaga
  }

  /** An identification neither malformed nor turned away, or both; any other frame. */
  predicate Regular(p: PacoteRIP, amb: Ambiente) {
    p.Longo && p.Tipo == 0x94 ==> (|p.Payload| == 7) == (p.Payload != [] && amb.centralValida && amb.vaga)
  }

  /** One frame gets one answer, and then the one that the Go receiver gives, exactly when it is regular. */
  lemma UmaRespostaSse(p: PacoteRIP, amb: Ambiente)
    ensures |Trata(p, amb).respostas| == 1 <==> Regular(p, amb)
    ensures Regular(p, amb) ==> Trata(p, amb).respostas == [ReceptorTratador.Resposta(p, amb.relogio)]
  {}

  /** One effect after another. */
  function Soma(a: Efeito, b: Efeito): Efeito {
    Efeito(a.respostas + b.respostas, a.ganchos + b.ganchos, a.fotos + b.fotos,
           a.ignora || b.ignora, a.identifica || b.identifica, a.excecao || b.excecao)
  }

  /** What a sequence of frames amounts to: the effect of each, in frame order. */
  function EfeitoDe(ps: seq<PacoteRIP>, ambs: seq<Ambiente>): Efeito
    requires |ps| == |ambs|
  {
    if ps == [] then NADA
    else
      var n := |ps| - 1;
      Soma(EfeitoDe(ps[..n], ambs[..n]), Trata(ps[n], ambs[n]))
  }

  lemma MaisUmEfeito(ps: seq<PacoteRIP>, ambs: seq<Ambiente>, p: PacoteRIP, amb: Ambiente)
    requires |ps| == |ambs|
    ensures EfeitoDe(ps + [p], ambs + [amb]) == Soma(EfeitoDe(ps, ambs), Trata(p, amb))
  {
    assert (ps + [p])[..|ps|] == ps && (ambs + [amb])[..|ps|] == ambs;
  }

  // ------------------------------------------------------------------- Steps

  function Chega(s: Estado, dados: bytes, t: real): Estado {
    var s1 := s.(h := s.h.(recebido := s.h.recebido + dados, agora := t));
    if s.ignorar then s1.(recv_buf := [])
    else s1.(recv_buf := s.recv_buf + dados,
             to_comm := Some(t + PRAZO_COMM),
             to_processa := if s.to_processa.Some? then s.to_processa else Some(t + s.backoff),
             h := s1.h.(ultimo := t))
  }

  /** One frame leaves the buffer and has its effect; an exception ends the program there. */
  function Consome(s: Estado, amb: Ambiente): Estado {
    var (p, n) := ExtrairFrameRIP(s.recv_buf);
    var ef := Trata(p, amb);
    s.(recv_buf := s.recv_buf[n..],
       enviados := s.enviados + ef.respostas,
       ganchos := s.ganchos + ef.ganchos,
       fotos := s.fotos + ef.fotos,
       ignorar := s.ignorar || ef.ignora,
       central_identificada := s.central_identificada || ef.identifica,
       to_ident := if ef.identifica then None else s.to_ident,
       vida := if ef.excecao then Abortada else s.vida,
       h := s.h.(consumido := s.h.consumido + s.recv_buf[..n],
                 processados := if ef.excecao then s.h.processados else s.h.processados + [p],
                 ambientes := if ef.excecao then s.h.ambientes else s.h.ambientes + [amb]))
  }

  lemma ConsomeQuando(s: Estado, amb: Ambiente, s': Estado)
    requires var (p, n) := ExtrairFrameRIP(s.recv_buf);
             var ef := Trata(p, amb);
             && s.vida == Aberta && s'.recv_buf == s.recv_buf[n..] && s'.enviados == s.enviados + ef.respostas
             && s'.ganchos == s.ganchos + ef.ganchos && s'.fotos == s.fotos + ef.fotos
             && s'.ignorar == (s.ignorar || ef.ignora)
             && s'.central_identificada == (s.central_identificada || ef.identifica)
             && s'.to_ident == (if ef.identifica then None else s.to_ident)
             && s'.vida == (if ef.excecao then Abortada else Aberta)
             && s'.h == s.h.(consumido := s.h.consumido + s.recv_buf[..n],
                             processados := if ef.excecao then s.h.processados else s.h.processados + [p],
                             ambientes := if ef.excecao then s.h.ambientes else s.h.ambientes + [amb])
    requires s'.backoff == s.backoff && s'.to_comm == s.to_comm && s'.to_processa == s.to_processa
    requires s'.to_incompleta == s.to_incompleta && s'.to_backoff == s.to_backoff
    ensures s' == Consome(s, amb)
  {
    hide ExtrairFrameRIP, Trata;
  }

  function Avanca(s: Estado, t: real): Estado {
    var dobro := s.backoff * 2.0;
    s.(backoff := dobro, to_backoff := Some(t + Recuo(dobro)), h := s.h.(nivel := s.h.nivel + 1))
  }

  function Processa(s: Estado, amb: Ambiente, t: real): Estado {
    var s0 := s.(to_processa := None, h := s.h.(agora := t));
    if ExtrairFrameRIP(s.recv_buf).1 == 0 then
      if s.recv_buf != [] && s.to_incompleta.None? then
        s0.(to_incompleta := Some(t + PRAZO_INCOMPLETA), h := s0.h.(parcial := Some(t)))
      else s0
    else
      var s1 := Consome(s0, amb);
      if s1.vida == Abortada then s1
      else
        var s2 := Avanca(s1.(to_incompleta := None, h := s1.h.(parcial := None)), t);
        if s2.recv_buf == [] then s2 else s2.(to_processa := Some(t + s2.backoff))
  }

  function Recua(s: Estado, t: real): Estado {
    var metade := Max(s.backoff / 2.0, BACKOFF_MINIMO);
    s.(backoff := metade,
       to_backoff := if metade > BACKOFF_MINIMO then Some(t + Recuo(metade)) else None,
       h := s.h.(agora := t, nivel := if s.h.nivel == 0 then 0 else s.h.nivel - 1, recuos := s.h.recuos + [t]))
  }

  function Destroi(s: Estado, t: real): Estado {
    s.(vida := Destruida, h := s.h.(agora := t),
       to_ident := None, to_comm := None, to_processa := None, to_incompleta := None, to_backoff := None)
  }

  datatype Evento =
    | EvChega(dados: bytes)
    | EvProcessa(amb: Ambiente)
    | EvRecua
    | EvPrazoIdent
    | EvPrazoComm
    | EvPrazoIncompleta
    | EvEncerra                  // the peer closes, or the socket fails

  datatype Ocorrencia = Ocorrencia(evento: Evento, t: real)

  /** The timer that an event is the firing of. */
  function Prazo(s: Estado, e: Evento): Option<real> {
    match e
    case EvProcessa(_) => s.to_processa
    case EvRecua => s.to_backoff
    case EvPrazoIdent => s.to_ident
    case EvPrazoComm => s.to_comm
    case EvPrazoIncompleta => s.to_incompleta
    case _ => None
  }

  predicate EhPrazo(e: Evento) { !e.EvChega? && !e.EvEncerra? }

  /** Timers fire when due or later, never before. */
  predicate Habilitada(s: Estado, o: Ocorrencia) {
    && s.vida == Aberta && o.t >= s.h.agora
    && (EhPrazo(o.evento) ==> Prazo(s, o.evento).Some? && o.t >= Prazo(s, o.evento).value)
  }

  function Passo(s: Estado, o: Ocorrencia): Estado {
    match o.evento
    case EvChega(dados) => Chega(s, dados, o.t)
    case EvProcessa(amb) => Processa(s, amb, o.t)
    case EvRecua => Recua(s, o.t)
    case _ => Destroi(s, o.t)
  }

  predicate Possivel(s: Estado, os: seq<Ocorrencia>)
    decreases |os|
  {
    os != [] ==> Habilitada(s, os[0]) && Possivel(Passo(s, os[0]), os[1..])
  }

  function Roda(s: Estado, os: seq<Ocorrencia>): Estado
    decreases |os|
  {
    if os == [] then s else Roda(Passo(s, os[0]), os[1..])
  }

  // ------------------------------------------------------------ The schedule

  /**
   What every run keeps about the backoff.  A pending firing is due no earlier
   than the level it may raise the backoff to could have been reached.
   */
  predicate InvRitmo(s: Estado, inicio: real) {
    && s.backoff == Nivel(s.h.nivel)
    && |s.h.processados| == s.h.nivel + |s.h.recuos|
    && s.h.agora >= inicio
    && s.h.agora - inicio >= Nivel(s.h.nivel) - BACKOFF_MINIMO
    && (s.to_processa.Some? ==> s.to_processa.value - inicio >= Nivel(s.h.nivel + 1) - BACKOFF_MINIMO)
    && Espacados(s.h.recuos, inicio)
    && UltimoRecuo(s.h.recuos, inicio) <= s.h.agora
    && (s.to_backoff.Some? ==> s.h.nivel >= 1 && s.to_backoff.value >= UltimoRecuo(s.h.recuos, inicio) + 1.0)
    && (s.vida == Aberta && s.h.nivel >= 1 ==> s.to_backoff.Some?)
  }

  function UltimoRecuo(recuos: seq<real>, inicio: real): real {
    if recuos == [] then inicio else recuos[|recuos| - 1]
  }

  /** Each reduction comes at least a second after the one before it, the first after the start. */
  predicate Espacados(recuos: seq<real>, inicio: real) {
    recuos != [] ==>
      var antes := recuos[..|recuos| - 1];
      Espacados(antes, inicio) && recuos[|recuos| - 1] >= UltimoRecuo(antes, inicio) + 1.0
  }

  lemma {:induction false} RecuosLevamTempo(recuos: seq<real>, inicio: real)
    requires Espacados(recuos, inicio)
    ensures UltimoRecuo(recuos, inicio) - inicio >= |recuos| as real
  {
    if recuos != [] {
      RecuosLevamTempo(recuos[..|recuos| - 1], inicio);
    }
  }

  lemma RitmoMantido(s: Estado, o: Ocorrencia, inicio: real)
    requires InvRitmo(s, inicio) && Habilitada(s, o)
    ensures InvRitmo(Passo(s, o), inicio)
  {
    hide Processa, Recua, InvRitmo;
    match o.evento {
      case EvProcessa(amb) => RitmoProcessa(s, amb, o.t, inicio);
      case EvRecua => RitmoRecua(s, o.t, inicio);
      case _ => RitmoOutros(s, o, inicio);
    }
  }

  lemma RitmoProcessa(s: Estado, amb: Ambiente, t: real, inicio: real)
    requires InvRitmo(s, inicio) && s.vida == Aberta && t >= s.h.agora
    requires s.to_processa.Some? && t >= s.to_processa.value
    ensures InvRitmo(Processa(s, amb, t), inicio)
  {
    hide ExtrairFrameRIP, Consome, Avanca, Espacados, Nivel, UltimoRecuo;
    var s0 := s.(to_processa := None, h := s.h.(agora := t));
    ConsumoNaoAgenda(s0, amb);
    var s1 := Consome(s0, amb);
    if s1.vida != Abortada {
      RitmoAvanca(s1.(to_incompleta := None, h := s1.h.(parcial := None)), t, inicio);
    }
  }

  /** An accepted frame doubles the backoff, and the time for that has passed. */
  lemma RitmoAvanca(s: Estado, t: real, inicio: real)
    requires s.backoff == Nivel(s.h.nivel) && s.to_processa.None? && s.vida == Aberta
    requires |s.h.processados| == s.h.nivel + |s.h.recuos| + 1
    requires s.h.agora == t >= inicio && t - inicio >= Nivel(s.h.nivel + 1) - BACKOFF_MINIMO
    requires Espacados(s.h.recuos, inicio) && UltimoRecuo(s.h.recuos, inicio) <= t
    ensures var s' := Avanca(s, t);
            InvRitmo(s', inicio) && InvRitmo(s'.(to_processa := Some(t + s'.backoff)), inicio)
  {
    hide Espacados;
    assert Nivel(s.h.nivel + 2) == 2.0 * Nivel(s.h.nivel + 1);
  }

  /** Handling a frame leaves the schedule alone. */
  lemma ConsumoNaoAgenda(s: Estado, amb: Ambiente)
    ensures var s' := Consome(s, amb);
            && s'.backoff == s.backoff
            && s'.h.nivel == s.h.nivel && s'.h.recuos == s.h.recuos && s'.h.agora == s.h.agora
            && s'.to_processa == s.to_processa && s'.to_backoff == s.to_backoff
            && s'.to_comm == s.to_comm && s'.to_incompleta == s.to_incompleta
            && s'.h.recebido == s.h.recebido && s'.h.ultimo == s.h.ultimo && s'.h.parcial == s.h.parcial
            && (s'.to_ident == s.to_ident || s'.to_ident.None?)
            && (s.ignorar ==> s'.ignorar)
            && s'.recv_buf == s.recv_buf[ExtrairFrameRIP(s.recv_buf).1..]
            && (s'.vida != Abortada ==>
                  s'.vida == s.vida && s'.h.processados == s.h.processados + [ExtrairFrameRIP(s.recv_buf).0])
            && (s'.vida == Abortada && s.vida != Abortada ==> s'.h.processados == s.h.processados)
  {
    hide ExtrairFrameRIP, Trata;
  }

  lemma RitmoRecua(s: Estado, t: real, inicio: real)
    requires InvRitmo(s, inicio) && Habilitada(s, Ocorrencia(EvRecua, t))
    ensures InvRitmo(Recua(s, t), inicio)
  {
    assert Recua(s, t).h.recuos[..|s.h.recuos|] == s.h.recuos;
    assert Nivel(s.h.nivel) == 2.0 * Nivel(s.h.nivel - 1);
    assert s.h.nivel >= 2 ==> Nivel(s.h.nivel - 1) == 2.0 * Nivel(s.h.nivel - 2);
  }

  lemma RitmoOutros(s: Estado, o: Ocorrencia, inicio: real)
    requires InvRitmo(s, inicio) && Habilitada(s, o) && !o.evento.EvProcessa? && !o.evento.EvRecua?
    ensures InvRitmo(Passo(s, o), inicio)
  {
    hide Espacados;
  }

  // ---------------------------------------------------------- The byte stream

  /** The frame that ended the program, if one did. */
  function Fatais(s: Estado): seq<PacoteRIP> {
    if s.vida == Abortada then [FATAL] else []
  }

  /** What every run keeps about the bytes. */
  predicate InvFluxo(s: Estado) {
    && Frames(s.h.consumido) == s.h.processados + Fatais(s) && Sobra(s.h.consumido) == []
    && s.h.consumido + s.recv_buf <= s.h.recebido
    && (!s.ignorar ==> s.h.consumido + s.recv_buf == s.h.recebido)
    && (s.vida == Aberta && ExtrairFrameRIP(s.recv_buf).1 > 0 ==> s.to_processa.Some?)
    && (s.vida == Aberta && s.recv_buf != [] ==> s.to_processa.Some? || s.to_incompleta.Some?)
    && (s.vida == Aberta && !s.ignorar && s.to_incompleta.Some? ==> s.recv_buf != [])
    && (s.vida == Aberta ==> s.to_comm == Some(s.h.ultimo + PRAZO_COMM))
  }

  lemma FluxoMantido(s: Estado, o: Ocorrencia)
    requires InvFluxo(s) && Habilitada(s, o)
    ensures InvFluxo(Passo(s, o))
  {
    hide ExtrairFrameRIP, Consome, Frames, Sobra;
    match o.evento {
      case EvChega(dados) => FluxoChega(s, dados, o.t);
      case EvProcessa(amb) =>
        if ExtrairFrameRIP(s.recv_buf).1 > 0 {
          FluxoConsome(s, amb, o.t);
        }
      case _ =>
    }
  }

  lemma FluxoChega(s: Estado, dados: bytes, t: real)
    requires InvFluxo(s) && s.vida == Aberta
    ensures InvFluxo(Chega(s, dados, t))
  {
    hide ExtrairFrameRIP, Frames, Sobra;
    assert s.h.consumido + [] == s.h.consumido;
    ConcatAssoc(s.h.consumido, s.recv_buf, dados);
    if s.ignorar {
      assert ExtrairFrameRIP([]).1 == 0 by { NadaVazio(); }
    }
  }

  lemma NadaVazio()
    ensures ExtrairFrameRIP([]).1 == 0
  {}

  lemma FluxoConsome(s: Estado, amb: Ambiente, t: real)
    requires InvFluxo(s) && s.vida == Aberta && ExtrairFrameRIP(s.recv_buf).1 > 0
    ensures InvFluxo(Processa(s, amb, t))
  {
    hide ExtrairFrameRIP, Trata, Frames, Sobra;
    ConsomeUm(s.h.consumido, s.recv_buf);
    SoFatalAborta(ExtrairFrameRIP(s.recv_buf).0, amb);
    assert s.h.processados + [] == s.h.processados;
  }

  lemma SoFatalAborta(p: PacoteRIP, amb: Ambiente)
    ensures Trata(p, amb).excecao <==> p == FATAL
    ensures Trata(p, amb).ignora <==> Recusada(p, amb)
    ensures Trata(p, amb).identifica <==> Aceita(p, amb)
  {}

  /** Consuming the frame at the head of the buffer adds exactly that frame to those consumed. */
  lemma ConsomeUm(consumido: bytes, buffer: bytes)
    requires Sobra(consumido) == [] && ExtrairFrameRIP(buffer).1 > 0
    ensures var (p, n) := ExtrairFrameRIP(buffer);
            && Frames(consumido + buffer[..n]) == Frames(consumido) + [p]
            && Sobra(consumido + buffer[..n]) == []
            && consumido + buffer == (consumido + buffer[..n]) + buffer[n..]
  {
    hide ExtrairFrameRIP;
    var n := ExtrairFrameRIP(buffer).1;
    var quadro := buffer[..n];
    ExtracaoEstavel(buffer, n);
    FramesConcat(consumido, quadro);
    assert [] + quadro == quadro && quadro[n..] == [];
    assert ExtrairFrameRIP(quadro).1 == n;
    assert Frames([]) == [] && Sobra([]) == [] by { SobraIncompleta(consumido); }
  }

  // ---------------------------------------------------------------- All runs

  /** What every run keeps about the effects: those of the frames processed, in frame order, and no others. */
  predicate InvEfeitos(s: Estado, inicio: real, lotado: bool) {
    && |s.h.ambientes| == |s.h.processados|
    && var e := EfeitoDe(s.h.processados, s.h.ambientes);
       && s.enviados == e.respostas + (if s.vida == Abortada then [[0xfe]] else [])
       && s.ganchos == e.ganchos && s.fotos == e.fotos
       && s.ignorar == (lotado || e.ignora) && s.central_identificada == e.identifica && !e.excecao
       && (s.vida == Aberta ==> s.to_ident == if e.identifica then None else Some(inicio + PRAZO_IDENT))
  }

  lemma EfeitosMantidos(s: Estado, o: Ocorrencia, inicio: real, lotado: bool)
    requires InvEfeitos(s, inicio, lotado) && Habilitada(s, o)
    ensures InvEfeitos(Passo(s, o), inicio, lotado)
  {
    hide ExtrairFrameRIP, Trata, EfeitoDe;
    if o.evento.EvProcessa? && ExtrairFrameRIP(s.recv_buf).1 > 0 {
      EfeitosConsome(s.(to_processa := None, h := s.h.(agora := o.t)), o.evento.amb, inicio, lotado);
    }
  }

  lemma EfeitosConsome(s: Estado, amb: Ambiente, inicio: real, lotado: bool)
    requires InvEfeitos(s, inicio, lotado) && s.vida == Aberta
    ensures InvEfeitos(Consome(s, amb), inicio, lotado)
  {
    hide ExtrairFrameRIP, Trata, EfeitoDe;
    var p := ExtrairFrameRIP(s.recv_buf).0;
    MaisUmEfeito(s.h.processados, s.h.ambientes, p, amb);
    var e := EfeitoDe(s.h.processados, s.h.ambientes);
    assert e.respostas + [] == e.respostas;
    if Trata(p, amb).excecao {
      SoFatalAborta(p, amb);
      FatalSoResponde(amb);
      assert e.ganchos + [] == e.ganchos && e.fotos + [] == e.fotos;
    }
  }

  lemma FatalSoResponde(amb: Ambiente)
    ensures Trata(FATAL, amb) == NADA.(respostas := [[0xfe]], excecao := true)
  {}

  predicate Inv(s: Estado, inicio: real, lotado: bool) {
    InvRitmo(s, inicio) && InvFluxo(s) && InvEfeitos(s, inicio, lotado)
  }

  lemma {:induction false} InvariantesDe(s: Estado, os: seq<Ocorrencia>, inicio: real, lotado: bool)
    requires Inv(s, inicio, lotado) && Possivel(s, os)
    ensures Inv(Roda(s, os), inicio, lotado)
    decreases |os|
  {
    hide Passo, InvRitmo, InvFluxo, InvEfeitos;
    if os != [] {
      RitmoMantido(s, os[0], inicio);
      FluxoMantido(s, os[0]);
      EfeitosMantidos(s, os[0], inicio, lotado);
      InvariantesDe(Passo(s, os[0]), os[1..], inicio, lotado);
    }
  }

  lemma Invariantes(inicio: real, lotado: bool, os: seq<Ocorrencia>)
    requires Possivel(Inicial(inicio, lotado), os)
    ensures Inv(Roda(Inicial(inicio, lotado), os), inicio, lotado)
  {
    hide Roda, Possivel;
    assert Frames([]) == [] && Sobra([]) == [];
    InvariantesDe(Inicial(inicio, lotado), os, inicio, lotado);
  }

  /**
   Rate bound.  Whatever arrives and whenever, in T seconds at most T + K - 1
   frames are accepted, for any K with 2^K > 8 T + 1.
   */
  lemma LimiteDeVazao(inicio: real, lotado: bool, os: seq<Ocorrencia>, k: nat)
    requires Possivel(Inicial(inicio, lotado), os)
    requires Pot2(k) as real > 8.0 * (Roda(Inicial(inicio, lotado), os).h.agora - inicio) + 1.0
    ensures var s := Roda(Inicial(inicio, lotado), os);
            && s.h.nivel < k
            && |s.h.processados| as real <= (s.h.agora - inicio) + k as real - 1.0
  {
    hide Roda, Possivel;
    var s := Roda(Inicial(inicio, lotado), os);
    Invariantes(inicio, lotado, os);
    RecuosLevamTempo(s.h.recuos, inicio);
    NivelPorExtenso(k);
    if s.h.nivel >= k {
      NivelCresce(k, s.h.nivel);
    }
  }

  /** The deadlines of a connection: what each one pending waits for, and since when. */
  predicate InvPrazos(s: Estado) {
    s.vida == Aberta ==> s.to_incompleta == if s.h.parcial.None? then None else Some(s.h.parcial.value + 60.0)
  }

  lemma PrazosMantidos(s: Estado, o: Ocorrencia)
    requires InvPrazos(s) && Habilitada(s, o)
    ensures InvPrazos(Passo(s, o))
  {
    hide ExtrairFrameRIP, Consome;
    if o.evento.EvProcessa? {
      ConsumoNaoAgenda(s.(to_processa := None, h := s.h.(agora := o.t)), o.evento.amb);
    }
  }

  lemma {:induction false} PrazosDe(s: Estado, os: seq<Ocorrencia>)
    requires InvPrazos(s) && Possivel(s, os)
    ensures InvPrazos(Roda(s, os))
    decreases |os|
  {
    hide Passo, InvPrazos, Habilitada;
    if os != [] {
      PrazosMantidos(s, os[0]);
      PrazosDe(Passo(s, os[0]), os[1..]);
    }
  }

  /**
   In every run an open connection has 120 s from its start to identify its
   panel, 600 s from the last chunk that was not ignored to hear from it again,
   and 60 s from when its head frame was found incomplete to get the rest.
   */
  lemma PrazosDaCorrida(inicio: real, lotado: bool, os: seq<Ocorrencia>)
    requires Possivel(Inicial(inicio, lotado), os) && Roda(Inicial(inicio, lotado), os).vida == Aberta
    ensures var s := Roda(Inicial(inicio, lotado), os);
            && s.to_ident == (if s.central_identificada then None else Some(inicio + 120.0))
            && s.to_comm == Some(s.h.ultimo + 600.0)
            && s.to_incompleta == if s.h.parcial.None? then None else Some(s.h.parcial.value + 60.0)
  {
    hide Roda, Possivel, InvRitmo, EfeitoDe;
    Invariantes(inicio, lotado, os);
    PrazosDe(Inicial(inicio, lotado), os);
  }

  predicate SemTimers(s: Estado) {
    && s.to_ident == None && s.to_comm == None && s.to_processa == None && s.to_incompleta == None
    && s.to_backoff == None
  }

  /** A deadline ends the connection when it is due, and only when what it waits for did not come in its time. */
  lemma FimPorPrazo(inicio: real, lotado: bool, os: seq<Ocorrencia>, o: Ocorrencia)
    requires Possivel(Inicial(inicio, lotado), os) && Habilitada(Roda(Inicial(inicio, lotado), os), o)
    ensures var s := Roda(Inicial(inicio, lotado), os);
            && (o.evento.EvPrazoIdent? ==> !s.central_identificada && o.t >= inicio + 120.0)
            && (o.evento.EvPrazoComm? ==> o.t >= s.h.ultimo + 600.0)
            && (o.evento.EvPrazoIncompleta? ==> s.h.parcial.Some? && o.t >= s.h.parcial.value + 60.0)
            && (|| o.evento.EvPrazoIdent? || o.evento.EvPrazoComm? || o.evento.EvPrazoIncompleta? || o.evento.EvEncerra?
                ==> Passo(s, o).vida == Destruida && SemTimers(Passo(s, o)))
  {
    hide Roda, Possivel, Chega, Processa, Recua;
    PrazosDaCorrida(inicio, lotado, os);
  }

  /** When the wait for an incomplete frame begins and ends: only firings that find bytes decide it. */
  lemma EsperaDoQuadro(s: Estado, o: Ocorrencia)
    requires Habilitada(s, o) && Passo(s, o).vida == Aberta
    ensures var s' := Passo(s, o);
            && (o.evento.EvProcessa? && Frames(s.recv_buf) != [] ==> s'.to_incompleta == None)
            && (o.evento.EvProcessa? && Frames(s.recv_buf) == [] && s.recv_buf != [] ==>
                  s'.to_incompleta == if s.to_incompleta.Some? then s.to_incompleta else Some(o.t + 60.0))
            && (!o.evento.EvProcessa? || s.recv_buf == [] ==> s'.to_incompleta == s.to_incompleta)
  {
    hide ExtrairFrameRIP, Consome, Frames;
    NenhumQuadroSse(s.recv_buf);
    assert ExtrairFrameRIP([]).1 == 0 by { NadaVazio(); }
  }

  /** A connection that is ignored and has nothing in its buffer. */
  predicate Calada(s: Estado) { s.ignorar && s.recv_buf == [] }

  lemma CaladaMantida(s: Estado, o: Ocorrencia)
    requires Calada(s) && Habilitada(s, o)
    ensures var s' := Passo(s, o);
            && Calada(s') && s'.h.processados == s.h.processados && s'.enviados == s.enviados
            && s'.ganchos == s.ganchos && s'.fotos == s.fotos
            && s'.central_identificada == s.central_identificada && s'.vida != Abortada
  {
    hide ExtrairFrameRIP, Consome;
    assert ExtrairFrameRIP([]).1 == 0 by { NadaVazio(); }
  }

  lemma {:induction false} CaladaSempre(s: Estado, os: seq<Ocorrencia>)
    requires Calada(s) && s.vida != Abortada && Possivel(s, os)
    ensures var s' := Roda(s, os);
            && s'.h.processados == s.h.processados && s'.enviados == s.enviados
            && s'.ganchos == s.ganchos && s'.fotos == s.fotos
            && s'.central_identificada == s.central_identificada && s'.vida != Abortada
    decreases |os|
  {
    hide Passo, Calada;
    if os != [] {
      CaladaMantida(s, os[0]);
      CaladaSempre(Passo(s, os[0]), os[1..]);
    }
  }

  /**
   Ignoring is for good.  Once a chunk comes to a connection that is ignored,
   whatever comes after it, nothing more is processed, answered, announced or
   asked for, and nothing can identify its panel or end the program.
   */
  lemma IgnoradaCala(s: Estado, o: Ocorrencia, os: seq<Ocorrencia>)
    requires s.ignorar && o.evento.EvChega? && Possivel(s, [o] + os)
    ensures var s' := Roda(s, [o] + os);
            && s'.h.processados == s.h.processados && s'.enviados == s.enviados
            && s'.ganchos == s.ganchos && s'.fotos == s.fotos
            && s'.central_identificada == s.central_identificada && s'.vida != Abortada
  {
    assert ([o] + os)[0] == o && ([o] + os)[1..] == os;
    CaladaSempre(Passo(s, o), os);
  }

  function ChegadoEm(o: Ocorrencia): bytes {
    match o.evento case EvChega(dados) => dados case _ => []
  }

  /** Everything that arrived, in order. */
  function Chegado(os: seq<Ocorrencia>): bytes {
    if os == [] then [] else ChegadoEm(os[0]) + Chegado(os[1..])
  }

  lemma RecebeOQueChega(s: Estado, o: Ocorrencia)
    ensures Passo(s, o).h.recebido == s.h.recebido + ChegadoEm(o)
  {
    hide ExtrairFrameRIP, Consome;
    assert s.h.recebido + [] == s.h.recebido;
    if o.evento.EvProcessa? {
      ConsumoNaoAgenda(s.(to_processa := None, h := s.h.(agora := o.t)), o.evento.amb);
    }
  }

  lemma {:induction false} RecebidoEhChegado(s: Estado, os: seq<Ocorrencia>)
    ensures Roda(s, os).h.recebido == s.h.recebido + Chegado(os)
    decreases |os|
  {
    hide Passo, ChegadoEm;
    if os == [] {
      assert s.h.recebido + [] == s.h.recebido;
    } else {
      RecebidoEhChegado(Passo(s, os[0]), os[1..]);
      RecebeOQueChega(s, os[0]);
      ConcatAssoc(s.h.recebido, ChegadoEm(os[0]), Chegado(os[1..]));
    }
  }

  /**
   Scheduling refines reassembly, in every run.  The frames processed are the
   first frames of the whole stream, followed in it by the one that ended the
   program, if one did, and a complete frame in the buffer has its firing
   scheduled.  While nothing is ignored no byte is lost either, and when no
   firing is scheduled every frame of the stream has been processed.
   */
  lemma AgendaRefinaFrames(inicio: real, lotado: bool, os: seq<Ocorrencia>)
    requires Possivel(Inicial(inicio, lotado), os)
    ensures var s := Roda(Inicial(inicio, lotado), os);
            && s.h.consumido + s.recv_buf <= Chegado(os)
            && s.h.processados + Fatais(s) <= Frames(Chegado(os))
            && (s.vida == Aberta && Frames(s.recv_buf) != [] ==> s.to_processa.Some?)
            && (s.vida == Aberta && s.recv_buf != [] ==> s.to_processa.Some? || s.to_incompleta.Some?)
            && (!s.ignorar ==>
                  && s.h.consumido + s.recv_buf == Chegado(os)
                  && Frames(Chegado(os)) == s.h.processados + Fatais(s) + Frames(s.recv_buf)
                  && Sobra(Chegado(os)) == Sobra(s.recv_buf)
                  && (s.vida == Aberta && s.to_processa.None? ==>
                        s.h.processados == Frames(Chegado(os)) && s.recv_buf == Sobra(Chegado(os))))
  {
    hide Roda, Possivel, ExtrairFrameRIP, Frames, Sobra, Inv, Inicial;
    var s := Roda(Inicial(inicio, lotado), os);
    Invariantes(inicio, lotado, os);
    RecebidoEhChegado(Inicial(inicio, lotado), os);
    assert Inicial(inicio, lotado).h.recebido == [] && InvFluxo(s) by { DoInicio(inicio, lotado, s); }
    assert [] + Chegado(os) == Chegado(os);
    FluxoRefina(s);
  }

  lemma DoInicio(inicio: real, lotado: bool, s: Estado)
    ensures Inicial(inicio, lotado).h.recebido == []
    ensures Inv(s, inicio, lotado) ==> InvRitmo(s, inicio) && InvFluxo(s) && InvEfeitos(s, inicio, lotado)
  {}

  lemma FluxoRefina(s: Estado)
    requires InvFluxo(s)
    ensures s.h.processados + Fatais(s) <= Frames(s.h.recebido)
    ensures s.vida == Aberta && Frames(s.recv_buf) != [] ==> s.to_processa.Some?
    ensures !s.ignorar ==>
              && Frames(s.h.recebido) == s.h.processados + Fatais(s) + Frames(s.recv_buf)
              && Sobra(s.h.recebido) == Sobra(s.recv_buf)
              && (s.vida == Aberta && s.to_processa.None? ==>
                    Frames(s.recv_buf) == [] && s.recv_buf == Sobra(s.recv_buf))
  {
    hide ExtrairFrameRIP, Frames, Sobra;
    var resto := s.h.recebido[|s.h.consumido|..];
    RestoDoFluxo(s.h.consumido, s.recv_buf, s.h.recebido);
    FramesDepois(s.h.consumido, resto);
    NenhumQuadroSse(s.recv_buf);
  }

  lemma RestoDoFluxo(inicio: bytes, meio: bytes, fluxo: bytes)
    requires inicio + meio <= fluxo
    ensures inicio + fluxo[|inicio|..] == fluxo
    ensures inicio + meio == fluxo ==> fluxo[|inicio|..] == meio
  {}

  lemma FramesDepois(a: bytes, b: bytes)
    requires Sobra(a) == []
    ensures Frames(a + b) == Frames(a) + Frames(b) && Sobra(a + b) == Sobra(b)
  {
    hide Frames, Sobra;
    FramesConcat(a, b);
    assert [] + b == b;
  }

  lemma NenhumQuadroSse(fluxo: bytes)
    ensures Frames(fluxo) == [] <==> ExtrairFrameRIP(fluxo).1 == 0
    ensures Frames(fluxo) == [] ==> Sobra(fluxo) == fluxo
  {
    hide ExtrairFrameRIP;
  }

  /**
   The two receivers agree.  On the same stream, in whatever chunks each of them
   gets it, this one has processed the first of the frames that a receiver
   draining its buffer after every chunk sees, and all of them once it is idle
   and ignores nothing.
   */
  lemma MesmosQuadrosQueGo(inicio: real, lotado: bool, os: seq<Ocorrencia>, pedacos: seq<bytes>)
    requires Possivel(Inicial(inicio, lotado), os) && Concat(pedacos) == Chegado(os)
    ensures var s := Roda(Inicial(inicio, lotado), os);
            && s.h.processados <= Leitor(pedacos).0
            && (s.vida == Aberta && s.to_processa.None? && !s.ignorar ==>
                  (s.h.processados, s.recv_buf) == Leitor(pedacos))
  {
    hide Roda, Possivel, Leitor, Frames, Sobra;
    AgendaRefinaFrames(inicio, lotado, os);
    FramesIndependemDosPedacos(pedacos);
  }

  // ------------------------------------------------- What ends or mutes a run

  /** A firing ends the program exactly when the frame at the head of the buffer is an empty identification. */
  lemma AbortaNoDisparoSse(s: Estado, o: Ocorrencia)
    requires Habilitada(s, o)
    ensures Passo(s, o).vida == Abortada <==>
            o.evento.EvProcessa? && Frames(s.recv_buf) != [] && Frames(s.recv_buf)[0] == FATAL
  {
    hide ExtrairFrameRIP, Trata;
    if o.evento.EvProcessa? {
      SoFatalAborta(ExtrairFrameRIP(s.recv_buf).0, o.evento.amb);
    }
  }

  lemma {:induction false} SemExcecao(ps: seq<PacoteRIP>, ambs: seq<Ambiente>)
    requires |ps| == |ambs|
    ensures EfeitoDe(ps, ambs).excecao <==> FATAL in ps
    ensures EfeitoDe(ps, ambs).ignora <==> exists i :: 0 <= i < |ps| && Recusada(ps[i], ambs[i])
    ensures EfeitoDe(ps, ambs).identifica <==> exists i :: 0 <= i < |ps| && Aceita(ps[i], ambs[i])
  {
    if ps != [] {
      var n := |ps| - 1;
      SemExcecao(ps[..n], ambs[..n]);
      SoFatalAborta(ps[n], ambs[n]);
      assert ps == ps[..n] + [ps[n]] && ambs == ambs[..n] + [ambs[n]];
      hide Trata, Recusada, Aceita;
      if i :| 0 <= i < n && Recusada(ps[i], ambs[i]) {
        assert Recusada(ps[..n][i], ambs[..n][i]);
      }
      if i :| 0 <= i < n && Aceita(ps[i], ambs[i]) {
        assert Aceita(ps[..n][i], ambs[..n][i]);
      }
    }
  }

  /**
   Which streams end the program.  It ends at the first empty identification and
   nowhere else: the frames processed before have none, the frame after them is
   one.  And if nothing is ignored an empty identification does end it: a
   connection that is open with no firing scheduled has received none.
   */
  lemma AbortaSse(inicio: real, lotado: bool, os: seq<Ocorrencia>)
    requires Possivel(Inicial(inicio, lotado), os)
    ensures var (s, todos) := (Roda(Inicial(inicio, lotado), os), Frames(Chegado(os)));
            && FATAL !in s.h.processados
            && (s.vida == Abortada ==> |s.h.processados| < |todos| && todos[|s.h.processados|] == FATAL)
            && (!s.ignorar && (s.vida == Abortada || (s.vida == Aberta && s.to_processa.None?)) ==>
                  (s.vida == Abortada <==> FATAL in todos))
  {
    hide Roda, Possivel, Frames, Sobra, InvRitmo, InvFluxo;
    var s := Roda(Inicial(inicio, lotado), os);
    Invariantes(inicio, lotado, os);
    AgendaRefinaFrames(inicio, lotado, os);
    SemExcecao(s.h.processados, s.h.ambientes);
    if s.vida == Abortada {
      assert (s.h.processados + [FATAL])[|s.h.processados|] == FATAL;
    }
  }

  /**
   A connection is being ignored exactly when it was one too many, or an
   identification it sent was turned away; its panel is identified exactly when
   one was let in.
   */
  lemma IgnoraSse(inicio: real, lotado: bool, os: seq<Ocorrencia>)
    requires Possivel(Inicial(inicio, lotado), os)
    ensures var s := Roda(Inicial(inicio, lotado), os);
            && |s.h.ambientes| == |s.h.processados|
            && (s.ignorar <==>
                lotado || exists i :: 0 <= i < |s.h.processados| && Recusada(s.h.processados[i], s.h.ambientes[i]))
            && (s.central_identificada <==>
                exists i :: 0 <= i < |s.h.processados| && Aceita(s.h.processados[i], s.h.ambientes[i]))
  {
    hide Roda, Possivel, InvRitmo, InvFluxo, Recusada, Aceita;
    var s := Roda(Inicial(inicio, lotado), os);
    Invariantes(inicio, lotado, os);
    SemExcecao(s.h.processados, s.h.ambientes);
  }

  /** A run of one chunk and one firing, the shortest that handles a frame. */
  function UmQuadro(dados: bytes, amb: Ambiente): seq<Ocorrencia> {
    [Ocorrencia(EvChega(dados), 0.0), Ocorrencia(EvProcessa(amb), 0.125)]
  }

  lemma RodaUmQuadro(dados: bytes, amb: Ambiente)
    ensures var s := Chega(Inicial(0.0, false), dados, 0.0);
            && Possivel(Inicial(0.0, false), UmQuadro(dados, amb))
            && Roda(Inicial(0.0, false), UmQuadro(dados, amb)) == Processa(s, amb, 0.125)
  {
    hide Processa;
    var s0, os := Inicial(0.0, false), UmQuadro(dados, amb);
    var s1 := Passo(s0, os[0]);
    assert os[1..] == [os[1]];
    RodaUma(s1, os[1]);
  }

  lemma RodaUma(s: Estado, o: Ocorrencia)
    ensures Roda(s, [o]) == Passo(s, o) && (Habilitada(s, o) ==> Possivel(s, [o]))
  {
    hide Passo, Habilitada;
    assert [o][1..] == [];
  }

  /** Two octets at the start of a connection end the program. */
  lemma AbortaExiste(amb: Ambiente)
    ensures var os := UmQuadro([0x00, 0x94], amb);
            Possivel(Inicial(0.0, false), os) && Roda(Inicial(0.0, false), os).vida == Abortada
  {
    hide Roda, Possivel;
    RodaUmQuadro([0x00, 0x94], amb);
  }

  // ------------------------------------------------------------- The answers

  /** One answer per frame, in frame order. */
  predicate UmaPorQuadro(ps: seq<PacoteRIP>, ambs: seq<Ambiente>, respostas: seq<bytes>)
    requires |ps| == |ambs|
  {
    |respostas| == |ps| && forall i :: 0 <= i < |ps| ==> Trata(ps[i], ambs[i]).respostas == [respostas[i]]
  }

  predicate TodosRegulares(ps: seq<PacoteRIP>, ambs: seq<Ambiente>)
    requires |ps| == |ambs|
  {
    forall i :: 0 <= i < |ps| ==> Regular(ps[i], ambs[i])
  }

  lemma {:induction false} UmaPorQuadroSse(ps: seq<PacoteRIP>, ambs: seq<Ambiente>)
    requires |ps| == |ambs|
    ensures UmaPorQuadro(ps, ambs, EfeitoDe(ps, ambs).respostas) <==> TodosRegulares(ps, ambs)
  {
    hide Trata, Regular;
    forall i | 0 <= i < |ps|
      ensures |Trata(ps[i], ambs[i]).respostas| == 1 <==> Regular(ps[i], ambs[i])
    {
      UmaRespostaSse(ps[i], ambs[i]);
    }
    if ps != [] {
      var n := |ps| - 1;
      UmaPorQuadroSse(ps[..n], ambs[..n]);
      if TodosRegulares(ps, ambs) {
        assert TodosRegulares(ps[..n], ambs[..n]) by {
          assert forall i :: 0 <= i < n ==> Regular(ps[..n][i], ambs[..n][i]) == Regular(ps[i], ambs[i]);
        }
        RespostaNoFim(ps, ambs);
      }
    }
  }

  lemma RespostaNoFim(ps: seq<PacoteRIP>, ambs: seq<Ambiente>)
    requires |ps| == |ambs| > 0
    requires UmaPorQuadro(ps[..|ps| - 1], ambs[..|ps| - 1], EfeitoDe(ps[..|ps| - 1], ambs[..|ps| - 1]).respostas)
    requires |Trata(ps[|ps| - 1], ambs[|ps| - 1]).respostas| == 1
    ensures UmaPorQuadro(ps, ambs, EfeitoDe(ps, ambs).respostas)
  {
    hide Trata;
    var n := |ps| - 1;
    var antes, ultima := EfeitoDe(ps[..n], ambs[..n]).respostas, Trata(ps[n], ambs[n]).respostas;
    assert EfeitoDe(ps, ambs).respostas == antes + ultima && ultima == [ultima[0]];
    forall i | 0 <= i < n
      ensures Trata(ps[i], ambs[i]).respostas == [antes[i]]
    {
      assert ps[..n][i] == ps[i] && ambs[..n][i] == ambs[i];
    }
  }

  /**
   The answers of a whole run: those of each processed frame, in frame order,
   and after an empty identification one more.  There is one answer per frame
   exactly when every identification was well-formed and let in, or neither.
   */
  lemma RespostasDaCorrida(inicio: real, lotado: bool, os: seq<Ocorrencia>)
    requires Possivel(Inicial(inicio, lotado), os)
    ensures var s := Roda(Inicial(inicio, lotado), os);
            && |s.h.ambientes| == |s.h.processados|
            && s.enviados == EfeitoDe(s.h.processados, s.h.ambientes).respostas
                             + (if s.vida == Abortada then [[0xfe]] else [])
            && (s.vida != Abortada ==>
                  (UmaPorQuadro(s.h.processados, s.h.ambientes, s.enviados) <==>
                   TodosRegulares(s.h.processados, s.h.ambientes)))
  {
    hide Roda, Possivel, InvRitmo, InvFluxo, EfeitoDe, UmaPorQuadro, TodosRegulares;
    var s := Roda(Inicial(inicio, lotado), os);
    Invariantes(inicio, lotado, os);
    UmaPorQuadroSse(s.h.processados, s.h.ambientes);
    var e := EfeitoDe(s.h.processados, s.h.ambientes);
    assert e.respostas + [] == e.respostas;
  }

  /** Regular frames get from the Python receiver the very answers that the Go one gives, at the same clock. */
  lemma {:induction false} RespostasComoGo(ps: seq<PacoteRIP>, ambs: seq<Ambiente>, relogio: nat -> Instante)
    requires |ps| == |ambs| && TodosRegulares(ps, ambs)
    requires forall i :: 0 <= i < |ps| ==> relogio(i) == ambs[i].relogio
    ensures EfeitoDe(ps, ambs).respostas == ReceptorTratador.RespostasDe(ps, relogio)
  {
    hide Trata, Regular;
    if ps != [] {
      var n := |ps| - 1;
      RespostasComoGo(ps[..n], ambs[..n], relogio);
      UmaRespostaSse(ps[n], ambs[n]);
    }
  }

  /** An identification of one octet, let in, is answered twice. */
  lemma DuasRespostas(amb: Ambiente)
    requires amb.centralValida && amb.vaga
    ensures var os := UmQuadro([0x01, 0x94, 0x45], amb);
            && Possivel(Inicial(0.0, false), os)
            && Roda(Inicial(0.0, false), os).h.processados == [PacoteRIP(true, 0x94, [0x45])]
            && Roda(Inicial(0.0, false), os).enviados == [[0xfe], [0xfe]]
  {
    hide Roda, Possivel;
    RodaUmQuadro([0x01, 0x94, 0x45], amb);
    var d: bytes := [0x01, 0x94, 0x45];
    assert [] + d == d && d[2..3] == [0x45];
    assert ExtrairFrameRIP(d) == (PacoteRIP(true, 0x94, [0x45]), 3);
  }

  /** Only alarms run scripts, and only alarms with photos queue any. */
  lemma SoAlarmeAvisa(p: PacoteRIP, amb: Ambiente)
    ensures !p.Longo || (p.Tipo != 0xb0 && p.Tipo != 0xb5) ==> Trata(p, amb).ganchos == [] && Trata(p, amb).fotos == []
    ensures !p.Longo || p.Tipo != 0xb5 ==> Trata(p, amb).fotos == []
    ensures p.Longo && p.Tipo == 0xb0 && |p.Payload| != 17 ==> Trata(p, amb) == NADA.(respostas := [[0xfe]])
    ensures p.Longo && p.Tipo == 0xb5 && |p.Payload| != 20 ==> Trata(p, amb) == NADA.(respostas := [[0xfe]])
  {}

  /** An alarm without photos is answered and has both scripts run with its fields, and nothing else happens. */
  lemma AlarmeAvisa(a: Alarme, resto: bytes, amb: Ambiente)
    requires a.Valido()
    ensures Trata(ExtrairFrameRIP(PacoteRIP(true, 0xb0, [0xb0] + a.Campos()).Encode() + resto).0, amb)
         == Efeito([[0xfe]],
                   [Ev(a.codigo, a.particao, a.zona, a.qualificador as int), Msg(Leitura(a, false, 0, 0, amb.tabela))],
                   [], false, false, false)
  {
    hide AlarmeSemConsistir, AlarmeDoPacote;
    var corpo := [0xb0] + a.Campos();
    var p := ExtrairFrameRIP(PacoteRIP(true, 0xb0, corpo).Encode() + resto).0;
    AlarmeSemFotos(a, resto, amb.tabela);
    LeiturasConcordamSse(p, false, amb.tabela);
    assert PacoteRIP(true, 0xb0, corpo).Encode() == PacoteRIP(true, 0, corpo).Encode();
    EncodeExtrairSse(corpo, resto);
  }

  /**
   An encoded identification: let in, it identifies the panel and is answered;
   turned away, it mutes the connection and is not.  No other frame does either.
   */
  lemma IdentificacaoCodificada(corpo: Corpo, amb: Ambiente)
    ensures var ef := Trata(QuadroDoCorpo(corpo), amb);
            && (corpo[0] == 0x94 && |corpo| == 7 ==>
                  if amb.centralValida && amb.vaga then ef == NADA.(respostas := [[0xfe]], identifica := true)
                  else ef == NADA.(ignora := true))
            && (corpo[0] != 0x94 ==> !ef.identifica && !ef.ignora && !ef.excecao)
  {}

  /** A request for the date is answered with it. */
  lemma DataHoraRespondida(corpo: Corpo, amb: Ambiente)
    requires corpo[0] == 0x80
    ensures Trata(QuadroDoCorpo(corpo), amb) == NADA.(respostas := [RIPRespostaDataHora(amb.relogio).Encode()])
  {}

  /** An alarm with photos has both scripts run and, if its event is in the table, its photos queued in order. */
  lemma AlarmePedeFotos(a: Alarme, resto: bytes, chk: byte, indice: nat, nrFotos: byte, amb: Ambiente)
    requires a.Valido() && indice < 65536
    ensures var ef := Trata(ExtrairFrameRIP(QuadroComFotos(a, chk, indice, nrFotos) + resto).0, amb);
            && ef.respostas == [[0xfe]]
            && ef.ganchos == [Ev(a.codigo, a.particao, a.zona, a.qualificador as int),
                              Msg(Leitura(a, true, indice, nrFotos as int, amb.tabela))]
            && |ef.fotos| == (if Conhecido(amb.tabela, a.tipo, a.codigo, a.qualificador as int) then nrFotos as int
                              else 0)
            && forall i :: 0 <= i < |ef.fotos| ==> ef.fotos[i] == FotoPedida(indice, i)
  {
    hide ExtrairFrameRIP, QuadroComFotos, AlarmeSemConsistir, AlarmeDoPacote;
    var p := ExtrairFrameRIP(QuadroComFotos(a, chk, indice, nrFotos) + resto).0;
    AlarmeComFotos(a, resto, amb.tabela, chk, indice, nrFotos);
    LeiturasConcordamSse(p, true, amb.tabela);
    assert p.Longo by { ExtraiComFotos(a, resto, chk, indice, nrFotos); }
  }

  // ------------------------------------------------------- Firings on time

  predicate NadaAntes(s: Estado, t: real) {
    && (s.to_ident.Some? ==> s.to_ident.value >= t)
    && (s.to_comm.Some? ==> s.to_comm.value >= t)
    && (s.to_processa.Some? ==> s.to_processa.value >= t)
    && (s.to_incompleta.Some? ==> s.to_incompleta.value >= t)
    && (s.to_backoff.Some? ==> s.to_backoff.value >= t)
  }

  /** The timer due first fires, on time. */
  predicate DisparoPontual(s: Estado, o: Ocorrencia) {
    && Habilitada(s, o) && EhPrazo(o.evento)
    && o.t == Prazo(s, o.evento).value && NadaAntes(s, o.t)
  }

  /** A run in which nothing arrives and every firing is on time. */
  predicate Pontual(s: Estado, os: seq<Ocorrencia>)
    decreases |os|
  {
    os != [] ==> DisparoPontual(s, os[0]) && Pontual(Passo(s, os[0]), os[1..])
  }

  /** The connection's own deadlines all lie beyond the horizon. */
  predicate SemFimAte(s: Estado, fim: real) {
    && (s.to_ident.Some? ==> s.to_ident.value > fim)
    && (s.to_comm.Some? ==> s.to_comm.value > fim)
    && (s.to_incompleta.Some? ==> s.to_incompleta.value > fim)
  }

  /** A frame waits, its firing was armed at time t0, and no reduction of the backoff is due before it. */
  predicate Armado(s: Estado, t0: real) {
    && s.backoff == Nivel(s.h.nivel) && s.to_processa == Some(t0 + s.backoff)
    && (s.to_backoff.Some? ==> s.to_backoff.value > t0 + s.backoff)
    && Frames(s.recv_buf) != []
  }

  /** A chunk arms the firing, one backoff later, if none is armed, and however many chunks come none puts it off. */
  lemma {:induction false} ChegadasNaoAdiam(s: Estado, os: seq<Ocorrencia>)
    requires Possivel(s, os) && !s.ignorar && os != []
    requires forall i :: 0 <= i < |os| ==> os[i].evento.EvChega?
    ensures Roda(s, os).to_processa == if s.to_processa.Some? then s.to_processa else Some(os[0].t + s.backoff)
    decreases |os|
  {
    if |os| > 1 {
      ChegadasNaoAdiam(Passo(s, os[0]), os[1..]);
    }
  }

  /** Frames that arrive at an idle connection whose backoff is at its minimum. */
  lemma ChegadaArma(s: Estado, dados: bytes, t: real)
    requires !s.ignorar && s.to_processa.None? && s.to_backoff.None? && s.backoff == Nivel(s.h.nivel)
    requires Frames(s.recv_buf + dados) != []
    ensures Armado(Chega(s, dados, t), t) && Chega(s, dados, t).recv_buf == s.recv_buf + dados
  {
    hide ExtrairFrameRIP, Frames;
  }

  lemma DisparoDeQuadro(s: Estado, o: Ocorrencia, t0: real, fim: real)
    requires Armado(s, t0) && DisparoPontual(s, o) && SemFimAte(s, fim) && fim >= t0 + s.backoff
    ensures o.t == t0 + s.backoff
    ensures var s' := Passo(s, o);
            && s'.h.agora == o.t && s'.h.recuos == s.h.recuos
            && (s'.vida != Abortada ==>
                  && s'.vida == Aberta && s'.h.nivel == s.h.nivel + 1 && SemFimAte(s', fim)
                  && s'.h.processados == s.h.processados + [Frames(s.recv_buf)[0]]
                  && Frames(s'.recv_buf) == Frames(s.recv_buf)[1..]
                  && (Frames(s'.recv_buf) != [] ==> Armado(s', o.t)))
  {
    hide ExtrairFrameRIP, Consome;
    assert o.evento.EvProcessa?;
    ConsumoNaoAgenda(s.(to_processa := None, h := s.h.(agora := o.t)), o.evento.amb);
    assert Frames([]) == [] by { SobraIncompleta(s.recv_buf); }
  }

  /**
   Exact drain times.  From a first firing armed at time t0, on-time firings
   process the i-th waiting frame when the delays doubled i times have passed,
   and the backoff is never reduced in between.
   */
  lemma {:induction false} DrenagemExata(s: Estado, os: seq<Ocorrencia>, t0: real)
    requires Armado(s, t0) && Pontual(s, os) && 1 <= |os| <= |Frames(s.recv_buf)|
    requires SemFimAte(s, t0 + Nivel(s.h.nivel + |os|) - Nivel(s.h.nivel))
    ensures var s' := Roda(s, os);
            && s'.h.agora == t0 + Nivel(s.h.nivel + |os|) - Nivel(s.h.nivel)
            && s'.h.recuos == s.h.recuos
            && (s'.vida != Abortada ==>
                  s'.h.nivel == s.h.nivel + |os| && s'.h.processados == s.h.processados + Frames(s.recv_buf)[..|os|])
    decreases |os|
  {
    hide Passo, ExtrairFrameRIP, DisparoPontual;
    var fim := t0 + Nivel(s.h.nivel + |os|) - Nivel(s.h.nivel);
    var s1 := Passo(s, os[0]);
    NivelCresce(s.h.nivel + 1, s.h.nivel + |os|);
    DisparoDeQuadro(s, os[0], t0, fim);
    if |os| > 1 {
      assert s1.vida == Aberta by { PontualEstaAberta(s1, os[1..]); }
      DrenagemExata(s1, os[1..], os[0].t);
    }
  }

  /** From the minimum backoff the n-th of n waiting frames is processed (2^n - 1) / 8 s after the first was armed. */
  lemma DrenagemDoMinimo(s: Estado, os: seq<Ocorrencia>, t0: real)
    requires Armado(s, t0) && Pontual(s, os) && 1 <= |os| <= |Frames(s.recv_buf)| && s.h.nivel == 0
    requires SemFimAte(s, t0 + Nivel(|os|) - Nivel(0))
    ensures Roda(s, os).h.agora == t0 + (Pot2(|os|) as real - 1.0) / 8.0
  {
    hide Roda, Pontual, Armado, Frames, SemFimAte;
    DrenagemExata(s, os, t0);
    NivelPorExtenso(|os|);
    NivelPorExtenso(0);
  }

  /** The firings of the next n frames, each when it is due. */
  function Disparos(s: Estado, n: nat, amb: Ambiente): seq<Ocorrencia>
    decreases n
  {
    if n == 0 || s.to_processa.None? then []
    else
      var o := Ocorrencia(EvProcessa(amb), s.to_processa.value);
      [o] + Disparos(Passo(s, o), n - 1, amb)
  }

  lemma DisparoSeguinte(s: Estado, t0: real, fim: real, amb: Ambiente)
    requires Armado(s, t0) && s.vida == Aberta && s.h.agora <= t0 + s.backoff
    requires SemFimAte(s, fim) && fim >= t0 + s.backoff
    ensures DisparoPontual(s, Ocorrencia(EvProcessa(amb), t0 + s.backoff))
  {}

  /** Such a run is always possible: an open connection with frames waiting processes any number of them on time. */
  lemma {:induction false} DrenagemPossivel(s: Estado, n: nat, t0: real, amb: Ambiente)
    requires n > 0 ==> Armado(s, t0) && s.vida == Aberta && s.h.agora <= t0 + s.backoff
    requires n <= |Frames(s.recv_buf)| && FATAL !in Frames(s.recv_buf)[..n]
    requires n > 0 ==> SemFimAte(s, t0 + Nivel(s.h.nivel + n) - Nivel(s.h.nivel))
    ensures |Disparos(s, n, amb)| == n && Pontual(s, Disparos(s, n, amb))
    decreases n
  {
    hide Passo, ExtrairFrameRIP, Frames, DisparoPontual, Habilitada;
    if n > 0 {
      var fim := t0 + Nivel(s.h.nivel + n) - Nivel(s.h.nivel);
      var o := Ocorrencia(EvProcessa(amb), t0 + s.backoff);
      var s1 := Passo(s, o);
      NivelCresce(s.h.nivel + 1, s.h.nivel + n);
      DisparoSeguinte(s, t0, fim, amb);
      DisparoDeQuadro(s, o, t0, fim);
      assert s1.vida != Abortada by {
        PontualHabilitado(s, o);
        AbortaNoDisparoSse(s, o);
        assert Frames(s.recv_buf)[..n][0] == Frames(s.recv_buf)[0];
      }
      assert Frames(s1.recv_buf)[..n - 1] == Frames(s.recv_buf)[..n][1..];
      DrenagemPossivel(s1, n - 1, o.t, amb);
      var resto := Disparos(s1, n - 1, amb);
      assert ([o] + resto)[0] == o && ([o] + resto)[1..] == resto;
    }
  }

  lemma PontualHabilitado(s: Estado, o: Ocorrencia)
    requires DisparoPontual(s, o)
    ensures Habilitada(s, o)
  {}

  lemma PontualEstaAberta(s: Estado, os: seq<Ocorrencia>)
    requires Pontual(s, os) && os != []
    ensures s.vida == Aberta
  {}

  /** Time from reaching a level until the backoff is back at its minimum: four times its value. */
  function Repouso(k: nat): real { if k == 0 then 0.0 else 4.0 * Nivel(k) }

  /** Nothing waits to be processed; the next reduction was armed at time t0. */
  predicate Quieto(s: Estado, t0: real) {
    && s.backoff == Nivel(s.h.nivel) && s.to_processa.None?
    && s.to_backoff == if s.h.nivel == 0 then None else Some(t0 + Recuo(s.backoff))
  }

  /** The firing that consumes the last byte leaves the connection quiet from then on. */
  lemma UltimoQuadroAquieta(s: Estado, amb: Ambiente, t: real)
    requires s.vida == Aberta && s.backoff == Nivel(s.h.nivel) && ExtrairFrameRIP(s.recv_buf).1 == |s.recv_buf| > 0
    ensures var s' := Processa(s, amb, t);
            s'.vida != Abortada ==> Quieto(s', t) && s'.h.nivel == s.h.nivel + 1
  {
    hide ExtrairFrameRIP, Consome;
    ConsumoNaoAgenda(s.(to_processa := None, h := s.h.(agora := t)), amb);
  }

  lemma DisparoDeRecuo(s: Estado, o: Ocorrencia, t0: real, fim: real)
    requires Quieto(s, t0) && DisparoPontual(s, o) && s.h.nivel > 0
    requires SemFimAte(s, fim) && fim >= t0 + Repouso(s.h.nivel)
    ensures o.t == t0 + Repouso(s.h.nivel) - Repouso(s.h.nivel - 1)
    ensures var s' := Passo(s, o);
            && s'.h.nivel == s.h.nivel - 1 && s'.h.agora == o.t && s'.h.processados == s.h.processados
            && Quieto(s', o.t) && SemFimAte(s', fim)
  {
    hide Processa;
    var k := s.h.nivel;
    assert Nivel(k) == 2.0 * Nivel(k - 1);
    assert k >= 2 ==> Nivel(k - 1) == 2.0 * Nivel(k - 2);
    assert o.evento.EvRecua?;
  }

  /**
   Exact recovery.  Once quiet, each on-time firing undoes one level, and the
   last comes four backoffs after the first was armed.
   */
  lemma {:induction false} RecuperacaoExata(s: Estado, os: seq<Ocorrencia>, t0: real)
    requires Quieto(s, t0) && Pontual(s, os) && 1 <= |os| <= s.h.nivel
    requires SemFimAte(s, t0 + Repouso(s.h.nivel))
    ensures var s' := Roda(s, os);
            && s'.h.nivel == s.h.nivel - |os| && s'.backoff == Nivel(s.h.nivel - |os|)
            && s'.h.agora == t0 + Repouso(s.h.nivel) - Repouso(s.h.nivel - |os|)
            && (|os| == s.h.nivel ==>
                  s'.h.agora == t0 + 4.0 * s.backoff && s'.backoff == BACKOFF_MINIMO && s'.to_backoff.None?)
            && s'.h.processados == s.h.processados
    decreases |os|
  {
    hide Passo, DisparoPontual;
    DisparoDeRecuo(s, os[0], t0, t0 + Repouso(s.h.nivel));
    if |os| > 1 {
      RecuperacaoExata(Passo(s, os[0]), os[1..], os[0].t);
    }
  }

  /** The next n reductions, each when it is due. */
  function Recuos(s: Estado, n: nat): seq<Ocorrencia>
    decreases n
  {
    if n == 0 || s.to_backoff.None? then []
    else
      var o := Ocorrencia(EvRecua, s.to_backoff.value);
      [o] + Recuos(Passo(s, o), n - 1)
  }

  lemma RecuoSeguinte(s: Estado, t0: real, fim: real)
    requires Quieto(s, t0) && s.h.nivel > 0 && s.vida == Aberta && s.h.agora <= t0
    requires SemFimAte(s, fim) && fim >= t0 + Repouso(s.h.nivel)
    ensures s.to_backoff.Some? && DisparoPontual(s, Ocorrencia(EvRecua, s.to_backoff.value))
    ensures Recua(s, s.to_backoff.value).vida == Aberta
  {
    assert Nivel(s.h.nivel) == 2.0 * Nivel(s.h.nivel - 1);
  }

  /** The recovery is always possible: a quiet open connection has all its reductions on time. */
  lemma {:induction false} RecuperacaoPossivel(s: Estado, n: nat, t0: real)
    requires Quieto(s, t0) && s.vida == Aberta && s.h.agora <= t0 && n <= s.h.nivel
    requires SemFimAte(s, t0 + Repouso(s.h.nivel))
    ensures |Recuos(s, n)| == n && Pontual(s, Recuos(s, n))
    decreases n
  {
    hide Habilitada, Quieto, SemFimAte, DisparoPontual;
    if n > 0 {
      var fim := t0 + Repouso(s.h.nivel);
      RecuoSeguinte(s, t0, fim);
      var o := Ocorrencia(EvRecua, s.to_backoff.value);
      DisparoDeRecuo(s, o, t0, fim);
      RecuperacaoPossivel(Passo(s, o), n - 1, o.t);
      var resto := Recuos(Passo(s, o), n - 1);
      assert ([o] + resto)[0] == o && ([o] + resto)[1..] == resto;
    }
  }

  // ----------------------------------------------------------- The handler

  class Tratador {
    var recv_buf: bytes
    var backoff: real
    var ignorar: bool
    var central_identificada: bool
    var to_ident: Option<real>
    var to_comm: Option<real>
    var to_processa: Option<real>
    var to_incompleta: Option<real>
    var to_backoff: Option<real>
    var enviados: seq<bytes>      // every answer sent
    var ganchos: seq<Gancho>      // every script run
    var fotos: seq<FotoPedida>    // every photo put in the download queue
    var vida: Vida

    ghost var h: Historia

    ghost function Est(): Estado
      reads this
    {
      Estado(recv_buf, backoff, ignorar, central_identificada,
             to_ident, to_comm, to_processa, to_incompleta, to_backoff, enviados, ganchos, fotos, vida, h)
    }

    constructor (t: real, lotado: bool)
      ensures Est() == Inicial(t, lotado)
    {
      recv_buf, enviados, ganchos, fotos, vida := [], [], [], [], Aberta;
      backoff := BACKOFF_MINIMO;
      ignorar := false;
      central_identificada := false;
      to_ident, to_comm := Some(t + PRAZO_IDENT), Some(t + PRAZO_COMM);
      to_processa, to_incompleta, to_backoff := None, None, None;
      if lotado {
        ignorar := true;
      }
      h := Historia(t, t, [], [], [], [], None, 0, []);
    }

    method ReadCallback(dados: bytes, t: real)
      requires vida == Aberta
      modifies this
      ensures Est() == Chega(old(Est()), dados, t)
    {
      recv_buf := recv_buf + dados;
      RecvCallback(t);
      h := h.(recebido := h.recebido + dados, ultimo := if ignorar then h.ultimo else t, agora := t);
    }

    method RecvCallback(t: real)
      modifies `recv_buf, `to_comm, `to_processa
      ensures recv_buf == if ignorar then [] else old(recv_buf)
      ensures to_comm == if ignorar then old(to_comm) else Some(t + PRAZO_COMM)
      ensures to_processa == if ignorar || old(to_processa).Some? then old(to_processa) else Some(t + backoff)
    {
      if ignorar {
        recv_buf := [];
        return;
      }
      to_comm := Some(t + PRAZO_COMM);
      if to_processa.None? {
        to_processa := Some(t + backoff);
      }
    }

    method ProcessarMsg(amb: Ambiente, t: real)
      requires vida == Aberta
      modifies this
      ensures Est() == Processa(old(Est()), amb, t)
    {
      hide ExtrairFrameRIP, Consome;
      h := h.(agora := t);
      to_processa := None;
      var aceita, pendentes := ConsomeMsg(amb, t);
      if vida == Abortada {
        return;
      }
      if aceita {
        AvancarBackoff(t);
      }
      if pendentes {
        to_processa := Some(t + backoff);
      }
    }

    /** Returns whether a frame was consumed and whether bytes are left; an exception leaves the program aborted. */
    method ConsomeMsg(amb: Ambiente, t: real) returns (aceita: bool, pendentes: bool)
      requires vida == Aberta
      modifies this
      ensures aceita <==> ExtrairFrameRIP(old(recv_buf)).1 > 0
      ensures aceita ==>
                var s := Consome(old(Est()), amb);
                && Est() == (if s.vida == Abortada then s else s.(to_incompleta := None, h := s.h.(parcial := None)))
                && pendentes == (recv_buf != [])
      ensures !aceita ==>
                && !pendentes
                && Est() == if recv_buf == [] || old(to_incompleta).Some? then old(Est())
                            else old(Est()).(to_incompleta := Some(t + PRAZO_INCOMPLETA),
                                             h := old(h).(parcial := Some(t)))
    {
      hide Consome;
      aceita := ConsomeFrameCurto(amb);
      if !aceita {
        aceita := ConsomeFrameLongo(amb);
      }
      pendentes := false;
      if aceita {
        pendentes := recv_buf != [];
        if vida != Abortada {
          if to_incompleta.Some? {
            to_incompleta := None;
          }
          h := h.(parcial := None);
        }
        return;
      }
      if recv_buf != [] {
        if to_incompleta.None? {
          to_incompleta := Some(t + PRAZO_INCOMPLETA);
          h := h.(parcial := Some(t));
        }
      }
    }

    method ConsomeFrameCurto(ghost amb: Ambiente) returns (feito: bool)
      requires vida == Aberta
      modifies this
      ensures feito <==> old(recv_buf) != [] && old(recv_buf)[0] == 0xf7
      ensures Est() == if feito then Consome(old(Est()), amb) else old(Est())
    {
      if recv_buf != [] && recv_buf[0] == 0xf7 {
        ghost var (p, n) := ExtrairFrameRIP(recv_buf);
        h := h.(consumido := h.consumido + recv_buf[..n], processados := h.processados + [p],
                ambientes := h.ambientes + [amb]);
        recv_buf := recv_buf[1..];
        EnviaCurto();
        return true;
      }
      return false;
    }

    method ConsomeFrameLongo(amb: Ambiente) returns (feito: bool)
      requires vida == Aberta && (recv_buf != [] ==> recv_buf[0] != 0xf7)
      modifies this
      ensures feito <==> ExtrairFrameRIP(old(recv_buf)).1 > 0
      ensures Est() == if feito then Consome(old(Est()), amb) else old(Est())
    {
      hide Trata, Consome;
      ghost var s := Est();
      if |recv_buf| < 2 {
        return false;
      }
      var esperado := recv_buf[0] as int + 2;
      if |recv_buf| < esperado {
        return false;
      }
      var rawmsg := recv_buf[..esperado];
      ghost var p := PacoteRIP(true, recv_buf[1] as int, recv_buf[2..esperado]);
      assert ExtrairFrameRIP(recv_buf) == (p, esperado);
      recv_buf := recv_buf[esperado..];
      var msg := rawmsg[1..];
      var tipo := msg[0];
      msg := msg[1..];
      TrataMensagem(tipo, msg, amb);
      h := h.(consumido := h.consumido + rawmsg,
              processados := if vida == Abortada then h.processados else h.processados + [p],
              ambientes := if vida == Abortada then h.ambientes else h.ambientes + [amb]);
      ConsomeQuando(s, amb, Est());
      return true;
    }

    /** Everything a long frame does once it is off the buffer. */
    method TrataMensagem(tipo: byte, msg: bytes, amb: Ambiente)
      requires vida == Aberta
      modifies `enviados, `ganchos, `fotos, `ignorar, `central_identificada, `to_ident, `vida
      ensures var ef := Trata(PacoteRIP(true, tipo as int, msg), amb);
              && enviados == old(enviados) + ef.respostas
              && ganchos == old(ganchos) + ef.ganchos && fotos == old(fotos) + ef.fotos
              && ignorar == (old(ignorar) || ef.ignora)
              && central_identificada == (old(central_identificada) || ef.identifica)
              && to_ident == (if ef.identifica then None else old(to_ident))
              && vida == if ef.excecao then Abortada else Aberta
    {
      hide EfeitoDaIdentificacao, EfeitoDoAlarme, AlarmeSemConsistir;
      assert ganchos + [] == ganchos && fotos + [] == fotos;
      match tipo {
        case 0x80 => SolicitaDataHora(amb.relogio);
        case 0x94 => IdentificacaoCentral(msg, amb);
        case 0xb0 => EventoAlarme(tipo, msg, false, amb.tabela);
        case 0xb5 => EventoAlarme(tipo, msg, true, amb.tabela);
        case _ => EnviaCurto();
      }
    }

    method EnviaCurto()
      modifies `enviados
      ensures enviados == old(enviados) + [[0xfe]]
    {
      enviados := enviados + [[0xfe]];
    }

    method SolicitaDataHora(relogio: Instante)
      modifies `enviados
      ensures enviados == old(enviados) + [RIPRespostaDataHora(relogio).Encode()]
    {
      var dados := RIPRespostaDataHora(relogio).Payload;
      dados := [|dados| as byte] + dados;
      enviados := enviados + [dados + [Protocolo.Checksum(dados)]];
    }

    method IdentificacaoCentral(msg: bytes, amb: Ambiente)
      requires vida == Aberta
      modifies `enviados, `ignorar, `central_identificada, `to_ident, `vida
      ensures var ef := EfeitoDaIdentificacao(msg, amb);
              && enviados == old(enviados) + ef.respostas && ef.ganchos == [] && ef.fotos == []
              && ignorar == (old(ignorar) || ef.ignora)
              && central_identificada == (old(central_identificada) || ef.identifica)
              && to_ident == (if ef.identifica then None else old(to_ident))
              && vida == if ef.excecao then Abortada else Aberta
    {
      if |msg| != 7 {
        EnviaCurto();
      }
      if msg == [] {
        vida := Abortada;     // msg[0] raises, and nothing catches it
        return;
      }
      if !amb.centralValida {
        ignorar := true;
        return;
      }
      if !amb.vaga {
        ignorar := true;
        return;
      }
      central_identificada := true;
      if to_ident.Some? {
        to_ident := None;
      }
      EnviaCurto();
    }

    method EventoAlarme(ghost tipo: byte, msg: bytes, comFoto: bool, tabela: TabelaContactID)
      modifies `enviados, `ganchos, `fotos
      ensures var ef := EfeitoDoAlarme(AlarmeSemConsistir(PacoteRIP(true, tipo as int, msg), comFoto, tabela), comFoto);
              && enviados == old(enviados) + ef.respostas
              && ganchos == old(ganchos) + ef.ganchos && fotos == old(fotos) + ef.fotos
              && !ef.ignora && !ef.identifica && !ef.excecao
    {
      hide Descrito;
      var compr := if comFoto then 20 else 17;
      assert ganchos + [] == ganchos && fotos + [] == fotos;
      if |msg| != compr {
        EnviaCurto();
        return;
      }
      var contact_id, _ := Protocolo.ContactIDDecode(msg[1..5]);
      var tipo_msg, _ := Protocolo.ContactIDDecode(msg[5..7]);
      var codigo, _ := Protocolo.ContactIDDecode(msg[8..11]);
      var particao, _ := Protocolo.ContactIDDecode(msg[11..13]);
      var zona, _ := Protocolo.ContactIDDecode(msg[13..16]);
      var indice, nr_fotos := 0, 0;
      if comFoto {
        indice, nr_fotos := msg[17] as int * 256 + msg[18] as int, msg[19] as int;
      }
      var alarme := RIPAlarme(true, SemErro, msg[0] as int, contact_id, tipo_msg, msg[7] as int, codigo, particao, zona,
                              indice, nr_fotos, false, None);
      AvisaAlarme(alarme, comFoto, tabela);
      EnviaCurto();
    }

    /** Runs the scripts of an alarm, and queues its photos if the event is known. */
    method AvisaAlarme(lido: RIPAlarme, comFoto: bool, tabela: TabelaContactID)
      requires lido.Valido && !lido.CodigoConhecido && lido.NrFotos >= 0
      modifies `ganchos, `fotos
      ensures var r := Descrito(lido, comFoto, tabela);
              && ganchos == old(ganchos) + [Ev(r.Codigo, r.Particao, r.Zona, r.Qualificador), Msg(r)]
              && fotos == old(fotos)
                          + if r.CodigoConhecido && comFoto then FotosDoEvento(r.IndiceFotos, r.NrFotos) else []
    {
      ganchos := ganchos + [Ev(lido.Codigo, lido.Particao, lido.Zona, lido.Qualificador)];
      if lido.Tipo == 18 && lido.Codigo in tabela {
        var squalif := Qualquer;
        if lido.Qualificador == 1 && Aber in tabela[lido.Codigo] {
          squalif := Aber;
        } else if lido.Qualificador == 3 && Rest in tabela[lido.Codigo] {
          squalif := Rest;
        }
        if squalif in tabela[lido.Codigo] {
          var anuncio := if comFoto then Some((lido.IndiceFotos, lido.NrFotos)) else None;
          var descricao := Descricao(tabela[lido.Codigo][squalif], lido.Zona, lido.Particao, anuncio);
          ganchos := ganchos + [Msg(lido.(CodigoConhecido := true, DescricaoHumana := Some(descricao)))];
          if comFoto {
            Enfileira(lido.IndiceFotos, lido.NrFotos);
          }
          return;
        }
      }
      ganchos := ganchos + [Msg(lido)];
    }

    method Enfileira(indice: int, nr_fotos: int)
      requires nr_fotos >= 0
      modifies `fotos
      ensures fotos == old(fotos) + FotosDoEvento(indice, nr_fotos)
    {
      for n := 0 to nr_fotos
        invariant fotos == old(fotos) + FotosDoEvento(indice, n)
      {
        fotos := fotos + [FotoPedida(indice, n)];
      }
    }

    method AvancarBackoff(t: real)
      modifies `backoff, `to_backoff, `h
      ensures Est() == Avanca(old(Est()), t)
    {
      backoff := backoff * 2.0;
      if to_backoff.Some? {
        to_backoff := None;
      }
      to_backoff := Some(t + Max(RECUO_BACKOFF_MINIMO, backoff * 2.0));
      h := h.(nivel := h.nivel + 1);
    }

    method RecuarBackoff(t: real)
      modifies this
      ensures Est() == Recua(old(Est()), t)
    {
      to_backoff := None;
      backoff := backoff / 2.0;
      backoff := Max(backoff, BACKOFF_MINIMO);
      if backoff > BACKOFF_MINIMO {
        to_backoff := Some(t + Max(RECUO_BACKOFF_MINIMO, backoff * 2.0));
      }
      h := h.(agora := t, nivel := if h.nivel == 0 then 0 else h.nivel - 1, recuos := h.recuos + [t]);
    }

    method Destroy(t: real)
      requires vida == Aberta
      modifies `vida, `h, `to_ident, `to_comm, `to_processa, `to_incompleta, `to_backoff
      ensures Est() == Destroi(old(Est()), t)
    {
      to_ident, to_comm, to_processa, to_incompleta, to_backoff := None, None, None, None, None;
      vida := Destruida;
      h := h.(agora := t);
    }
  }
}
