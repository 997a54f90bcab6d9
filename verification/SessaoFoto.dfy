/**
 Download of one photo: connect, authenticate, fetch fragments 1 to N, say
 goodbye.  One timer guards every wait.  Times are seconds; the timer field
 holds the time at which it is due.
 */
module SessaoFoto {
  import opened Octetos
  import opened Protocolo

  const PRAZO: real := 15.0
  const MAX_ESPERAS: nat := 258       // connection, authentication, 255 fragments, farewell

  datatype Config = Config(indice: nat, nrfoto: byte, senha: int, tamSenha: nat)

  datatype Tratamento = SemTratador | RespostaAutenticacao | RespostaComando

  /** What happened so far, for the properties to speak of. */
  datatype Historia = Historia(
    inicio: real,
    agora: real,             // time of the last event
    recebido: bytes,         // everything received
    consumido: bytes,        // the packets handed to a handler
    ms: seq<Mensagem>,       // the messages in them
    esperas: nat,            // how many times the timer was armed
    desde: real)             // when it last was

  datatype Sessao = Sessao(
    connecting: bool,
    recv_buf: bytes,
    enviados: seq<bytes>,
    conn_timeout: Option<real>,
    status: int,
    tratador: Tratamento,
    fragmento_corrente: nat,
    jpeg_corrente: bytes,
    arquivo: Option<bytes>,  // contents of the file saved
    destruida: bool,
    relatos: seq<int>,       // statuses reported to the observer
    h: Historia)

  function Inicial(t: real): Sessao {
    Sessao(true, [], [], Some(t + PRAZO), 2, SemTratador, 0, [], None, false, [], Historia(t, t, [], [], [], 1, t))
  }

  function Espera(s: Sessao, t: real): Sessao {
    s.(conn_timeout := Some(t + PRAZO), h := s.h.(esperas := s.h.esperas + 1, desde := t))
  }

  function Destroi(s: Sessao): Sessao {
    s.(relatos := s.relatos + [s.status], destruida := true, conn_timeout := None)
  }

  function Pedido(cfg: Config, fragmento: nat): bytes {
    PacoteIsecNet2(Mensagem(0x0bb0, BE16(cfg.indice) + [cfg.nrfoto, (fragmento % 256) as byte]))
  }

  function Conecta(s: Sessao, cfg: Config, ok: bool, t: real): Sessao {
    var s1 := s.(connecting := false, conn_timeout := None);
    if !ok then Destroi(s1.(status := 1))
    else
      Espera(s1.(enviados := s.enviados + [PacoteIsecNet2Auth(cfg.senha, cfg.tamSenha)],
                 tratador := RespostaAutenticacao), t)
  }

  function PedeFragmento(s: Sessao, cfg: Config, t: real): Sessao {
    Espera(s.(enviados := s.enviados + [Pedido(cfg, s.fragmento_corrente)], tratador := RespostaComando), t)
  }

  function Despede(s: Sessao, t: real): Sessao {
    Espera(s.(enviados := s.enviados + [PacoteIsecNet2Bye()], tratador := SemTratador, status := 0), t)
  }

  function Nega(s: Sessao, payload: bytes): Sessao {
    Destroi(if |payload| == 1 then s.(status := 1) else s)
  }

  function Autentica(s: Sessao, cfg: Config, m: Mensagem, t: real): Sessao {
    if m.cmd == 0xf0fd then Nega(s, m.payload)
    else if m.cmd != 0xf0f0 || |m.payload| != 1 || m.payload[0] > 0 then Destroi(s)
    else PedeFragmento(s.(fragmento_corrente := 1, jpeg_corrente := []), cfg, t)
  }

  function Coleta(s: Sessao, cfg: Config, m: Mensagem, t: real): Sessao {
    if m.cmd == 0xf0fd then Nega(s, m.payload)
    else if m.cmd != 0x0bb0 && m.cmd != 0xf0fe then Destroi(s)
    else if |m.payload| < 6 then Destroi(s)
    else if ParseBE16(m.payload[0..2]) != cfg.indice || m.payload[2] != cfg.nrfoto
            || m.payload[4] as int != s.fragmento_corrente then Destroi(s)
    else
      var s1 := s.(jpeg_corrente := s.jpeg_corrente + m.payload[6..]);
      if m.payload[4] < m.payload[5] then PedeFragmento(s1.(fragmento_corrente := s.fragmento_corrente + 1), cfg, t)
      else Despede(s1.(arquivo := Some(s1.jpeg_corrente)), t)
  }

  function Recebe(s: Sessao, cfg: Config, dados: bytes, t: real): Sessao {
    var buf := s.recv_buf + dados;
    var n := PacoteIsecNet2Completo(buf);
    var s1 := s.(recv_buf := buf[n..], h := s.h.(agora := t, recebido := s.h.recebido + dados));
    if n == 0 then s1
    else if !CabecaBoa(buf) || s.tratador == SemTratador then Destroi(s1)
    else
      var m := Cabeca(buf);
      var s2 := s1.(conn_timeout := None, h := s1.h.(consumido := s1.h.consumido + buf[..n], ms := s1.h.ms + [m]));
      if s.tratador == RespostaAutenticacao then Autentica(s2, cfg, m, t) else Coleta(s2, cfg, m, t)
  }

  function Estoura(s: Sessao): Sessao {
    Destroi(if s.status != 0 then s.(status := 1) else s)
  }

  datatype Evento =
    | EvConexao(ok: bool)
    | EvDados(dados: bytes)
    | EvTimeout
    | EvFim                     // the peer closes, or the socket fails

  datatype Ocorrencia = Ocorrencia(evento: Evento, t: real)

  predicate Habilitada(s: Sessao, o: Ocorrencia) {
    && !s.destruida && o.t >= s.h.agora
    && match o.evento
       case EvConexao(_) => s.connecting
       case EvDados(_) => !s.connecting
       case EvTimeout => s.conn_timeout.Some? && o.t >= s.conn_timeout.value
       case EvFim => !s.connecting
  }

  function Passo(s: Sessao, cfg: Config, o: Ocorrencia): Sessao {
    match o.evento
    case EvConexao(ok) => Conecta(s.(h := s.h.(agora := o.t)), cfg, ok, o.t)
    case EvDados(dados) => Recebe(s, cfg, dados, o.t)
    case EvTimeout => Estoura(s.(h := s.h.(agora := o.t)))
    case EvFim => Destroi(s.(h := s.h.(agora := o.t)))
  }

  predicate Possivel(s: Sessao, cfg: Config, os: seq<Ocorrencia>)
    decreases |os|
  {
    os != [] ==> Habilitada(s, os[0]) && Possivel(Passo(s, cfg, os[0]), cfg, os[1..])
  }

  function Roda(s: Sessao, cfg: Config, os: seq<Ocorrencia>): Sessao
    decreases |os|
  {
    if os == [] then s else Roda(Passo(s, cfg, os[0]), cfg, os[1..])
  }

  // ------------------------------------------------------ What was received

  /** An accepted authentication. */
  predicate AutenticacaoOk(m: Mensagem) { m.cmd == 0xf0f0 && m.payload == [0] }

  /** An answer carrying the fragment asked for. */
  predicate FragmentoOk(cfg: Config, m: Mensagem, fragmento: nat) {
    && (m.cmd == 0x0bb0 || m.cmd == 0xf0fe) && |m.payload| >= 6
    && ParseBE16(m.payload[0..2]) == cfg.indice && m.payload[2] == cfg.nrfoto && m.payload[4] as int == fragmento
  }

  predicate HaMais(m: Mensagem, fragmento: nat) { |m.payload| >= 6 && fragmento < m.payload[5] as int }

  /** An authentication, then fragments 1, 2, ... of a photo that has more. */
  predicate Coletados(cfg: Config, ms: seq<Mensagem>) {
    && ms != [] && AutenticacaoOk(ms[0])
    && forall i :: 1 <= i < |ms| ==> FragmentoOk(cfg, ms[i], i) && HaMais(ms[i], i)
  }

  /** The same, closed by the last fragment. */
  predicate Obtidos(cfg: Config, ms: seq<Mensagem>) {
    var n := |ms| - 1;
    && n >= 1 && Coletados(cfg, ms[..n])
    && FragmentoOk(cfg, ms[n], n) && !HaMais(ms[n], n)
  }

  /** The picture bytes carried by fragment answers, in order. */
  function Imagem(ms: seq<Mensagem>): bytes {
    if ms == [] then []
    else
      var m := ms[|ms| - 1];
      Imagem(ms[..|ms| - 1]) + if |m.payload| >= 6 then m.payload[6..] else []
  }

  /** The packets of a session that asked for n fragments. */
  function Pedidos(cfg: Config, n: nat): seq<bytes> {
    if n == 0 then [PacoteIsecNet2Auth(cfg.senha, cfg.tamSenha)] else Pedidos(cfg, n - 1) + [Pedido(cfg, n)]
  }

  // -------------------------------------------------------------- Invariants

  /** No hang, one report, and where the session stands. */
  predicate InvFase(s: Sessao, cfg: Config) {
    && (!s.destruida ==> s.conn_timeout.Some?)
    && s.relatos == (if s.destruida then [s.status] else [])
    && 0 <= s.status <= 2
    && (s.status == 0 <==> s.arquivo.Some?)
    && s.h.esperas <= MAX_ESPERAS
    && (s.status == 0 ==>
          && Obtidos(cfg, s.h.ms) && s.arquivo == Some(Imagem(s.h.ms[1..]))
          && s.enviados == Pedidos(cfg, |s.h.ms| - 1) + [PacoteIsecNet2Bye()])
    && (!s.destruida && s.status != 0 ==>
          && s.status == 2
          && (s.connecting ==> s.tratador == SemTratador && s.h.ms == [] && s.enviados == [] && s.h.esperas == 1)
          && (!s.connecting ==> s.tratador != SemTratador)
          && (s.tratador == RespostaAutenticacao ==> s.h.ms == [] && s.enviados == Pedidos(cfg, 0) && s.h.esperas == 2)
          && (s.tratador == RespostaComando ==>
                && Coletados(cfg, s.h.ms) && |s.h.ms| == s.fragmento_corrente <= 255
                && s.jpeg_corrente == Imagem(s.h.ms[1..])
                && s.enviados == Pedidos(cfg, s.fragmento_corrente)
                && s.h.esperas == 2 + s.fragmento_corrente))
    && (!s.destruida && s.status == 0 ==> s.tratador == SemTratador && !s.connecting)
  }

  predicate InvBytes(s: Sessao) {
    && (!s.destruida ==> s.h.recebido == s.h.consumido + s.recv_buf)
    && s.h.consumido <= s.h.recebido
    && Mensagens(s.h.consumido) == s.h.ms && SobraDeMensagens(s.h.consumido) == []
  }

  /** Every wait is at most one delay long, counted from the one before. */
  predicate InvTempo(s: Sessao) {
    && s.h.agora <= s.h.inicio + PRAZO * s.h.esperas as real
    && (s.conn_timeout.Some? ==> s.conn_timeout.value <= s.h.inicio + PRAZO * s.h.esperas as real)
  }

  /** Each wait lasts 15 s from when it began. */
  predicate InvEspera(s: Sessao) {
    !s.destruida ==> s.conn_timeout == Some(s.h.desde + 15.0)
  }

  lemma EsperaMantida(s: Sessao, cfg: Config, o: Ocorrencia)
    requires InvEspera(s) && Habilitada(s, o)
    ensures InvEspera(Passo(s, cfg, o))
  {
    hide CabecaBoa, Cabeca, PacoteIsecNet2Completo, Pedido, PacoteIsecNet2Bye, PacoteIsecNet2Auth;
  }

  /** A message by which the panel refuses, in form. */
  predicate Recusa(m: Mensagem) { m.cmd == 0xf0fd && |m.payload| == 1 }

  /**
   What a session that fails reports: 1, which asks for another attempt, if the
   connection or the wait failed or the panel refused, and 2, which does not, in
   every other case.
   */
  lemma RelatoDaFalha(s: Sessao, cfg: Config, o: Ocorrencia)
    requires InvFase(s, cfg) && Habilitada(s, o) && s.status != 0 && Passo(s, cfg, o).destruida
    ensures var buf := if o.evento.EvDados? then s.recv_buf + o.evento.dados else [];
            Passo(s, cfg, o).relatos ==
            if o.evento.EvConexao? || o.evento.EvTimeout? || (CabecaBoa(buf) && Recusa(Cabeca(buf))) then [1] else [2]
  {
    hide PacoteIsecNet2Completo, CabecaBoa, Cabeca, Autentica, Coleta, Recusa;
    hide Coletados, Obtidos, Imagem, Pedidos, PacoteIsecNet2Auth, PacoteIsecNet2Bye;
    assert !CabecaBoa([]) by { BoaTemPacote([]); }
    if o.evento.EvDados? {
      var dados := o.evento.dados;
      var buf := s.recv_buf + dados;
      BoaTemPacote(buf);
      if CabecaBoa(buf) {
        var n := PacoteIsecNet2Completo(buf);
        var s2 := s.(recv_buf := buf[n..], conn_timeout := None,
                     h := s.h.(agora := o.t, recebido := s.h.recebido + dados,
                               consumido := s.h.consumido + buf[..n], ms := s.h.ms + [Cabeca(buf)]));
        RelatoDaResposta(s2, cfg, Cabeca(buf), o.t);
      }
    }
  }

  lemma RelatoDaResposta(s: Sessao, cfg: Config, m: Mensagem, t: real)
    requires !s.destruida && s.relatos == [] && s.status == 2
    ensures var s' := Autentica(s, cfg, m, t); s'.destruida ==> s'.relatos == if Recusa(m) then [1] else [2]
    ensures var s' := Coleta(s, cfg, m, t); s'.destruida ==> s'.relatos == if Recusa(m) then [1] else [2]
  {
    hide Pedido, PacoteIsecNet2Bye;
  }

  /** A session goes on after an answer exactly when it is the one it waits for. */
  lemma ContinuaSse(s: Sessao, cfg: Config, m: Mensagem, t: real)
    requires !s.destruida
    ensures !Autentica(s, cfg, m, t).destruida <==> m.cmd == 0xf0f0 && m.payload == [0]
    ensures !Coleta(s, cfg, m, t).destruida <==> FragmentoOk(cfg, m, s.fragmento_corrente)
  {
    hide Pedido, PacoteIsecNet2Bye;
  }

  lemma BoaTemPacote(fluxo: bytes)
    ensures CabecaBoa(fluxo) ==> PacoteIsecNet2Completo(fluxo) != 0
    ensures !CabecaBoa([])
  {}

  lemma FaseMantida(s: Sessao, cfg: Config, o: Ocorrencia)
    requires InvFase(s, cfg) && Habilitada(s, o)
    ensures InvFase(Passo(s, cfg, o), cfg)
  {
    hide Pedidos, Pedido, PacoteIsecNet2Bye, PacoteIsecNet2Auth, Coletados, Obtidos, Imagem;
    hide CabecaBoa, Cabeca, PacoteIsecNet2Completo, Autentica, Coleta;
    match o.evento {
      case EvConexao(ok) =>
        SoAutenticacao(cfg);
      case EvDados(dados) =>
        var buf := s.recv_buf + dados;
        var n := PacoteIsecNet2Completo(buf);
        if n != 0 && CabecaBoa(buf) && s.tratador != SemTratador {
          var s2 := s.(recv_buf := buf[n..], conn_timeout := None,
                       h := s.h.(agora := o.t, recebido := s.h.recebido + dados,
                                 consumido := s.h.consumido + buf[..n], ms := s.h.ms + [Cabeca(buf)]));
          if s.tratador == RespostaAutenticacao {
            FaseAutentica(s2, cfg, Cabeca(buf), o.t);
          } else {
            FaseColeta(s2, cfg, s.h.ms, Cabeca(buf), o.t);
          }
        }
      case _ =>
    }
  }

  lemma SoAutenticacao(cfg: Config)
    ensures Pedidos(cfg, 0) == [] + [PacoteIsecNet2Auth(cfg.senha, cfg.tamSenha)]
  {}

  /** A live session in the middle of its work. */
  predicate EmCurso(s: Sessao) {
    !s.connecting && !s.destruida && s.relatos == [] && s.status == 2 && s.arquivo == None
  }

  lemma FaseAutentica(s: Sessao, cfg: Config, m: Mensagem, t: real)
    requires EmCurso(s) && s.h.ms == [m] && s.enviados == Pedidos(cfg, 0) && s.h.esperas == 2
    ensures InvFase(Autentica(s, cfg, m, t), cfg)
  {
    hide Pedido, PacoteIsecNet2Bye, PacoteIsecNet2Auth;
    assert Pedidos(cfg, 1) == Pedidos(cfg, 0) + [Pedido(cfg, 1)];
    assert [m][1..] == [];
  }

  lemma FaseColeta(s: Sessao, cfg: Config, antes: seq<Mensagem>, m: Mensagem, t: real)
    requires EmCurso(s) && s.h.ms == antes + [m] && s.enviados == Pedidos(cfg, s.fragmento_corrente)
    requires Coletados(cfg, antes) && |antes| == s.fragmento_corrente <= 255
    requires s.jpeg_corrente == Imagem(antes[1..]) && s.h.esperas == 2 + s.fragmento_corrente
    ensures InvFase(Coleta(s, cfg, m, t), cfg)
  {
    hide Pedido, Pedidos, PacoteIsecNet2Bye, Coletados, Obtidos, Imagem;
    MaisUmPedido(cfg, s.fragmento_corrente);
    if FragmentoOk(cfg, m, s.fragmento_corrente) {
      MaisUmFragmento(cfg, antes, m);
    }
  }

  lemma MaisUmPedido(cfg: Config, n: nat)
    ensures Pedidos(cfg, n + 1) == Pedidos(cfg, n) + [Pedido(cfg, n + 1)]
  {}

  lemma MaisUmFragmento(cfg: Config, antes: seq<Mensagem>, m: Mensagem)
    requires Coletados(cfg, antes) && FragmentoOk(cfg, m, |antes|)
    ensures if HaMais(m, |antes|) then Coletados(cfg, antes + [m]) else Obtidos(cfg, antes + [m])
    ensures Imagem((antes + [m])[1..]) == Imagem(antes[1..]) + m.payload[6..]
  {
    hide FragmentoOk;
    assert |m.payload| >= 6 by { FragmentoTemCabecalho(cfg, m, |antes|); }
    assert (antes + [m])[1..] == antes[1..] + [m];
    assert (antes[1..] + [m])[..|antes| - 1] == antes[1..];
    assert (antes + [m])[..|antes|] == antes;
  }

  lemma FragmentoTemCabecalho(cfg: Config, m: Mensagem, k: nat)
    requires FragmentoOk(cfg, m, k)
    ensures |m.payload| >= 6
  {}

  /** Success is final: no event takes it back or touches the file, and the session can then only report it. */
  lemma SucessoFica(s: Sessao, cfg: Config, o: Ocorrencia)
    requires InvFase(s, cfg) && Habilitada(s, o) && s.status == 0
    ensures Passo(s, cfg, o).status == 0 && Passo(s, cfg, o).arquivo == s.arquivo
    ensures Passo(s, cfg, o).relatos == if Passo(s, cfg, o).destruida then [0] else []
  {
    hide Pedidos, PacoteIsecNet2Bye, PacoteIsecNet2Auth, Obtidos, Imagem;
    hide CabecaBoa, Cabeca, PacoteIsecNet2Completo, Autentica, Coleta;
  }

  lemma BytesMantidos(s: Sessao, cfg: Config, o: Ocorrencia)
    requires InvBytes(s) && Habilitada(s, o)
    ensures InvBytes(Passo(s, cfg, o))
  {
    hide CabecaBoa, Cabeca, PacoteIsecNet2Completo, Mensagens, SobraDeMensagens;
    hide Pedido, PacoteIsecNet2Bye, PacoteIsecNet2Auth, Autentica, Coleta;
    if o.evento.EvDados? {
      var dados := o.evento.dados;
      var buf := s.recv_buf + dados;
      var n := PacoteIsecNet2Completo(buf);
      ConcatAssoc(s.h.consumido, s.recv_buf, dados);
      assert buf[0..] == buf;
      if n != 0 && CabecaBoa(buf) && s.tratador != SemTratador {
        ConsomePacote(s.h.consumido, buf);
        var s2 := s.(recv_buf := buf[n..], conn_timeout := None,
                     h := s.h.(agora := o.t, recebido := s.h.recebido + dados,
                               consumido := s.h.consumido + buf[..n], ms := s.h.ms + [Cabeca(buf)]));
        assert InvBytes(s2);
        RespostaNaoTocaBytes(s2, cfg, Cabeca(buf), o.t);
      }
    }
  }

  lemma ConsomePacote(consumido: bytes, buf: bytes)
    requires SobraDeMensagens(consumido) == [] && CabecaBoa(buf)
    ensures var n := PacoteIsecNet2Completo(buf);
            && Mensagens(consumido + buf[..n]) == Mensagens(consumido) + [Cabeca(buf)]
            && SobraDeMensagens(consumido + buf[..n]) == []
            && (consumido + buf[..n]) + buf[n..] == consumido + buf
  {
    hide CabecaBoa, Cabeca, PacoteIsecNet2Completo, Mensagens, SobraDeMensagens;
    var pct := buf[..PacoteIsecNet2Completo(buf)];
    MensagensConcat(consumido, pct);
    MensagensDeUmPacote(buf);
    assert [] + pct == pct;
  }

  lemma RespostaNaoTocaBytes(s: Sessao, cfg: Config, m: Mensagem, t: real)
    ensures Autentica(s, cfg, m, t).recv_buf == s.recv_buf && Coleta(s, cfg, m, t).recv_buf == s.recv_buf
    ensures var h := Autentica(s, cfg, m, t).h; h == s.h.(esperas := h.esperas, desde := h.desde)
    ensures var h := Coleta(s, cfg, m, t).h; h == s.h.(esperas := h.esperas, desde := h.desde)
  {
    hide Pedido, PacoteIsecNet2Bye;
  }

  /** On-time firing: nothing happens after the pending deadline. */
  predicate NoPrazo(s: Sessao, o: Ocorrencia) {
    s.conn_timeout.Some? ==> o.t <= s.conn_timeout.value
  }

  lemma TempoMantido(s: Sessao, cfg: Config, o: Ocorrencia)
    requires InvTempo(s) && s.conn_timeout.Some? && Habilitada(s, o) && NoPrazo(s, o)
    ensures InvTempo(Passo(s, cfg, o)) && Passo(s, cfg, o).h.inicio == s.h.inicio
  {
    hide CabecaBoa, Cabeca, PacoteIsecNet2Completo, Pedido, PacoteIsecNet2Bye, PacoteIsecNet2Auth;
  }

  // ---------------------------------------------------------------- All runs

  function ChegadoEm(o: Ocorrencia): bytes {
    if o.evento.EvDados? then o.evento.dados else []
  }

  /** Everything that arrived, in order. */
  function Chegado(os: seq<Ocorrencia>): bytes {
    if os == [] then [] else ChegadoEm(os[0]) + Chegado(os[1..])
  }

  lemma RecebeOQueChega(s: Sessao, cfg: Config, o: Ocorrencia)
    ensures Passo(s, cfg, o).h.recebido == s.h.recebido + ChegadoEm(o)
  {
    hide CabecaBoa, Cabeca, PacoteIsecNet2Completo, Autentica, Coleta, PacoteIsecNet2Auth;
    assert s.h.recebido + [] == s.h.recebido;
    if o.evento.EvDados? {
      var buf := s.recv_buf + o.evento.dados;
      var n := PacoteIsecNet2Completo(buf);
      if n != 0 && CabecaBoa(buf) {
        var s2 := s.(recv_buf := buf[n..], conn_timeout := None,
                     h := s.h.(agora := o.t, recebido := s.h.recebido + o.evento.dados,
                               consumido := s.h.consumido + buf[..n], ms := s.h.ms + [Cabeca(buf)]));
        RespostaNaoTocaBytes(s2, cfg, Cabeca(buf), o.t);
      }
    }
  }

  lemma {:induction false} InvariantesDe(s: Sessao, cfg: Config, os: seq<Ocorrencia>)
    requires InvFase(s, cfg) && InvBytes(s) && Possivel(s, cfg, os)
    ensures InvFase(Roda(s, cfg, os), cfg) && InvBytes(Roda(s, cfg, os))
    ensures Roda(s, cfg, os).h.recebido == s.h.recebido + Chegado(os)
    decreases |os|
  {
    hide Passo, InvFase, InvBytes, ChegadoEm;
    if os == [] {
      assert s.h.recebido + [] == s.h.recebido;
    } else {
      FaseMantida(s, cfg, os[0]);
      BytesMantidos(s, cfg, os[0]);
      InvariantesDe(Passo(s, cfg, os[0]), cfg, os[1..]);
      RecebeOQueChega(s, cfg, os[0]);
      ConcatAssoc(s.h.recebido, ChegadoEm(os[0]), Chegado(os[1..]));
    }
  }

  lemma Invariantes(t0: real, cfg: Config, os: seq<Ocorrencia>)
    requires Possivel(Inicial(t0), cfg, os)
    ensures InvFase(Roda(Inicial(t0), cfg, os), cfg) && InvBytes(Roda(Inicial(t0), cfg, os))
    ensures Roda(Inicial(t0), cfg, os).h.recebido == Chegado(os)
  {
    hide Passo, Possivel, Roda;
    assert !CabecaBoa([]) && [] + Chegado(os) == Chegado(os);
    InvariantesDe(Inicial(t0), cfg, os);
  }

  /**
   Success means the right bytes.  When success is reported, the messages cut
   from the received stream begin with an accepted authentication and the
   answers to fragments 1 to N of the photo asked for, N being the last, and
   the file holds their picture bytes in order.
   */
  lemma SucessoTrazOsBytes(t0: real, cfg: Config, os: seq<Ocorrencia>)
    requires Possivel(Inicial(t0), cfg, os) && Roda(Inicial(t0), cfg, os).relatos == [0]
    ensures var ms := Mensagens(Chegado(os));
            exists n :: 2 <= n <= |ms| && Obtidos(cfg, ms[..n])
                        && Roda(Inicial(t0), cfg, os).arquivo == Some(Imagem(ms[1..n]))
  {
    hide Passo, Possivel, Roda, Obtidos, Imagem, Mensagens, SobraDeMensagens, Chegado, Pedidos, PacoteIsecNet2Bye;
    var s := Roda(Inicial(t0), cfg, os);
    var ms := Mensagens(Chegado(os));
    Invariantes(t0, cfg, os);
    assert s.status == 0;
    ObtidosTemDois(cfg, s.h.ms);
    PrefixoDeMensagens(s.h.consumido, Chegado(os));
    var n := |s.h.ms|;
    assert ms[..n] == s.h.ms && ms[1..n] == s.h.ms[1..];
  }

  lemma PrefixoDeMensagens(a: bytes, fluxo: bytes)
    requires a <= fluxo && SobraDeMensagens(a) == []
    ensures Mensagens(a) <= Mensagens(fluxo)
  {
    MensagensConcat(a, fluxo[|a|..]);
    assert a + fluxo[|a|..] == fluxo;
  }

  lemma ObtidosTemDois(cfg: Config, ms: seq<Mensagem>)
    requires Obtidos(cfg, ms)
    ensures |ms| >= 2
  {}

  /** So it is in every continuation: once successful, a session keeps its file and ends by reporting success. */
  lemma {:induction false} SucessoFicaNaCorrida(s: Sessao, cfg: Config, os: seq<Ocorrencia>)
    requires InvFase(s, cfg) && s.status == 0 && Possivel(s, cfg, os)
    ensures var s' := Roda(s, cfg, os);
            && s'.status == 0 && s'.arquivo == s.arquivo
            && s'.relatos == if s'.destruida then [0] else []
    decreases |os|
  {
    hide Passo, InvFase, Habilitada;
    if os == [] {
      assert s.relatos == if s.destruida then [0] else [] by { RelatoDaFase(s, cfg); }
    } else {
      FaseMantida(s, cfg, os[0]);
      SucessoFica(s, cfg, os[0]);
      SucessoFicaNaCorrida(Passo(s, cfg, os[0]), cfg, os[1..]);
    }
  }

  lemma RelatoDaFase(s: Sessao, cfg: Config)
    requires InvFase(s, cfg)
    ensures s.relatos == if s.destruida then [s.status] else []
  {}

  lemma {:induction false} PossivelConcat(s: Sessao, cfg: Config, a: seq<Ocorrencia>, b: seq<Ocorrencia>)
    ensures Possivel(s, cfg, a + b) <==> Possivel(s, cfg, a) && Possivel(Roda(s, cfg, a), cfg, b)
    decreases |a|
  {
    hide Passo, Habilitada;
    if a == [] {
      assert a + b == b;
    } else {
      assert (a + b)[1..] == a[1..] + b;
      PossivelConcat(Passo(s, cfg, a[0]), cfg, a[1..], b);
    }
  }

  predicate TodasNoPrazo(s: Sessao, cfg: Config, os: seq<Ocorrencia>)
    decreases |os|
  {
    os != [] ==> NoPrazo(s, os[0]) && TodasNoPrazo(Passo(s, cfg, os[0]), cfg, os[1..])
  }

  lemma {:induction false} TempoDe(s: Sessao, cfg: Config, os: seq<Ocorrencia>)
    requires InvFase(s, cfg) && InvTempo(s) && Possivel(s, cfg, os) && TodasNoPrazo(s, cfg, os)
    ensures InvTempo(Roda(s, cfg, os)) && Roda(s, cfg, os).h.inicio == s.h.inicio
    decreases |os|
  {
    hide Passo, InvTempo, NoPrazo;
    if os != [] {
      TempoMantido(s, cfg, os[0]);
      FaseMantida(s, cfg, os[0]);
      TempoDe(Passo(s, cfg, os[0]), cfg, os[1..]);
    }
  }

  /**
   Every session ends.  With on-time firing no session outlives 258 waits of
   15 s, data that trickles in never extends a wait, a live session always has
   its timer pending within that limit, and a dead one reported exactly once.
   */
  lemma SessaoTermina(t0: real, cfg: Config, os: seq<Ocorrencia>)
    requires Possivel(Inicial(t0), cfg, os) && TodasNoPrazo(Inicial(t0), cfg, os)
    ensures var s := Roda(Inicial(t0), cfg, os);
            && s.h.agora <= t0 + 3870.0
            && if s.destruida then |s.relatos| == 1
               else s.relatos == [] && s.conn_timeout.Some? && s.conn_timeout.value <= t0 + 3870.0
  {
    hide Passo, Possivel, TodasNoPrazo, Roda;
    var s := Roda(Inicial(t0), cfg, os);
    Invariantes(t0, cfg, os);
    TempoDe(Inicial(t0), cfg, os);
    assert PRAZO * s.h.esperas as real <= PRAZO * MAX_ESPERAS as real;
  }

  lemma {:induction false} EsperaDe(s: Sessao, cfg: Config, os: seq<Ocorrencia>)
    requires InvEspera(s) && Possivel(s, cfg, os)
    ensures InvEspera(Roda(s, cfg, os))
    decreases |os|
  {
    hide Passo, Habilitada, InvEspera;
    if os != [] {
      EsperaMantida(s, cfg, os[0]);
      EsperaDe(Passo(s, cfg, os[0]), cfg, os[1..]);
    }
  }

  /** In every run a session that has not ended waits, and its wait ends 15 s after it began. */
  lemma EsperaSempre(t0: real, cfg: Config, os: seq<Ocorrencia>)
    requires Possivel(Inicial(t0), cfg, os)
    ensures var s := Roda(Inicial(t0), cfg, os);
            !s.destruida ==> s.conn_timeout == Some(s.h.desde + 15.0)
  {
    EsperaDe(Inicial(t0), cfg, os);
  }

  // ------------------------------------------------ What the panel is asked

  /** The request to be let in: 02, the password's digits, 10. */
  predicate PedeEntrada(cfg: Config, m: Mensagem) {
    var p := m.payload;
    && m.cmd == 0xf0f0 && |p| == cfg.tamSenha + 2 && p[0] == 0x02 && p[|p| - 1] == 0x10
    && ContactID(p[1..|p| - 1]) == Abs(cfg.senha) % Pow10(cfg.tamSenha)
  }

  /** The request for fragment k of the session's photo. */
  predicate PedeParte(cfg: Config, m: Mensagem, k: nat) {
    var p := m.payload;
    m.cmd == 0x0bb0 && |p| == 4 && ParseBE16(p[0..2]) == cfg.indice && p[2] == cfg.nrfoto && p[3] as int == k
  }

  /** Entry, fragments 1, 2, ..., and at the end, if it got there, the farewell. */
  predicate Dialogo(cfg: Config, ms: seq<Mensagem>, fim: bool) {
    var n := if fim then |ms| - 1 else |ms|;
    && (fim ==> |ms| >= 3 && ms[n] == Mensagem(0xf0f1, []))
    && (n > 0 ==> PedeEntrada(cfg, ms[0]))
    && forall k :: 1 <= k < n ==> PedeParte(cfg, ms[k], k)
  }

  /** A password and an index that the packets can carry. */
  predicate Transmissivel(cfg: Config) { cfg.indice < 65536 && cfg.tamSenha < 65532 }

  /** A packet sent by itself is read back as its message. */
  lemma PacoteLido(m: Mensagem)
    requires Representavel(m)
    ensures CabecaBoa(PacoteIsecNet2(m)) && Cabeca(PacoteIsecNet2(m)) == m
  {
    hide PacoteIsecNet2, CabecaBoa, Cabeca, PacoteIsecNet2Completo;
    CabecaDoPacote(m, []);
    assert PacoteIsecNet2(m) + [] == PacoteIsecNet2(m);
  }

  lemma AutenticacaoLida(cfg: Config)
    requires Transmissivel(cfg)
    ensures var pct := PacoteIsecNet2Auth(cfg.senha, cfg.tamSenha);
            && CabecaBoa(pct) && PedeEntrada(cfg, Cabeca(pct)) && Representavel(Cabeca(pct))
            && pct == PacoteIsecNet2(Cabeca(pct))
  {
    hide PacoteIsecNet2, CabecaBoa, Cabeca;
    var digitos := DigitosContactID(Abs(cfg.senha), cfg.tamSenha);
    var m := Mensagem(0xf0f0, [0x02] + digitos + [0x10]);
    assert m.payload[1..|m.payload| - 1] == digitos;
    ContactIDIdaEVolta(cfg.senha, cfg.tamSenha);
    PacoteLido(m);
  }

  lemma PedidoLido(cfg: Config, k: nat)
    requires cfg.indice < 65536 && k <= 255
    ensures var pct := Pedido(cfg, k);
            && CabecaBoa(pct) && PedeParte(cfg, Cabeca(pct), k) && Representavel(Cabeca(pct))
            && pct == PacoteIsecNet2(Cabeca(pct))
  {
    hide PacoteIsecNet2, CabecaBoa, Cabeca;
    var m := Mensagem(0x0bb0, BE16(cfg.indice) + [cfg.nrfoto, (k % 256) as byte]);
    assert m.payload[0..2] == BE16(cfg.indice) + [];
    BE16IdaEVolta(cfg.indice, []);
    PacoteLido(m);
  }

  /** One more packet on the wire is one more message read. */
  lemma MaisUmaMensagem(fluxo: bytes, m: Mensagem)
    requires SobraDeMensagens(fluxo) == [] && Representavel(m)
    ensures Mensagens(fluxo + PacoteIsecNet2(m)) == Mensagens(fluxo) + [m]
    ensures SobraDeMensagens(fluxo + PacoteIsecNet2(m)) == []
  {
    hide PacoteIsecNet2, CabecaBoa, Cabeca, PacoteIsecNet2Completo;
    var pct := PacoteIsecNet2(m);
    MensagensConcat(fluxo, pct);
    assert [] + pct == pct && pct + [] == pct;
    CabecaDoPacote(m, []);
    MensagensDeUmPacote(pct);
    assert pct[..|pct|] == pct;
  }

  lemma {:induction false} PedidosLidos(cfg: Config, n: nat)
    requires Transmissivel(cfg) && n <= 255
    ensures var fio := Concat(Pedidos(cfg, n));
            && |Mensagens(fio)| == n + 1 == |Pedidos(cfg, n)|
            && Dialogo(cfg, Mensagens(fio), false) && SobraDeMensagens(fio) == []
  {
    hide PacoteIsecNet2, PacoteIsecNet2Auth, Pedido, CabecaBoa, Cabeca, PedeEntrada, PedeParte;
    hide Mensagens, SobraDeMensagens;
    if n == 0 {
      AutenticacaoLida(cfg);
      var pct := PacoteIsecNet2Auth(cfg.senha, cfg.tamSenha);
      assert Pedidos(cfg, 0) == [] + [pct] && [] + pct == pct;
      ConcatOne([], pct);
      NadaLido();
      MaisUmaMensagem([], Cabeca(pct));
    } else {
      PedidosLidos(cfg, n - 1);
      PedidoLido(cfg, n);
      ConcatOne(Pedidos(cfg, n - 1), Pedido(cfg, n));
      MaisUmaMensagem(Concat(Pedidos(cfg, n - 1)), Cabeca(Pedido(cfg, n)));
    }
  }

  lemma NadaLido()
    ensures Mensagens([]) == [] && SobraDeMensagens([]) == [] && Concat([]) == []
  {}

  /** What was sent: nothing yet, or the requests up to some fragment, and on success the farewell. */
  predicate InvEnviados(s: Sessao, cfg: Config) {
    if s.status == 0 then
      && 3 <= |s.enviados| <= 257
      && s.enviados == Pedidos(cfg, |s.enviados| - 2) + [PacoteIsecNet2Bye()]
    else s.enviados == [] || (|s.enviados| <= 256 && s.enviados == Pedidos(cfg, |s.enviados| - 1))
  }

  lemma {:induction false} QuantosPedidos(cfg: Config, n: nat)
    ensures |Pedidos(cfg, n)| == n + 1
  {
    if n > 0 {
      QuantosPedidos(cfg, n - 1);
    }
  }

  lemma EnviadosMantidos(s: Sessao, cfg: Config, o: Ocorrencia)
    requires InvFase(s, cfg) && Habilitada(s, o) && InvEnviados(s, cfg)
    ensures InvEnviados(Passo(s, cfg, o), cfg)
  {
    hide Pedido, PacoteIsecNet2Bye, PacoteIsecNet2Auth, FragmentoOk, Obtidos, Imagem, Pedidos;
    hide CabecaBoa, Cabeca, PacoteIsecNet2Completo, Autentica, Coleta;
    QuantosPedidos(cfg, 0);
    SoAutenticacao(cfg);
    if o.evento.EvDados? && s.status != 0 {
      var buf := s.recv_buf + o.evento.dados;
      var n := PacoteIsecNet2Completo(buf);
      if n != 0 && CabecaBoa(buf) {
        var s2 := s.(recv_buf := buf[n..], conn_timeout := None,
                     h := s.h.(agora := o.t, recebido := s.h.recebido + o.evento.dados,
                               consumido := s.h.consumido + buf[..n], ms := s.h.ms + [Cabeca(buf)]));
        if s.tratador == RespostaAutenticacao {
          EnviadosPelaEntrada(s2, cfg, Cabeca(buf), o.t);
        } else {
          EnviadosPelaColeta(s2, cfg, Cabeca(buf), o.t);
        }
      }
    }
  }

  lemma EnviadosPelaEntrada(s: Sessao, cfg: Config, m: Mensagem, t: real)
    requires s.status == 2 && s.enviados == Pedidos(cfg, 0)
    ensures InvEnviados(Autentica(s, cfg, m, t), cfg)
  {
    hide Pedido, PacoteIsecNet2Bye, PacoteIsecNet2Auth;
    QuantosPedidos(cfg, 0);
    MaisUmPedido(cfg, 0);
  }

  lemma EnviadosPelaColeta(s: Sessao, cfg: Config, m: Mensagem, t: real)
    requires s.status == 2 && 1 <= s.fragmento_corrente <= 255 && s.enviados == Pedidos(cfg, s.fragmento_corrente)
    ensures InvEnviados(Coleta(s, cfg, m, t), cfg)
  {
    hide Pedido, PacoteIsecNet2Bye, Pedidos;
    QuantosPedidos(cfg, s.fragmento_corrente);
    MaisUmPedido(cfg, s.fragmento_corrente);
  }

  lemma {:induction false} EnviadosDe(s: Sessao, cfg: Config, os: seq<Ocorrencia>)
    requires InvFase(s, cfg) && InvEnviados(s, cfg) && Possivel(s, cfg, os)
    ensures InvEnviados(Roda(s, cfg, os), cfg)
    decreases |os|
  {
    hide Passo, InvFase, InvEnviados, Habilitada;
    if os != [] {
      FaseMantida(s, cfg, os[0]);
      EnviadosMantidos(s, cfg, os[0]);
      EnviadosDe(Passo(s, cfg, os[0]), cfg, os[1..]);
    }
  }

  /**
   What the panel reads.  In every run the bytes sent are, packet by packet, the
   request to be let in with the session's password, the requests for fragments
   1, 2, ... of its photo, and once it succeeded the farewell.
   */
  lemma DialogoDaSessao(t0: real, cfg: Config, os: seq<Ocorrencia>)
    requires Transmissivel(cfg) && Possivel(Inicial(t0), cfg, os)
    ensures var s := Roda(Inicial(t0), cfg, os);
            && Dialogo(cfg, Mensagens(Concat(s.enviados)), s.status == 0)
            && SobraDeMensagens(Concat(s.enviados)) == []
            && |Mensagens(Concat(s.enviados))| == |s.enviados|
  {
    hide Passo, Possivel, Roda, Mensagens, SobraDeMensagens, Pedidos, PacoteIsecNet2, Concat, PedeEntrada, PedeParte;
    var s := Roda(Inicial(t0), cfg, os);
    EnviadosDe(Inicial(t0), cfg, os);
    if s.enviados == [] {
      NadaLido();
    } else if s.status != 0 {
      PedidosLidos(cfg, |s.enviados| - 1);
    } else {
      var n := |s.enviados| - 2;
      PedidosLidos(cfg, n);
      ConcatOne(Pedidos(cfg, n), PacoteIsecNet2Bye());
      MaisUmaMensagem(Concat(Pedidos(cfg, n)), Mensagem(0xf0f1, []));
    }
  }

  // --------------------------------------------------- A panel that answers

  /** Part of a packet changes nothing but the buffer: receiving it in two pieces or in one is the same. */
  lemma PedacoNaoImporta(s: Sessao, cfg: Config, a: bytes, ta: real, b: bytes, tb: real)
    requires PacoteIsecNet2Completo(s.recv_buf + a) == 0
    ensures Recebe(Recebe(s, cfg, a, ta), cfg, b, tb) == Recebe(s, cfg, a + b, tb)
    ensures Recebe(s, cfg, a, ta).conn_timeout == s.conn_timeout
    ensures Recebe(s, cfg, a, ta).recv_buf == s.recv_buf + a
  {
    hide PacoteIsecNet2Completo, CabecaBoa, Cabeca, Autentica, Coleta;
    ConcatAssoc(s.recv_buf, a, b);
    ConcatAssoc(s.h.recebido, a, b);
    assert (s.recv_buf + a)[0..] == s.recv_buf + a;
  }

  predicate SoDados(os: seq<Ocorrencia>) {
    forall i :: 0 <= i < |os| ==> os[i].evento.EvDados? && os[i].evento.dados != []
  }

  /** A packet delivered in any number of pieces has the effect of the packet. */
  lemma {:induction false} EntregaEmPedacos(s: Sessao, cfg: Config, m: Mensagem, os: seq<Ocorrencia>)
    requires Representavel(m) && os != [] && SoDados(os)
    requires s.recv_buf + Chegado(os) == PacoteIsecNet2(m)
    ensures Roda(s, cfg, os) == Recebe(s, cfg, Chegado(os), os[|os| - 1].t)
    decreases |os|
  {
    hide PacoteIsecNet2, PacoteIsecNet2Completo, Recebe;
    var d := os[0].evento.dados;
    assert ChegadoEm(os[0]) == d;
    if |os| == 1 {
      assert Chegado(os[1..]) == [] && d + [] == d;
    } else {
      var resto := Chegado(os[1..]);
      assert resto == os[1].evento.dados + Chegado(os[1..][1..]);
      var pct := PacoteIsecNet2(m);
      ConcatAssoc(s.recv_buf, d, resto);
      assert s.recv_buf + d == pct[..|s.recv_buf + d|];
      PrefixoIncompleto(m, |s.recv_buf + d|);
      PedacoNaoImporta(s, cfg, d, os[0].t, resto, os[|os| - 1].t);
      EntregaEmPedacos(Passo(s, cfg, os[0]), cfg, m, os[1..]);
    }
  }

  lemma {:induction false} RodaConcat(s: Sessao, cfg: Config, a: seq<Ocorrencia>, b: seq<Ocorrencia>)
    ensures Roda(s, cfg, a + b) == Roda(Roda(s, cfg, a), cfg, b)
    decreases |a|
  {
    hide Passo;
    if a == [] {
      assert a + b == b;
    } else {
      assert (a + b)[1..] == a[1..] + b;
      RodaConcat(Passo(s, cfg, a[0]), cfg, a[1..], b);
    }
  }

  /** One delivery after another. */
  function Junta(entregas: seq<seq<Ocorrencia>>): seq<Ocorrencia> {
    if entregas == [] then [] else entregas[0] + Junta(entregas[1..])
  }

  /** The answer of a panel to the request for fragment k of n. */
  function Resposta(cfg: Config, nrFotos: byte, k: nat, n: nat, parte: bytes): Mensagem
    requires k <= 255 && n <= 255
  {
    Mensagem(0x0bb0, BE16(cfg.indice) + [cfg.nrfoto, nrFotos, k as byte, n as byte] + parte)
  }

  predicate PartesTransportaveis(partes: seq<bytes>) {
    1 <= |partes| <= 255 && forall k :: 0 <= k < |partes| ==> |partes[k]| < 65528
  }

  /** A panel: the password that opens it, how many photos it says an event has, and the parts of each photo. */
  datatype Central = Central(senha: nat, nrFotos: byte, fotos: map<(nat, byte), seq<bytes>>)

  /** What it answers, which depends on nothing but the octets of the request. */
  function Atende(c: Central, pedido: bytes): Mensagem {
    if !CabecaBoa(pedido) then Mensagem(0xf0fd, [0x01])
    else
      var m := Cabeca(pedido);
      var p := m.payload;
      if m.cmd == 0xf0f0 && |p| >= 2 then Mensagem(0xf0f0, [if ContactID(p[1..|p| - 1]) == c.senha then 0 else 1])
      else if m.cmd == 0x0bb0 && |p| == 4 && (ParseBE16(p[0..2]), p[2]) in c.fotos then
        var partes := c.fotos[(ParseBE16(p[0..2]), p[2])];
        if 1 <= p[3] as int <= |partes| <= 255 then
          Mensagem(0x0bb0, p[0..3] + [c.nrFotos, p[3], |partes| as byte] + partes[p[3] as int - 1])
        else Mensagem(0xf0fd, [0x25])
      else Mensagem(0xf0fd, [0x24])
  }

  /** Each delivery is, in any pieces, the panel's answer to the last packet it was sent. */
  predicate Conversa(s: Sessao, cfg: Config, c: Central, entregas: seq<seq<Ocorrencia>>)
    decreases |entregas|
  {
    entregas != [] ==>
      && SoDados(entregas[0]) && entregas[0] != [] && s.enviados != []
      && Chegado(entregas[0]) == PacoteIsecNet2(Atende(c, s.enviados[|s.enviados| - 1]))
      && Conversa(Roda(s, cfg, entregas[0]), cfg, c, entregas[1..])
  }

  /** Waiting for fragment k with an empty buffer, the earlier ones collected. */
  predicate Aguarda(s: Sessao, k: nat, jpeg: bytes) {
    && s.tratador == RespostaComando && s.recv_buf == []
    && s.fragmento_corrente == k && s.jpeg_corrente == jpeg
  }

  /** The last packet sent is the request for fragment k. */
  predicate Pediu(s: Sessao, cfg: Config, k: nat) {
    s.enviados != [] && s.enviados[|s.enviados| - 1] == Pedido(cfg, k)
  }

  lemma RespostaColetada(s: Sessao, cfg: Config, nrFotos: byte, k: nat, n: nat, parte: bytes, jpeg: bytes,
                         os: seq<Ocorrencia>)
    requires cfg.indice < 65536 && 1 <= k <= n <= 255 && |parte| < 65528
    requires Aguarda(s, k, jpeg) && SoDados(os) && os != []
    requires Chegado(os) == PacoteIsecNet2(Resposta(cfg, nrFotos, k, n, parte))
    ensures var s' := Roda(s, cfg, os);
            && s'.destruida == s.destruida
            && if k < n then Aguarda(s', k + 1, jpeg + parte) && Pediu(s', cfg, k + 1)
               else s'.status == 0 && s'.arquivo == Some(jpeg + parte) && s'.tratador == SemTratador
  {
    hide PacoteIsecNet2, Pedido, PacoteIsecNet2Bye, Roda, Resposta;
    var m := Resposta(cfg, nrFotos, k, n, parte);
    CamposDaResposta(cfg, nrFotos, k, n, parte);
    EntregaInteira(s, cfg, m, os);
  }

  /** A session with an empty buffer that gets one packet, in any pieces, handles its message. */
  lemma EntregaInteira(s: Sessao, cfg: Config, m: Mensagem, os: seq<Ocorrencia>)
    requires s.recv_buf == [] && s.tratador != SemTratador
    requires Representavel(m) && os != [] && SoDados(os) && Chegado(os) == PacoteIsecNet2(m)
    ensures var pct := PacoteIsecNet2(m);
            var t := os[|os| - 1].t;
            var s2 := s.(conn_timeout := None,
                         h := s.h.(agora := t, recebido := s.h.recebido + pct, consumido := s.h.consumido + pct,
                                   ms := s.h.ms + [m]));
            Roda(s, cfg, os) ==
            if s.tratador == RespostaAutenticacao then Autentica(s2, cfg, m, t) else Coleta(s2, cfg, m, t)
  {
    hide PacoteIsecNet2, PacoteIsecNet2Completo, CabecaBoa, Cabeca, Autentica, Coleta, Roda;
    var pct := PacoteIsecNet2(m);
    assert [] + pct == pct && pct + [] == pct;
    EntregaEmPedacos(s, cfg, m, os);
    CabecaDoPacote(m, []);
    assert pct[..|pct|] == pct;
  }

  lemma CamposDaResposta(cfg: Config, nrFotos: byte, k: nat, n: nat, parte: bytes)
    requires cfg.indice < 65536 && k <= 255 && n <= 255 && |parte| < 65528
    ensures var m := Resposta(cfg, nrFotos, k, n, parte);
            && Representavel(m) && m.cmd == 0x0bb0 && FragmentoOk(cfg, m, k)
            && m.payload[5] as int == n && m.payload[6..] == parte
  {
    var m := Resposta(cfg, nrFotos, k, n, parte);
    assert m.payload[0..2] == BE16(cfg.indice) + [];
    BE16IdaEVolta(cfg.indice, []);
  }

  /** The panel answers the request for fragment k with fragment k. */
  lemma AtendePedido(cfg: Config, c: Central, k: nat)
    requires cfg.indice < 65536 && (cfg.indice, cfg.nrfoto) in c.fotos
    requires 1 <= k <= |c.fotos[(cfg.indice, cfg.nrfoto)]| <= 255
    ensures var partes := c.fotos[(cfg.indice, cfg.nrfoto)];
            Atende(c, Pedido(cfg, k)) == Resposta(cfg, c.nrFotos, k, |partes|, partes[k - 1])
  {
    hide PacoteIsecNet2, CabecaBoa, Cabeca, BE16, ParseBE16;
    var m := Mensagem(0x0bb0, BE16(cfg.indice) + [cfg.nrfoto, (k % 256) as byte]);
    PedidoLido(cfg, k);
    PacoteLido(m);
    assert m.payload[0..3] == BE16(cfg.indice) + [cfg.nrfoto];
  }

  lemma AtendeEntrada(cfg: Config, c: Central)
    requires Transmissivel(cfg) && c.senha == Abs(cfg.senha) % Pow10(cfg.tamSenha)
    ensures Atende(c, PacoteIsecNet2Auth(cfg.senha, cfg.tamSenha)) == Mensagem(0xf0f0, [0])
  {
    hide PacoteIsecNet2Auth, CabecaBoa, Cabeca;
    AutenticacaoLida(cfg);
  }

  predicate Tem(c: Central, cfg: Config, partes: seq<bytes>) {
    (cfg.indice, cfg.nrfoto) in c.fotos && c.fotos[(cfg.indice, cfg.nrfoto)] == partes && PartesTransportaveis(partes)
  }

  /** From the request for fragment k on, the panel's answers bring the rest of the photo. */
  lemma {:induction false} FotoColetada(s: Sessao, cfg: Config, c: Central, partes: seq<bytes>, k: nat,
                                        entregas: seq<seq<Ocorrencia>>)
    requires cfg.indice < 65536 && Tem(c, cfg, partes) && 1 <= k <= |partes|
    requires Aguarda(s, k, Concat(partes[..k - 1])) && Pediu(s, cfg, k)
    requires Conversa(s, cfg, c, entregas) && |entregas| == |partes| - k + 1
    ensures var s' := Roda(s, cfg, Junta(entregas));
            && s'.destruida == s.destruida
            && s'.status == 0 && s'.arquivo == Some(Concat(partes)) && s'.tratador == SemTratador
    decreases |entregas|
  {
    hide Passo, PacoteIsecNet2, Roda, Pedido, Atende, Resposta;
    var s1 := Roda(s, cfg, entregas[0]);
    AtendePedido(cfg, c, k);
    RespostaColetada(s, cfg, c.nrFotos, k, |partes|, partes[k - 1], Concat(partes[..k - 1]), entregas[0]);
    assert partes[..k][..k - 1] == partes[..k - 1];
    RodaConcat(s, cfg, entregas[0], Junta(entregas[1..]));
    if k < |partes| {
      FotoColetada(s1, cfg, c, partes, k + 1, entregas[1..]);
    } else {
      RodaVazia(s1, cfg);
      assert partes[..|partes|] == partes;
    }
  }

  lemma RodaVazia(s: Sessao, cfg: Config)
    ensures Roda(s, cfg, []) == s
  {}

  /** A session that connected and heard what it takes for an acceptance asks for fragment 1. */
  lemma SenhaAceita(t0: real, cfg: Config, tc: real, autenticacao: seq<Ocorrencia>)
    requires SoDados(autenticacao) && autenticacao != []
    requires Chegado(autenticacao) == PacoteIsecNet2(Mensagem(0xf0f0, [0]))
    ensures var s := Roda(Conectada(t0, cfg, tc), cfg, autenticacao);
            Aguarda(s, 1, []) && Pediu(s, cfg, 1) && !s.destruida
  {
    hide PacoteIsecNet2, Pedido, PacoteIsecNet2Auth, Roda;
    EntregaInteira(Conectada(t0, cfg, tc), cfg, Mensagem(0xf0f0, [0]), autenticacao);
  }

  /** A session whose connection was made. */
  function Conectada(t0: real, cfg: Config, tc: real): Sessao {
    Passo(Inicial(t0), cfg, Ocorrencia(EvConexao(true), tc))
  }

  /**
   A panel that has the photo, opens to the password, and answers what it is
   asked gets its photo stored whole: any picture in 1 to 255 parts, each answer
   cut into any pieces.
   */
  lemma FotoDeCentralCorreta(t0: real, cfg: Config, tc: real, c: Central, partes: seq<bytes>,
                             entregas: seq<seq<Ocorrencia>>)
    requires Transmissivel(cfg) && c.senha == Abs(cfg.senha) % Pow10(cfg.tamSenha) && Tem(c, cfg, partes)
    requires Conversa(Conectada(t0, cfg, tc), cfg, c, entregas) && |entregas| == 1 + |partes|
    ensures var s := Roda(Inicial(t0), cfg, [Ocorrencia(EvConexao(true), tc)] + Junta(entregas));
            !s.destruida && s.status == 0 && s.arquivo == Some(Concat(partes))
  {
    hide PacoteIsecNet2, PacoteIsecNet2Auth, Roda, Pedido, Atende, Concat;
    var o := Ocorrencia(EvConexao(true), tc);
    var s0 := Conectada(t0, cfg, tc);
    assert s0.enviados == [PacoteIsecNet2Auth(cfg.senha, cfg.tamSenha)];
    AtendeEntrada(cfg, c);
    SenhaAceita(t0, cfg, tc, entregas[0]);
    assert Concat(partes[..0]) == [] by { NadaLido(); }
    FotoColetada(Roda(s0, cfg, entregas[0]), cfg, c, partes, 1, entregas[1..]);
    RodaConcat(s0, cfg, entregas[0], Junta(entregas[1..]));
    RodaUma(Inicial(t0), cfg, o);
    RodaConcat(Inicial(t0), cfg, [o], Junta(entregas));
  }

  /**
   And gets it reported: however the session goes on from there, it keeps the
   whole picture, and if it ends it reports success and nothing else.
   */
  lemma FotoRelatada(t0: real, cfg: Config, tc: real, c: Central, partes: seq<bytes>,
                     entregas: seq<seq<Ocorrencia>>, resto: seq<Ocorrencia>)
    requires Transmissivel(cfg) && c.senha == Abs(cfg.senha) % Pow10(cfg.tamSenha) && Tem(c, cfg, partes)
    requires Conversa(Conectada(t0, cfg, tc), cfg, c, entregas) && |entregas| == 1 + |partes|
    requires Possivel(Inicial(t0), cfg, [Ocorrencia(EvConexao(true), tc)] + Junta(entregas) + resto)
    ensures var s := Roda(Inicial(t0), cfg, [Ocorrencia(EvConexao(true), tc)] + Junta(entregas) + resto);
            && s.arquivo == Some(Concat(partes))
            && s.relatos == if s.destruida then [0] else []
  {
    hide PacoteIsecNet2, Roda, Possivel, Junta, Conversa, Inicial, InvFase, Tem;
    var entrega := [Ocorrencia(EvConexao(true), tc)] + Junta(entregas);
    FotoDeCentralCorreta(t0, cfg, tc, c, partes, entregas);
    PossivelConcat(Inicial(t0), cfg, entrega, resto);
    RodaConcat(Inicial(t0), cfg, entrega, resto);
    Invariantes(t0, cfg, entrega);
    SucessoFicaNaCorrida(Roda(Inicial(t0), cfg, entrega), cfg, resto);
  }

  lemma RodaUma(s: Sessao, cfg: Config, o: Ocorrencia)
    ensures Roda(s, cfg, [o]) == Passo(s, cfg, o)
  {
    RodaVazia(Passo(s, cfg, o), cfg);
    assert [o][1..] == [];
  }

  /** At most one packet is handled per receive: what follows it in the same piece waits in the buffer. */
  lemma UmPacotePorVez(s: Sessao, cfg: Config, m: Mensagem, cauda: bytes, t: real)
    requires s.recv_buf == [] && s.tratador != SemTratador && Representavel(m)
    ensures var s' := Recebe(s, cfg, PacoteIsecNet2(m) + cauda, t);
            s'.recv_buf == cauda && s'.h.ms == s.h.ms + [m] && s'.h.consumido == s.h.consumido + PacoteIsecNet2(m)
  {
    hide PacoteIsecNet2, PacoteIsecNet2Completo, CabecaBoa, Cabeca, Autentica, Coleta;
    var buf := PacoteIsecNet2(m) + cauda;
    assert [] + buf == buf;
    CabecaDoPacote(m, cauda);
    assert buf[..|PacoteIsecNet2(m)|] == PacoteIsecNet2(m);
    var s2 := s.(recv_buf := cauda, conn_timeout := None,
                 h := s.h.(agora := t, recebido := s.h.recebido + buf,
                           consumido := s.h.consumido + PacoteIsecNet2(m), ms := s.h.ms + [m]));
    RespostaNaoTocaBytes(s2, cfg, m, t);
  }

  // ------------------------------------------------------------ The handler

  class ObtemFotosDeEvento {
    const cfg: Config

    var connecting: bool
    var recv_buf: bytes
    var enviados: seq<bytes>
    var conn_timeout: Option<real>
    var status: int
    var tratador: Tratamento
    var fragmento_corrente: nat
    var jpeg_corrente: bytes
    var arquivo: Option<bytes>
    var destroyed: bool
    var relatos: seq<int>

    ghost var h: Historia

    ghost function Est(): Sessao
      reads this
    {
      Sessao(connecting, recv_buf, enviados, conn_timeout, status, tratador, fragmento_corrente, jpeg_corrente,
             arquivo, destroyed, relatos, h)
    }

    constructor (cfg: Config, t: real)
      ensures Est() == Inicial(t) && this.cfg == cfg
    {
      this.cfg := cfg;
      connecting, recv_buf, enviados := true, [], [];
      conn_timeout := Some(t + PRAZO);
      status := 2;
      tratador := SemTratador;
      fragmento_corrente, jpeg_corrente, arquivo := 0, [], None;
      destroyed, relatos := false, [];
      h := Historia(t, t, [], [], [], 1, t);
    }

    /** A second call raises, so no path may make one. */
    method Destroy()
      requires !destroyed
      modifies `relatos, `destroyed, `conn_timeout
      ensures Est() == Destroi(old(Est()))
    {
      relatos := relatos + [status];
      destroyed := true;
      conn_timeout := None;
    }

    method Restart(t: real)
      modifies `conn_timeout, `h
      ensures Est() == Espera(old(Est()), t)
    {
      conn_timeout := Some(t + PRAZO);
      h := h.(esperas := h.esperas + 1, desde := t);
    }

    method ConnectionCallback(ok: bool, t: real)
      requires !destroyed && connecting
      modifies this
      ensures Est() == Passo(old(Est()), cfg, Ocorrencia(EvConexao(ok), t))
    {
      hide PacoteIsecNet2Auth;
      h := h.(agora := t);
      connecting := false;
      conn_timeout := None;
      if !ok {
        status := 1;
        Destroy();
        return;
      }
      enviados := enviados + [PacoteIsecNet2Auth(cfg.senha, cfg.tamSenha)];
      tratador := RespostaAutenticacao;
      Restart(t);
    }

    method ConnTimeout(t: real)
      requires !destroyed
      modifies this
      ensures Est() == Passo(old(Est()), cfg, Ocorrencia(EvTimeout, t))
    {
      h := h.(agora := t);
      if status != 0 {
        status := 1;
      }
      Destroy();
    }

    /** The peer closes its side, or the socket fails. */
    method ShutdownCallback(t: real)
      requires !destroyed
      modifies this
      ensures Est() == Passo(old(Est()), cfg, Ocorrencia(EvFim, t))
    {
      h := h.(agora := t);
      Destroy();
    }

    method RecvCallback(dados: bytes, t: real)
      requires !destroyed
      modifies this
      ensures Est() == Passo(old(Est()), cfg, Ocorrencia(EvDados(dados), t))
    {
      hide PacoteIsecNet2Completo, Autentica, Coleta;
      recv_buf := recv_buf + dados;
      h := h.(agora := t, recebido := h.recebido + dados);
      var compr := PacoteIsecNet2Completo(recv_buf);
      if compr == 0 {
        return;
      }
      ghost var buf := recv_buf;
      assert compr >= 7;
      var pct := recv_buf[..compr];
      recv_buf := recv_buf[compr..];
      if !PacoteIsecNet2Correto(pct) {
        Destroy();
        return;
      }
      CabecaBoaTemPacote(buf);
      var m := PacoteIsecNet2Parse(pct);
      if tratador == SemTratador {
        Destroy();
        return;
      }
      h := h.(consumido := h.consumido + pct, ms := h.ms + [m]);
      conn_timeout := None;
      if tratador == RespostaAutenticacao {
        TrataAutenticacao(m, t);
      } else {
        TrataComando(m, t);
      }
    }

    method TrataAutenticacao(m: Mensagem, t: real)
      requires !destroyed
      modifies this
      ensures Est() == Autentica(old(Est()), cfg, m, t)
    {
      if m.cmd == 0xf0fd {
        Nak(m.payload);
        return;
      }
      if m.cmd != 0xf0f0 {
        Destroy();
        return;
      }
      if |m.payload| != 1 {
        Destroy();
        return;
      }
      if m.payload[0] > 0 {
        Destroy();
        return;
      }
      fragmento_corrente := 1;
      jpeg_corrente := [];
      ObtemFragmentoFoto(t);
    }

    method ObtemFragmentoFoto(t: real)
      modifies this
      ensures Est() == PedeFragmento(old(Est()), cfg, t)
    {
      enviados := enviados + [Pedido(cfg, fragmento_corrente)];
      tratador := RespostaComando;
      Restart(t);
    }

    method TrataComando(m: Mensagem, t: real)
      requires !destroyed
      modifies this
      ensures Est() == Coleta(old(Est()), cfg, m, t)
    {
      hide PedeFragmento, Despede;
      if m.cmd == 0xf0fd {
        Nak(m.payload);
        return;
      }
      if m.cmd == 0xf0f7 {
        Destroy();
        return;
      }
      if m.cmd != 0x0bb0 && m.cmd != 0xf0fe {
        Destroy();
        return;
      }
      TrataFragmento(m, t);
    }

    method TrataFragmento(m: Mensagem, t: real)
      requires !destroyed && (m.cmd == 0x0bb0 || m.cmd == 0xf0fe)
      modifies this
      ensures Est() == Coleta(old(Est()), cfg, m, t)
    {
      hide PedeFragmento, Despede;
      var payload := m.payload;
      if |payload| < 6 {
        Destroy();
        return;
      }
      var indice := ParseBE16(payload[0..2]);
      var foto, fragmento, nr_fragmentos := payload[2], payload[4], payload[5];
      if indice != cfg.indice {
        Destroy();
        return;
      }
      if foto != cfg.nrfoto {
        Destroy();
        return;
      }
      if fragmento as int != fragmento_corrente {
        Destroy();
        return;
      }
      jpeg_corrente := jpeg_corrente + payload[6..];
      if fragmento < nr_fragmentos {
        fragmento_corrente := fragmento_corrente + 1;
        ObtemFragmentoFoto(t);
        return;
      }
      arquivo := Some(jpeg_corrente);
      Despedida(t);
    }

    method Despedida(t: real)
      modifies this
      ensures Est() == Despede(old(Est()), t)
    {
      enviados := enviados + [PacoteIsecNet2Bye()];
      tratador := SemTratador;
      status := 0;
      Restart(t);
    }

    method Nak(payload: bytes)
      requires !destroyed
      modifies this
      ensures Est() == Nega(old(Est()), payload)
    {
      if |payload| == 1 {
        status := 1;
      }
      Destroy();
    }
  }
}
