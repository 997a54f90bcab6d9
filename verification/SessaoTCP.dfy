/**
 One TCP session of the Go receiver as a system of interleaved steps: a
 receiving goroutine, a sending goroutine, the user that reads the events and
 calls Close, and the goroutine that Close starts.  Two bounded channels join
 them.  What Read and Write return is left open.
 */
module SessaoTCP {
  import opened Octetos

  const CAP_EVENTS: nat := 3
  const CAP_TO_SEND: nat := 2
  const RECV_BUFFER_SIZE: nat := 1500

  datatype Event = Connected | Recv(dados: bytes) | RecvEof | Sent(n: nat) | SendEof | Err

  /** The receiving goroutine: in Read, or about to post an event. */
  datatype Rx = Lendo | PostandoRx(ev: Event) | FimRx

  /** The sending goroutine: waiting for data, writing what is left, about to post, or draining the queue. */
  datatype Tx = Esperando | Escrevendo(data: bytes) | PostandoSent(n: nat) | PostandoErro(ev: Event) | Drenando | FimTx

  /** The user: at the head of its loop over events, handling one, inside Close, or done. */
  datatype Usuario = NoLaco | Tratando(ev: Event) | FechandoFila | DrenandoEventos | Saiu

  /** The goroutine that Close starts. */
  datatype Fechador = Ausente | EsperandoGoroutines | AvisandoDono | FimFechador

  /** What happened so far, for the properties to speak of. */
  datatype Historia = Historia(
    lidos: bytes,               // bytes returned by Read
    entregues: seq<Event>,      // events taken by the user's loop
    drenados: seq<Event>,       // events thrown away by Close
    enviados: seq<bytes>,       // arguments of Send, in queue order
    tomados: seq<bytes>,        // of these, taken for writing
    descartados: seq<bytes>,    // and thrown away unwritten
    fio: bytes,                 // bytes that Write put on the wire
    shutdown: bool,             // an empty slice was taken
    erro: bool,                 // a Write failed
    closes: nat,                // calls of Close
    fechamentos: nat,           // closings of the Events channel
    mortes: nat)                // notices to the owner

  datatype Sessao = Sessao(
    events: seq<Event>, eventsFechado: bool,
    to_send: seq<bytes>, toSendFechado: bool,
    connFechada: bool,
    rx: Rx, tx: Tx, usuario: Usuario, fechador: Fechador,
    panico: bool,               // a send on, or second closing of, a closed channel
    h: Historia)

  /** Just started: the Connected event is waiting and both goroutines run. */
  const INICIAL: Sessao :=
    Sessao([Connected], false, [], false, false, Lendo, Esperando, NoLaco, Ausente, false,
           Historia([], [], [], [], [], [], [], false, false, 0, 0, 0))

  datatype Passo =
    | Le(dados: bytes)               // Read returns data
    | LeFim(eof: bool)               // Read returns an error
    | PostaRx
    | Toma                           // the sender takes an item from the queue
    | FilaAcabou
    | Escreve(n: nat)                // Write accepts n bytes
    | EscreveErro(n: nat, eof: bool) // Write accepts n bytes and fails
    | PostaTx
    | Descarta
    | SaiTx
    | UsuarioLe
    | UsuarioVolta
    | UsuarioSai
    | Send(data: bytes)
    | Close
    | FechaFila
    | DrenaEvento
    | CloseRetorna
    | FechaEvents
    | Died

  predicate Habilitado(s: Sessao, p: Passo) {
    && !s.panico
    && match p
       case Le(dados) => s.rx == Lendo && !s.connFechada && |dados| <= RECV_BUFFER_SIZE
       case LeFim(eof) => s.rx == Lendo && (eof ==> !s.connFechada)
       case PostaRx => s.rx.PostandoRx? && (s.eventsFechado || |s.events| < CAP_EVENTS)
       case Toma => s.tx == Esperando && s.to_send != []
       case FilaAcabou => s.tx == Esperando && s.to_send == [] && s.toSendFechado
       case Escreve(n) => s.tx.Escrevendo? && !s.connFechada && 1 <= n <= |s.tx.data|
       case EscreveErro(n, eof) => s.tx.Escrevendo? && n <= |s.tx.data| && (s.connFechada ==> n == 0)
       case PostaTx => (s.tx.PostandoSent? || s.tx.PostandoErro?) && (s.eventsFechado || |s.events| < CAP_EVENTS)
       case Descarta => s.tx == Drenando && s.to_send != []
       case SaiTx => s.tx == Drenando && s.to_send == [] && s.toSendFechado
       case UsuarioLe => s.usuario == NoLaco && s.events != []
       case UsuarioVolta => s.usuario.Tratando?
       case UsuarioSai => s.usuario == NoLaco && s.events == [] && s.eventsFechado
       case Send(_) => s.h.closes == 0 && (s.toSendFechado || |s.to_send| < CAP_TO_SEND)
       case Close => s.usuario.Tratando?
       case FechaFila => s.usuario == FechandoFila
       case DrenaEvento => s.usuario == DrenandoEventos && s.events != []
       case CloseRetorna => s.usuario == DrenandoEventos && s.events == [] && s.eventsFechado
       case FechaEvents => s.fechador == EsperandoGoroutines && s.rx == FimRx && s.tx == FimTx
       case Died => s.fechador == AvisandoDono
  }

  function Posta(s: Sessao, ev: Event): Sessao {
    if s.eventsFechado then s.(panico := true) else s.(events := s.events + [ev])
  }

  function Aplica(s: Sessao, p: Passo): Sessao
    requires Habilitado(s, p)
  {
    match p
    case Le(dados) => s.(rx := PostandoRx(Recv(dados)), h := s.h.(lidos := s.h.lidos + dados))
    case LeFim(eof) => s.(rx := PostandoRx(if eof then RecvEof else Err))
    case PostaRx => Posta(s, s.rx.ev).(rx := if s.rx.ev.Recv? then Lendo else FimRx)
    case Toma =>
      var data := s.to_send[0];
      if data == [] then s.(to_send := s.to_send[1..], tx := Drenando, h := s.h.(shutdown := true))
      else s.(to_send := s.to_send[1..], tx := Escrevendo(data), h := s.h.(tomados := s.h.tomados + [data]))
    case FilaAcabou => s.(tx := Drenando)
    case Escreve(n) =>
      var resto := s.tx.data[n..];
      s.(tx := if resto == [] then PostandoSent(|s.to_send|) else Escrevendo(resto),
         h := s.h.(fio := s.h.fio + s.tx.data[..n]))
    case EscreveErro(n, eof) =>
      s.(tx := PostandoErro(if eof then SendEof else Err), h := s.h.(fio := s.h.fio + s.tx.data[..n], erro := true))
    case PostaTx =>
      if s.tx.PostandoSent? then Posta(s, Sent(s.tx.n)).(tx := Esperando) else Posta(s, s.tx.ev).(tx := Drenando)
    case Descarta => s.(to_send := s.to_send[1..], h := s.h.(descartados := s.h.descartados + [s.to_send[0]]))
    case SaiTx => s.(tx := FimTx)
    case UsuarioLe =>
      s.(events := s.events[1..], usuario := Tratando(s.events[0]),
         h := s.h.(entregues := s.h.entregues + [s.events[0]]))
    case UsuarioVolta => s.(usuario := NoLaco)
    case UsuarioSai => s.(usuario := Saiu)
    case Send(data) =>
      if s.toSendFechado then s.(panico := true)
      else s.(to_send := s.to_send + [data], h := s.h.(enviados := s.h.enviados + [data]))
    case Close => s.(connFechada := true, usuario := FechandoFila, h := s.h.(closes := s.h.closes + 1))
    case FechaFila =>
      if s.toSendFechado then s.(panico := true)
      else s.(toSendFechado := true, usuario := DrenandoEventos, fechador := EsperandoGoroutines)
    case DrenaEvento => s.(events := s.events[1..], h := s.h.(drenados := s.h.drenados + [s.events[0]]))
    case CloseRetorna => s.(usuario := NoLaco)
    case FechaEvents =>
      if s.eventsFechado then s.(panico := true)
      else s.(eventsFechado := true, fechador := AvisandoDono, h := s.h.(fechamentos := s.h.fechamentos + 1))
    case Died => s.(fechador := FimFechador, h := s.h.(mortes := s.h.mortes + 1))
  }

  // ------------------------------------------------------------------ Safety

  /** Where the goroutines can be with respect to each other. */
  predicate InvFases(s: Sessao) {
    && !s.panico
    && |s.events| <= CAP_EVENTS && |s.to_send| <= CAP_TO_SEND
    && (s.rx.PostandoRx? ==> s.rx.ev.Recv? || s.rx.ev.RecvEof? || s.rx.ev.Err?)
    && (s.tx.PostandoErro? ==> s.tx.ev.SendEof? || s.tx.ev.Err?)
    && (s.tx.Escrevendo? ==> s.tx.data != [])
    && (s.tx == FimTx ==> s.toSendFechado && s.to_send == [])
    && (s.eventsFechado <==> s.fechador in {AvisandoDono, FimFechador})
    && (s.toSendFechado <==> s.fechador != Ausente)
    && (s.eventsFechado ==> s.rx == FimRx && s.tx == FimTx)
    && s.h.fechamentos == (if s.eventsFechado then 1 else 0)
    && s.h.mortes == (if s.fechador == FimFechador then 1 else 0)
    && s.h.closes <= 1
    && (s.h.closes == 0 ==> !s.connFechada && !s.toSendFechado && (s.usuario == NoLaco || s.usuario.Tratando?))
    && (s.h.closes == 1 ==>
          && s.connFechada
          && match s.usuario
             case FechandoFila => !s.toSendFechado
             case DrenandoEventos => s.toSendFechado
             case NoLaco => s.eventsFechado && s.events == []
             case Saiu => s.eventsFechado && s.events == []
             case Tratando(_) => false)
  }

  lemma FasesMantidas(s: Sessao, p: Passo)
    requires InvFases(s) && Habilitado(s, p)
    ensures InvFases(Aplica(s, p))
  {}

  // ---------------------------------------------------------- The user's view

  /** What Read returns reaches the user as one event: the data, after which reading goes on, or how it ended. */
  lemma AvisoDaLeitura(s: Sessao, p: Passo)
    requires InvFases(s) && Habilitado(s, p) && (p.Le? || p.LeFim?) && |s.events| < CAP_EVENTS
    ensures var s1 := Aplica(s, p);
            && Habilitado(s1, PostaRx)
            && var s2 := Aplica(s1, PostaRx);
               && (p.Le? ==> s2.events == s.events + [Recv(p.dados)] && s2.rx == Lendo)
               && (p.LeFim? && p.eof ==> s2.events == s.events + [RecvEof] && s2.rx == FimRx)
               && (p.LeFim? && !p.eof ==> s2.events == s.events + [Err] && s2.rx == FimRx)
  {}

  /**
   An item written whole is announced with the number still queued, and the next
   one awaited; a failure is announced as what it is, and nothing more is written.
   */
  lemma AvisoDaEscrita(s: Sessao, p: Passo)
    requires InvFases(s) && Habilitado(s, p) && |s.events| < CAP_EVENTS
    requires (p.Escreve? && p.n == |s.tx.data|) || p.EscreveErro?
    ensures var s1 := Aplica(s, p);
            && Habilitado(s1, PostaTx)
            && var s2 := Aplica(s1, PostaTx);
               && (p.Escreve? ==> s2.events == s.events + [Sent(|s.to_send|)] && s2.tx == Esperando)
               && (p.EscreveErro? && p.eof ==> s2.events == s.events + [SendEof] && s2.tx == Drenando)
               && (p.EscreveErro? && !p.eof ==> s2.events == s.events + [Err] && s2.tx == Drenando)
  {}

  // ------------------------------------------------------------- Termination

  function PesoRx(rx: Rx): nat {
    match rx
    case Lendo => 3
    case PostandoRx(ev) => if ev.Recv? then 5 else 2
    case FimRx => 0
  }

  function PesoTx(tx: Tx): nat {
    match tx
    case Esperando => 2
    case Escrevendo(data) => 4 + |data|
    case PostandoSent(_) => 4
    case PostandoErro(_) => 3
    case Drenando => 1
    case FimTx => 0
  }

  function PesoFila(fila: seq<bytes>): nat {
    if fila == [] then 0 else |fila[0]| + 3 + PesoFila(fila[1..])
  }

  function PesoUsuario(u: Usuario): nat {
    match u
    case FechandoFila => 4
    case DrenandoEventos => 3
    case NoLaco => 2
    case Tratando(_) => 1
    case Saiu => 0
  }

  function PesoFechador(f: Fechador): nat {
    match f
    case Ausente => 2
    case EsperandoGoroutines => 2
    case AvisandoDono => 1
    case FimFechador => 0
  }

  /** Bytes in hand and queued, events waiting, and how far each goroutine is from its end. */
  function Rank(s: Sessao): nat {
    PesoRx(s.rx) + PesoTx(s.tx) + PesoFila(s.to_send) + |s.events| + PesoUsuario(s.usuario) + PesoFechador(s.fechador)
  }

  /** Once Close is called, every step of any goroutine brings the end nearer. */
  lemma RankDecresce(s: Sessao, p: Passo)
    requires InvFases(s) && s.h.closes == 1 && Habilitado(s, p)
    ensures Rank(Aplica(s, p)) < Rank(s) && Aplica(s, p).h.closes == 1
  {}

  predicate Terminada(s: Sessao) {
    s.usuario == Saiu && s.fechador == FimFechador
  }

  /** Some goroutine that can move, while the session is closing. */
  function Proximo(s: Sessao): Passo
    requires InvFases(s) && s.h.closes == 1 && !Terminada(s)
  {
    if s.usuario == FechandoFila then FechaFila
    else if s.usuario == NoLaco then UsuarioSai
    else if s.usuario == Saiu then Died
    else if s.events != [] then DrenaEvento
    else if s.eventsFechado then CloseRetorna
    else if s.rx == Lendo then LeFim(false)
    else if s.rx.PostandoRx? then PostaRx
    else match s.tx
      case Esperando => if s.to_send != [] then Toma else FilaAcabou
      case Escrevendo(_) => EscreveErro(0, false)
      case PostandoSent(_) => PostaTx
      case PostandoErro(_) => PostaTx
      case Drenando => if s.to_send != [] then Descarta else SaiTx
      case FimTx => FechaEvents
  }

  /** No deadlock: a closing session that has not ended can always move. */
  lemma SempreHaProximo(s: Sessao)
    requires InvFases(s) && s.h.closes == 1 && !Terminada(s)
    ensures Habilitado(s, Proximo(s))
  {}

  // ------------------------------------------------------------ Conservation

  /** Bytes of the item being written that are not on the wire yet. */
  function EmMaos(tx: Tx): bytes {
    if tx.Escrevendo? then tx.data else []
  }

  predicate NenhumVazio(ds: seq<bytes>) {
    forall i :: 0 <= i < |ds| ==> ds[i] != []
  }

  /** Every Send argument is on the wire, in hand, queued, or was thrown away after the sender stopped writing. */
  predicate InvEnvio(s: Sessao) {
    && s.h.enviados == s.h.tomados + (if s.h.shutdown then [[]] else []) + s.h.descartados + s.to_send
    && NenhumVazio(s.h.tomados)
    && (if s.h.erro then s.h.fio <= Concat(s.h.tomados) else s.h.fio + EmMaos(s.tx) == Concat(s.h.tomados))
    && (s.tx == Esperando || s.tx.Escrevendo? || s.tx.PostandoSent? ==> !s.h.erro && !s.h.shutdown)
    && (s.tx.PostandoErro? ==> s.h.erro && !s.h.shutdown)
    && (s.tx != Drenando && s.tx != FimTx ==> s.h.descartados == [])
    && (!s.h.erro && !s.h.shutdown ==>
          s.h.descartados == [] && (s.tx == Drenando || s.tx == FimTx ==> s.to_send == [] && s.toSendFechado))
    && !(s.h.erro && s.h.shutdown)
  }

  lemma EnvioMantido(s: Sessao, p: Passo)
    requires InvEnvio(s) && Habilitado(s, p)
    requires (s.tx.Escrevendo? ==> s.tx.data != []) && (s.h.closes == 0 ==> !s.toSendFechado)
    ensures InvEnvio(Aplica(s, p))
  {
    hide Aplica, InvEnvio;
    match p {
      case Toma => if s.to_send[0] == [] { TomaVazioMantem(s); } else { TomaMantem(s); }
      case Escreve(n) => EscreveMantem(s, n);
      case EscreveErro(n, eof) => EscreveErroMantem(s, n, eof);
      case Descarta => DescartaMantem(s);
      case Send(data) => SendMantem(s, data);
      case _ => OutrosMantem(s, p);
    }
  }

  lemma TomaVazioMantem(s: Sessao)
    requires InvEnvio(s) && Habilitado(s, Toma) && s.to_send[0] == []
    ensures InvEnvio(Aplica(s, Toma))
  {
    hide Concat;
    assert s.to_send == [[]] + s.to_send[1..];
  }

  lemma TomaMantem(s: Sessao)
    requires InvEnvio(s) && Habilitado(s, Toma) && s.to_send[0] != []
    ensures InvEnvio(Aplica(s, Toma))
  {
    hide Concat;
    var data := s.to_send[0];
    assert s.h.enviados == s.h.tomados + s.to_send && s.to_send == [data] + s.to_send[1..];
    assert s.h.tomados + ([data] + s.to_send[1..]) == (s.h.tomados + [data]) + s.to_send[1..];
    ConcatOne(s.h.tomados, data);
    assert s.h.fio + [] == s.h.fio;
  }

  lemma EscreveMantem(s: Sessao, n: nat)
    requires InvEnvio(s) && Habilitado(s, Escreve(n))
    ensures InvEnvio(Aplica(s, Escreve(n)))
  {
    assert s.tx.data == s.tx.data[..n] + s.tx.data[n..];
    ConcatAssoc(s.h.fio, s.tx.data[..n], s.tx.data[n..]);
    assert s.h.fio + s.tx.data[..n] + [] == s.h.fio + s.tx.data[..n];
  }

  lemma EscreveErroMantem(s: Sessao, n: nat, eof: bool)
    requires InvEnvio(s) && Habilitado(s, EscreveErro(n, eof))
    ensures InvEnvio(Aplica(s, EscreveErro(n, eof)))
  {
    assert s.tx.data == s.tx.data[..n] + s.tx.data[n..];
    ConcatAssoc(s.h.fio, s.tx.data[..n], s.tx.data[n..]);
  }

  lemma DescartaMantem(s: Sessao)
    requires InvEnvio(s) && Habilitado(s, Descarta)
    ensures InvEnvio(Aplica(s, Descarta))
  {
    assert s.to_send == [s.to_send[0]] + s.to_send[1..];
  }

  lemma SendMantem(s: Sessao, data: bytes)
    requires InvEnvio(s) && Habilitado(s, Send(data)) && !s.toSendFechado
    ensures InvEnvio(Aplica(s, Send(data)))
  {}

  lemma OutrosMantem(s: Sessao, p: Passo)
    requires InvEnvio(s) && Habilitado(s, p)
    requires !p.Toma? && !p.Escreve? && !p.EscreveErro? && !p.Descarta? && !p.Send?
    ensures InvEnvio(Aplica(s, p))
  {
    hide Concat, NenhumVazio;
    match p {
      case FilaAcabou =>
      case PostaTx =>
      case _ =>
    }
  }

  /** The bytes to be sent: all items up to the first empty one, which shuts the sending side down. */
  function AteVazio(ds: seq<bytes>): bytes {
    if ds == [] || ds[0] == [] then [] else ds[0] + AteVazio(ds[1..])
  }

  lemma {:induction false} AteVazioDepoisDe(a: seq<bytes>, b: seq<bytes>)
    requires NenhumVazio(a)
    ensures AteVazio(a + b) == Concat(a) + AteVazio(b)
  {
    if a == [] {
      assert a + b == b;
    } else {
      var n := |a| - 1;
      assert a + b == a[..n] + ([a[n]] + b);
      AteVazioDepoisDe(a[..n], [a[n]] + b);
      assert ([a[n]] + b)[1..] == b;
      ConcatAssoc(Concat(a[..n]), a[n], AteVazio(b));
    }
  }

  /** Only what was sent before the shutdown reaches the wire, and without errors all of it does or still waits. */
  lemma FioEhPrefixo(s: Sessao)
    requires InvEnvio(s)
    ensures s.h.fio <= AteVazio(s.h.enviados)
    ensures !s.h.erro ==>
              s.h.fio + EmMaos(s.tx) + AteVazio(if s.h.shutdown then [] else s.to_send) == AteVazio(s.h.enviados)
    ensures !s.h.erro && s.tx == FimTx ==> s.h.fio == AteVazio(s.h.enviados)
  {
    var fila := (if s.h.shutdown then [[]] else []) + s.h.descartados + s.to_send;
    assert s.h.enviados == s.h.tomados + fila;
    AteVazioDepoisDe(s.h.tomados, fila);
    if !s.h.shutdown && !s.h.erro {
      assert fila == s.to_send;
    }
  }

  /** The bytes that a sequence of events carries. */
  function BytesDe(evs: seq<Event>): bytes {
    if evs == [] then []
    else
      var ev := evs[|evs| - 1];
      BytesDe(evs[..|evs| - 1]) + if ev.Recv? then ev.dados else []
  }

  lemma {:induction false} BytesDeConcat(a: seq<Event>, b: seq<Event>)
    ensures BytesDe(a + b) == BytesDe(a) + BytesDe(b)
  {
    if b == [] {
      assert a + b == a;
    } else {
      assert (a + b)[..|a + b| - 1] == a + b[..|b| - 1];
      BytesDeConcat(a, b[..|b| - 1]);
    }
  }

  function DaMao(rx: Rx): seq<Event> {
    if rx.PostandoRx? then [rx.ev] else []
  }

  /** Every byte read is delivered to the user, drained by Close, queued, or about to be posted, in that order. */
  predicate InvRecepcao(s: Sessao) {
    && s.h.lidos == BytesDe(s.h.entregues) + BytesDe(s.h.drenados) + BytesDe(s.events) + BytesDe(DaMao(s.rx))
    && (s.h.closes == 0 ==> s.h.drenados == [])
  }

  lemma RecepcaoMantida(s: Sessao, p: Passo)
    requires InvRecepcao(s) && InvFases(s) && Habilitado(s, p)
    ensures InvRecepcao(Aplica(s, p))
  {
    hide Aplica, InvRecepcao, InvFases;
    match p {
      case PostaRx => PostagemMantem(s, p, s.rx.ev);
      case PostaTx => AvisoDoEmissor(s); PostagemMantem(s, p, if s.tx.PostandoSent? then Sent(s.tx.n) else s.tx.ev);
      case UsuarioLe => RetiradaMantem(s, p);
      case DrenaEvento => RetiradaMantem(s, p);
      case _ => LeituraMantem(s, p);
    }
  }

  lemma LeituraMantem(s: Sessao, p: Passo)
    requires InvRecepcao(s) && Habilitado(s, p)
    requires !p.PostaRx? && !p.PostaTx? && !p.UsuarioLe? && !p.DrenaEvento?
    ensures InvRecepcao(Aplica(s, p))
  {
    hide BytesDe;
    BytesDeNada();
    if p.Le? {
      BytesDeUm(Recv(p.dados));
    } else if p.LeFim? {
      BytesDeUm(if p.eof then RecvEof else Err);
    }
    assert s.h.lidos + [] == s.h.lidos;
  }

  lemma AvisoDoEmissor(s: Sessao)
    requires InvFases(s) && Habilitado(s, PostaTx)
    ensures var ev := if s.tx.PostandoSent? then Sent(s.tx.n) else s.tx.ev;
            !ev.Recv? && Aplica(s, PostaTx).events == s.events + [ev]
  {}

  lemma PostagemMantem(s: Sessao, p: Passo, ev: Event)
    requires InvRecepcao(s) && InvFases(s) && Habilitado(s, p)
    requires (p == PostaRx && ev == s.rx.ev) || (p == PostaTx && Aplica(s, p).events == s.events + [ev] && !ev.Recv?)
    ensures InvRecepcao(Aplica(s, p))
  {
    hide BytesDe;
    BytesDeConcat(s.events, [ev]);
    BytesDeUm(ev);
    assert BytesDe([]) == [] by { BytesDeNada(); }
    ConcatAssoc(BytesDe(s.h.entregues) + BytesDe(s.h.drenados), BytesDe(s.events), BytesDe([ev]));
    assert BytesDe(s.events) + [] == BytesDe(s.events);
    assert s.h.lidos + [] == s.h.lidos;
  }

  lemma RetiradaMantem(s: Sessao, p: Passo)
    requires InvRecepcao(s) && InvFases(s) && Habilitado(s, p) && (p == UsuarioLe || p == DrenaEvento)
    ensures InvRecepcao(Aplica(s, p))
  {
    hide BytesDe;
    var ev := s.events[0];
    assert s.events == [ev] + s.events[1..];
    BytesDeConcat([ev], s.events[1..]);
    assert BytesDe([]) == [] by { BytesDeNada(); }
    if p == UsuarioLe {
      BytesDeConcat(s.h.entregues, [ev]);
      assert BytesDe(s.h.entregues) + [] == BytesDe(s.h.entregues);
      assert (BytesDe(s.h.entregues) + BytesDe([ev])) + [] == BytesDe(s.h.entregues) + BytesDe([ev]);
      ConcatAssoc(BytesDe(s.h.entregues), BytesDe([ev]), BytesDe(s.events[1..]));
    } else {
      BytesDeConcat(s.h.drenados, [ev]);
      ConcatAssoc(BytesDe(s.h.entregues), BytesDe(s.h.drenados), BytesDe([ev]));
      ConcatAssoc(BytesDe(s.h.entregues) + BytesDe(s.h.drenados), BytesDe([ev]), BytesDe(s.events[1..]));
    }
  }

  lemma BytesDeNada()
    ensures BytesDe([]) == []
  {}

  lemma BytesDeUm(ev: Event)
    ensures BytesDe([ev]) == if ev.Recv? then ev.dados else []
  {
    assert [ev][..0] == [];
  }

  // ---------------------------------------------------------------- All runs

  predicate Inv(s: Sessao) { InvFases(s) && InvEnvio(s) && InvRecepcao(s) }

  lemma InvMantido(s: Sessao, p: Passo)
    requires Inv(s) && Habilitado(s, p)
    ensures Inv(Aplica(s, p))
  {
    hide Aplica, Habilitado, InvEnvio, InvRecepcao;
    FasesMantidas(s, p);
    EnvioMantido(s, p);
    RecepcaoMantida(s, p);
  }

  predicate Possivel(s: Sessao, ps: seq<Passo>)
    decreases |ps|
  {
    ps != [] ==> Habilitado(s, ps[0]) && Possivel(Aplica(s, ps[0]), ps[1..])
  }

  function Roda(s: Sessao, ps: seq<Passo>): Sessao
    requires Possivel(s, ps)
    decreases |ps|
  {
    if ps == [] then s else Roda(Aplica(s, ps[0]), ps[1..])
  }

  lemma {:induction false} InvDe(s: Sessao, ps: seq<Passo>)
    requires Inv(s) && Possivel(s, ps)
    ensures Inv(Roda(s, ps))
    decreases |ps|
  {
    hide Aplica, Habilitado, Inv;
    if ps != [] {
      InvMantido(s, ps[0]);
      InvDe(Aplica(s, ps[0]), ps[1..]);
    }
  }

  /**
   Every interleaving from the start: no send on a closed channel, no channel
   closed twice, Close called at most once, and no byte lost, invented or put
   out of order in either direction.
   */
  lemma TodaIntercalacao(ps: seq<Passo>)
    requires Possivel(INICIAL, ps)
    ensures var s := Roda(INICIAL, ps);
            && Inv(s) && !s.panico && s.h.closes <= 1 && s.h.fechamentos <= 1
            && (s.eventsFechado ==> !Habilitado(s, PostaRx) && !Habilitado(s, PostaTx))
            && s.h.fio <= AteVazio(s.h.enviados)
            && BytesDe(s.h.entregues) <= s.h.lidos
  {
    hide Possivel, Roda;
    assert Inv(INICIAL) by {
      BytesDeUm(Connected);
      BytesDeNada();
    }
    InvDe(INICIAL, ps);
    var s := Roda(INICIAL, ps);
    FioEhPrefixo(s);
  }

  /**
   Close terminates.  From the moment it is called, under every interleaving
   the session takes at most Rank steps, can always take one until it has
   ended, and ends with both goroutines gone, the queue empty, the Events
   channel closed once and the owner told once.
   */
  lemma {:induction false} CloseTermina(s: Sessao, ps: seq<Passo>)
    requires InvFases(s) && s.h.closes == 1 && Possivel(s, ps)
    ensures var s' := Roda(s, ps);
            && |ps| + Rank(s') <= Rank(s)
            && InvFases(s') && s'.h.closes == 1
            && if Terminada(s')
               then s'.rx == FimRx && s'.tx == FimTx && s'.to_send == [] && s'.events == []
                    && s'.h.fechamentos == 1 && s'.h.mortes == 1 && forall p :: !Habilitado(s', p)
               else Habilitado(s', Proximo(s'))
    decreases |ps|
  {
    hide Aplica, Rank, Possivel, Roda;
    if ps == [] {
      assert Roda(s, ps) == s by { RodaVazia(s); }
      if !Terminada(s) {
        SempreHaProximo(s);
      }
    } else {
      assert Habilitado(s, ps[0]) && Possivel(Aplica(s, ps[0]), ps[1..]) by { PrimeiroPasso(s, ps); }
      FasesMantidas(s, ps[0]);
      RankDecresce(s, ps[0]);
      CloseTermina(Aplica(s, ps[0]), ps[1..]);
      assert Roda(s, ps) == Roda(Aplica(s, ps[0]), ps[1..]) by { PrimeiroPasso(s, ps); }
    }
  }

  lemma RodaVazia(s: Sessao)
    ensures Possivel(s, []) && Roda(s, []) == s
  {}

  lemma PrimeiroPasso(s: Sessao, ps: seq<Passo>)
    requires Possivel(s, ps) && ps != []
    ensures Habilitado(s, ps[0]) && Possivel(Aplica(s, ps[0]), ps[1..])
    ensures Roda(s, ps) == Roda(Aplica(s, ps[0]), ps[1..])
  {}
}
