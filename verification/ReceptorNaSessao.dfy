/**
 The Go handler of a panel connection running on its TCP session: the user of
 the session is the handler, which takes events in a loop, handles the frames of
 what was received one at a time, hands each answer to Send, and calls Close.
 The goroutines of the session take their steps in between.
 */
module ReceptorNaSessao {
  import opened Octetos
  import opened Quadros
  import opened ReceptorTratador
  import Tcp = SessaoTCP

  /** The session, the handler's buffer, the frames it has handled and the answers they get. */
  datatype Conjunto = Conjunto(s: Tcp.Sessao, buffer: bytes, tratados: seq<PacoteRIP>, respostas: seq<bytes>)

  const INICIAL: Conjunto := Conjunto(Tcp.INICIAL, [], [], [])

  /** A step of the session, or the handling of one frame. */
  datatype Passo = Rede(p: Tcp.Passo) | TrataQuadro

  /** Every answer was handed to the session. */
  predicate Respondido(c: Conjunto) { c.s.h.enviados == c.respostas }

  /** Nothing is left to do about the event at hand. */
  predicate Livre(c: Conjunto) { Respondido(c) && ExtrairFrameRIP(c.buffer).1 == 0 }

  /** The handler sends its answers in order, finishes with each event, and cannot go on after an end or an error. */
  predicate Habilitado(c: Conjunto, p: Passo) {
    match p
    case Rede(Send(data)) =>
      && Tcp.Habilitado(c.s, p.p) && c.s.usuario.Tratando?
      && |c.s.h.enviados| < |c.respostas| && data == c.respostas[|c.s.h.enviados|]
    case Rede(UsuarioVolta) =>
      && Tcp.Habilitado(c.s, p.p) && Livre(c)
      && (c.s.usuario.ev.Connected? || c.s.usuario.ev.Recv? || c.s.usuario.ev.Sent?)
    case Rede(Close) => Tcp.Habilitado(c.s, p.p) && Livre(c)
    case Rede(q) => Tcp.Habilitado(c.s, q)
    case TrataQuadro =>
      && !c.s.panico && c.s.usuario.Tratando? && c.s.usuario.ev.Recv?
      && Respondido(c) && ExtrairFrameRIP(c.buffer).1 > 0
  }

  function Aplica(c: Conjunto, p: Passo, relogio: nat -> Instante): Conjunto
    requires Habilitado(c, p)
  {
    match p
    case Rede(q) =>
      var s' := Tcp.Aplica(c.s, q);
      if q.UsuarioLe? && c.s.events[0].Recv? then c.(s := s', buffer := c.buffer + c.s.events[0].dados) else c.(s := s')
    case TrataQuadro =>
      var (pacote, n) := ExtrairFrameRIP(c.buffer);
      c.(buffer := c.buffer[n..], tratados := c.tratados + [pacote],
         respostas := c.respostas + [Resposta(pacote, relogio(|c.tratados|))])
  }

  /** What every interleaving keeps. */
  predicate Inv(c: Conjunto, relogio: nat -> Instante) {
    && Tcp.Inv(c.s)
    && Frames(Tcp.BytesDe(c.s.h.entregues)) == c.tratados + Frames(c.buffer)
    && Sobra(Tcp.BytesDe(c.s.h.entregues)) == Sobra(c.buffer)
    && c.respostas == RespostasDe(c.tratados, relogio)
    && c.s.h.enviados <= c.respostas
    && (!(c.s.usuario.Tratando? && c.s.usuario.ev.Recv?) ==> Livre(c))
  }

  lemma InvMantido(c: Conjunto, p: Passo, relogio: nat -> Instante)
    requires Inv(c, relogio) && Habilitado(c, p)
    ensures Inv(Aplica(c, p, relogio), relogio)
  {
    hide ExtrairFrameRIP, Frames, Sobra, RespostasDe, Tcp.Inv, Tcp.Aplica, Tcp.Habilitado, Tcp.BytesDe;
    match p {
      case TrataQuadro => QuadroMantem(c, relogio);
      case Rede(q) =>
        Tcp.InvMantido(c.s, q);
        if q.UsuarioLe? {
          LeituraMantem(c, relogio);
        } else if q.Send? {
          EnvioMantem(c, q.data, relogio);
        } else {
          OutrosNaoTocam(c.s, q);
        }
    }
  }

  lemma QuadroMantem(c: Conjunto, relogio: nat -> Instante)
    requires Inv(c, relogio) && Habilitado(c, TrataQuadro)
    ensures Inv(Aplica(c, TrataQuadro, relogio), relogio)
  {
    hide ExtrairFrameRIP, Tcp.Inv, Tcp.BytesDe;
    var (pacote, n) := ExtrairFrameRIP(c.buffer);
    assert Frames(c.buffer) == [pacote] + Frames(c.buffer[n..]);
    assert c.tratados + ([pacote] + Frames(c.buffer[n..])) == (c.tratados + [pacote]) + Frames(c.buffer[n..]);
    assert (c.tratados + [pacote])[..|c.tratados|] == c.tratados;
  }

  /** An event is taken with nothing pending, so all the frames that it completes are the buffer's. */
  lemma LeituraMantem(c: Conjunto, relogio: nat -> Instante)
    requires Inv(c, relogio) && Habilitado(c, Rede(Tcp.UsuarioLe)) && Tcp.Inv(Tcp.Aplica(c.s, Tcp.UsuarioLe))
    ensures Inv(Aplica(c, Rede(Tcp.UsuarioLe), relogio), relogio)
  {
    hide ExtrairFrameRIP, Frames, Sobra, RespostasDe, Tcp.Inv, Tcp.BytesDe;
    var ev := c.s.events[0];
    var antes := Tcp.BytesDe(c.s.h.entregues);
    Tcp.BytesDeConcat(c.s.h.entregues, [ev]);
    Tcp.BytesDeUm(ev);
    assert antes + [] == antes;
    if ev.Recv? {
      FramesConcat(antes, ev.dados);
      FramesConcat(c.buffer, ev.dados);
      SemQuadro(c.buffer);
      assert c.tratados + [] == c.tratados;
    }
  }

  lemma SemQuadro(fluxo: bytes)
    requires ExtrairFrameRIP(fluxo).1 == 0
    ensures Frames(fluxo) == [] && Sobra(fluxo) == fluxo
  {}

  lemma EnvioMantem(c: Conjunto, data: bytes, relogio: nat -> Instante)
    requires Inv(c, relogio) && Habilitado(c, Rede(Tcp.Send(data))) && Tcp.Inv(Tcp.Aplica(c.s, Tcp.Send(data)))
    ensures Inv(Aplica(c, Rede(Tcp.Send(data)), relogio), relogio)
  {
    hide ExtrairFrameRIP, Frames, Sobra, RespostasDe, Tcp.BytesDe, Tcp.InvEnvio, Tcp.InvRecepcao;
  }

  lemma OutrosNaoTocam(s: Tcp.Sessao, p: Tcp.Passo)
    requires Tcp.Habilitado(s, p) && !p.UsuarioLe? && !p.Send?
    ensures var s' := Tcp.Aplica(s, p);
            && s'.h.entregues == s.h.entregues && s'.h.enviados == s.h.enviados
            && (s'.usuario.Tratando? <==> s.usuario.Tratando? && !p.UsuarioVolta? && !p.Close?)
            && (s'.usuario.Tratando? ==> s'.usuario == s.usuario)
  {
    EntreguesIntactos(s, p);
    EnviadosIntactos(s, p);
    UsuarioIntacto(s, p);
    hide Tcp.Aplica, Tcp.Habilitado;
  }

  lemma EntreguesIntactos(s: Tcp.Sessao, p: Tcp.Passo)
    requires Tcp.Habilitado(s, p) && !p.UsuarioLe?
    ensures Tcp.Aplica(s, p).h.entregues == s.h.entregues
  {
    match p {
      case Le(_) =>
      case Escreve(_) =>
      case EscreveErro(_, _) =>
      case _ =>
    }
  }

  lemma EnviadosIntactos(s: Tcp.Sessao, p: Tcp.Passo)
    requires Tcp.Habilitado(s, p) && !p.Send?
    ensures Tcp.Aplica(s, p).h.enviados == s.h.enviados
  {
    match p {
      case Le(_) =>
      case Escreve(_) =>
      case EscreveErro(_, _) =>
      case _ =>
    }
  }

  lemma UsuarioIntacto(s: Tcp.Sessao, p: Tcp.Passo)
    requires Tcp.Habilitado(s, p) && !p.UsuarioLe?
    ensures s.usuario.Tratando? && !p.UsuarioVolta? && !p.Close? ==> Tcp.Aplica(s, p).usuario == s.usuario
    ensures !s.usuario.Tratando? || p.UsuarioVolta? || p.Close? ==> !Tcp.Aplica(s, p).usuario.Tratando?
  {}

  // ---------------------------------------------------------------- All runs

  predicate Possivel(c: Conjunto, ps: seq<Passo>, relogio: nat -> Instante)
    decreases |ps|
  {
    ps != [] ==> Habilitado(c, ps[0]) && Possivel(Aplica(c, ps[0], relogio), ps[1..], relogio)
  }

  function Roda(c: Conjunto, ps: seq<Passo>, relogio: nat -> Instante): Conjunto
    requires Possivel(c, ps, relogio)
    decreases |ps|
  {
    if ps == [] then c else Roda(Aplica(c, ps[0], relogio), ps[1..], relogio)
  }

  lemma {:induction false} InvDe(c: Conjunto, ps: seq<Passo>, relogio: nat -> Instante)
    requires Inv(c, relogio) && Possivel(c, ps, relogio)
    ensures Inv(Roda(c, ps, relogio), relogio)
    decreases |ps|
  {
    hide Aplica, Habilitado, Inv;
    if ps != [] {
      InvMantido(c, ps[0], relogio);
      InvDe(Aplica(c, ps[0], relogio), ps[1..], relogio);
    }
  }

  lemma {:induction false} RespostasCheias(ps: seq<PacoteRIP>, relogio: nat -> Instante)
    ensures Tcp.NenhumVazio(RespostasDe(ps, relogio))
  {
    if ps != [] {
      RespostasCheias(ps[..|ps| - 1], relogio);
    }
  }

  /** Answers are never empty, so the sending side is never shut down and the wire carries them from the first on. */
  lemma FioTrazRespostas(s: Tcp.Sessao, respostas: seq<bytes>)
    requires Tcp.InvEnvio(s) && s.h.enviados <= respostas && Tcp.NenhumVazio(respostas)
    ensures s.h.fio <= Concat(s.h.enviados) <= Concat(respostas)
    ensures !s.h.erro ==> s.h.fio + Tcp.EmMaos(s.tx) + Concat(s.to_send) == Concat(s.h.enviados)
  {
    hide Tcp.AteVazio;
    var n := |s.h.enviados|;
    PrefixoConcat(s.h.enviados, respostas);
    assert respostas[..n] == s.h.enviados;
    SoCheios(s.h.enviados);
    Tcp.FioEhPrefixo(s);
    if s.h.shutdown {
      ShutdownFoiPedido(s);
    }
    assert Tcp.NenhumVazio(s.to_send) by {
      assert forall i :: 0 <= i < |s.to_send| ==> s.to_send[i] == s.h.enviados[n - |s.to_send| + i];
    }
    SoCheios(s.to_send);
  }

  lemma ShutdownFoiPedido(s: Tcp.Sessao)
    requires Tcp.InvEnvio(s) && s.h.shutdown
    ensures !Tcp.NenhumVazio(s.h.enviados)
  {
    assert s.h.enviados[|s.h.tomados|] == [];
  }

  lemma SoCheios(ds: seq<bytes>)
    requires Tcp.NenhumVazio(ds)
    ensures Tcp.AteVazio(ds) == Concat(ds)
  {
    Tcp.AteVazioDepoisDe(ds, []);
    assert ds + [] == ds && Concat(ds) + [] == Concat(ds);
  }

  lemma {:induction false} PrefixoConcat(a: seq<bytes>, b: seq<bytes>)
    requires a <= b
    ensures Concat(a) <= Concat(b)
    decreases |b|
  {
    if |a| < |b| {
      PrefixoConcat(a, b[..|b| - 1]);
    } else {
      assert a == b;
    }
  }

  /**
   Every interleaving of the goroutines and the handler: the frames handled are
   the first frames of the bytes read from the connection, and the wire carries
   a prefix of one answer per frame in frame order.  Between two events, every
   frame of what was delivered has been handled and its answer handed over; and
   if no write failed, what is on the wire, in hand and queued is all of them.
   */
  lemma UmaRespostaPorQuadroNoFio(ps: seq<Passo>, relogio: nat -> Instante)
    requires Possivel(INICIAL, ps, relogio)
    ensures var c := Roda(INICIAL, ps, relogio);
            && c.tratados <= Frames(c.s.h.lidos)
            && c.s.h.fio <= Concat(RespostasDe(c.tratados, relogio))
            && (!c.s.usuario.Tratando? ==>
                  && c.tratados == Frames(Tcp.BytesDe(c.s.h.entregues))
                  && (!c.s.h.erro ==>
                        c.s.h.fio + Tcp.EmMaos(c.s.tx) + Concat(c.s.to_send)
                        == Concat(RespostasDe(c.tratados, relogio))))
  {
    hide Possivel, Roda, ExtrairFrameRIP, Frames, Sobra, Tcp.InvFases, Tcp.InvEnvio, RespostasDe, Tcp.BytesDe, Concat;
    InicialVale(relogio);
    InvDe(INICIAL, ps, relogio);
    var c := Roda(INICIAL, ps, relogio);
    RespostasCheias(c.tratados, relogio);
    FioTrazRespostas(c.s, c.respostas);
    var entregues := Tcp.BytesDe(c.s.h.entregues);
    FramesConcat(entregues, c.s.h.lidos[|entregues|..]);
    assert entregues + c.s.h.lidos[|entregues|..] == c.s.h.lidos;
    if !c.s.usuario.Tratando? {
      SemQuadro(c.buffer);
    }
  }

  lemma InicialVale(relogio: nat -> Instante)
    ensures Inv(INICIAL, relogio)
  {
    hide Tcp.BytesDe;
    assert Frames([]) == [] && Sobra([]) == [];
    Tcp.BytesDeUm(Tcp.Connected);
    Tcp.BytesDeNada();
  }
}
