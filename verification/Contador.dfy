/**
 The count of connected panels.  One goroutine accepts connections and posts
 each new session; the goroutine that closes a session posts its end; a single
 reader takes these events one at a time and counts.
 */
module Contador {

  /** A session as the server sees it: being announced, in use, its end being announced, over. */
  datatype Fase = PostandoNew | EmUso | PostandoClosed | Encerrada

  /** The reader's variables, and every call of the panel script in order. */
  datatype Receptor = Receptor(centrais_conectadas: int, cnc_alarme: bool, ganchos: seq<int>)

  datatype Sistema = Sistema(sessoes: map<nat, Fase>, r: Receptor)

  const INICIAL: Sistema := Sistema(map[], Receptor(0, false, []))

  datatype Passo =
    | Aceita(id: nat)          // the accept loop has a session and posts New
    | RecebeNew(id: nat)
    | Termina(id: nat)         // Close has ended and the session posts Closed
    | RecebeClosed(id: nat)
    | VerificaCentrais         // the hourly timer

  predicate NaFase(s: Sistema, id: nat, f: Fase) { id in s.sessoes && s.sessoes[id] == f }

  /** The Events channel has no buffer: a poster waits until the reader takes its event. */
  predicate Habilitado(s: Sistema, p: Passo) {
    match p
    case Aceita(id) => id !in s.sessoes && forall j :: j in s.sessoes ==> s.sessoes[j] != PostandoNew
    case RecebeNew(id) => NaFase(s, id, PostandoNew)
    case Termina(id) => NaFase(s, id, EmUso)
    case RecebeClosed(id) => NaFase(s, id, PostandoClosed)
    case VerificaCentrais => true
  }

  function Verifica(r: Receptor): Receptor {
    if r.centrais_conectadas <= 0 then
      if r.cnc_alarme then r else r.(cnc_alarme := true, ganchos := r.ganchos + [1])
    else
      if r.cnc_alarme then r.(cnc_alarme := false, ganchos := r.ganchos + [0]) else r
  }

  function Aplica(s: Sistema, p: Passo): Sistema {
    match p
    case Aceita(id) => s.(sessoes := s.sessoes[id := PostandoNew])
    case RecebeNew(id) =>
      s.(sessoes := s.sessoes[id := EmUso], r := s.r.(centrais_conectadas := s.r.centrais_conectadas + 1))
    case Termina(id) => s.(sessoes := s.sessoes[id := PostandoClosed])
    case RecebeClosed(id) =>
      s.(sessoes := s.sessoes[id := Encerrada], r := s.r.(centrais_conectadas := s.r.centrais_conectadas - 1))
    case VerificaCentrais => s.(r := Verifica(s.r))
  }

  /** Sessions whose start was counted and whose end was not. */
  function Conectadas(s: Sistema): set<nat> {
    set id | id in s.sessoes && (s.sessoes[id] == EmUso || s.sessoes[id] == PostandoClosed)
  }

  /** The script is told 1, 0, 1, 0, ... */
  predicate Alternados(ganchos: seq<int>) {
    forall i :: 0 <= i < |ganchos| ==> ganchos[i] == if i % 2 == 0 then 1 else 0
  }

  predicate Inv(s: Sistema) {
    && s.r.centrais_conectadas == |Conectadas(s)|
    && Alternados(s.r.ganchos)
    && (s.r.cnc_alarme <==> |s.r.ganchos| % 2 == 1)
  }

  /** The hourly check keeps the turn, and leaves the script told of what it found. */
  lemma VerificaAlterna(r: Receptor)
    requires Alternados(r.ganchos) && (r.cnc_alarme <==> |r.ganchos| % 2 == 1)
    ensures var v := Verifica(r);
            && Alternados(v.ganchos) && (v.cnc_alarme <==> |v.ganchos| % 2 == 1)
            && (v.cnc_alarme <==> r.centrais_conectadas <= 0)
  {
    var v := Verifica(r);
    assert v.ganchos == r.ganchos || v.ganchos == r.ganchos + [if |r.ganchos| % 2 == 0 then 1 else 0];
  }

  lemma ConectadasDepois(s: Sistema, p: Passo)
    requires Habilitado(s, p)
    ensures Conectadas(Aplica(s, p))
         == match p
            case RecebeNew(id) => Conectadas(s) + {id}
            case RecebeClosed(id) => Conectadas(s) - {id}
            case _ => Conectadas(s)
  {
  }

  lemma InvMantido(s: Sistema, p: Passo)
    requires Inv(s) && Habilitado(s, p)
    ensures Inv(Aplica(s, p))
  {
    ConectadasDepois(s, p);
    match p {
      case RecebeNew(id) => assert id !in Conectadas(s);
      case RecebeClosed(id) => assert id in Conectadas(s);
      case VerificaCentrais =>
        VerificaAlterna(s.r);
      case _ =>
    }
  }

  predicate Possivel(s: Sistema, ps: seq<Passo>)
    decreases |ps|
  {
    ps != [] ==> Habilitado(s, ps[0]) && Possivel(Aplica(s, ps[0]), ps[1..])
  }

  function Roda(s: Sistema, ps: seq<Passo>): Sistema
    decreases |ps|
  {
    if ps == [] then s else Roda(Aplica(s, ps[0]), ps[1..])
  }

  lemma {:induction false} InvDe(s: Sistema, ps: seq<Passo>)
    requires Inv(s) && Possivel(s, ps)
    ensures Inv(Roda(s, ps))
    decreases |ps|
  {
    hide Aplica, Habilitado, Inv;
    if ps != [] {
      InvMantido(s, ps[0]);
      InvDe(Aplica(s, ps[0]), ps[1..]);
    }
  }

  /**
   Under every interleaving of the posters the count is the number of sessions
   started and not ended, never negative; the script hears 1 and 0 in strict
   turn, starting with 1; and after each hourly check what it last heard is 1
   exactly when no session is connected, unless it never had anything to hear.
   */
  lemma ContagemExata(ps: seq<Passo>)
    requires Possivel(INICIAL, ps)
    ensures var s := Roda(INICIAL, ps);
            && s.r.centrais_conectadas == |Conectadas(s)| >= 0
            && Alternados(s.r.ganchos)
            && var v := Verifica(s.r);
               && Alternados(v.ganchos)
               && (v.ganchos != [] ==> (v.ganchos[|v.ganchos| - 1] == 1 <==> Conectadas(s) == {}))
               && (v.ganchos == [] ==> Conectadas(s) != {})
  {
    hide Possivel, Roda;
    assert Conectadas(INICIAL) == {};
    InvDe(INICIAL, ps);
    VerificaAlterna(Roda(INICIAL, ps).r);
  }

  class ReceptorIP {
    var centrais_conectadas: int
    var cnc_alarme: bool
    var ganchos: seq<int>

    function Est(): Receptor
      reads this
    {
      Receptor(centrais_conectadas, cnc_alarme, ganchos)
    }

    constructor ()
      ensures Est() == INICIAL.r
    {
      centrais_conectadas, cnc_alarme, ganchos := 0, false, [];
    }

    method New(ghost s: Sistema, ghost id: nat)
      requires Est() == s.r && Habilitado(s, RecebeNew(id))
      modifies `centrais_conectadas
      ensures Est() == Aplica(s, RecebeNew(id)).r
    {
      centrais_conectadas := centrais_conectadas + 1;
    }

    method Closed(ghost s: Sistema, ghost id: nat)
      requires Est() == s.r && Habilitado(s, RecebeClosed(id))
      modifies `centrais_conectadas
      ensures Est() == Aplica(s, RecebeClosed(id)).r
    {
      centrais_conectadas := centrais_conectadas - 1;
    }

    method CentralNaoConectada()
      modifies `cnc_alarme, `ganchos
      ensures Est() == Verifica(old(Est()))
    {
      if centrais_conectadas <= 0 {
        if !cnc_alarme {
          cnc_alarme := true;
          ganchos := ganchos + [1];
        }
      } else {
        if cnc_alarme {
          cnc_alarme := false;
          ganchos := ganchos + [0];
        }
      }
    }
  }
}
