/**
 The queue of photos to download: first in, first out, one download at a time,
 up to ten attempts each.  Times are seconds.
 */
module FilaFotos {
  import Octetos
  import Protocolo
  import SessaoFoto

  const TENTATIVAS: nat := 10
  const ESPERA: real := 20.0
  const ESPERA_IMEDIATA: real := 0.1
  const DURACAO_MAXIMA: real := 3870.0     // of one download

  datatype Foto = Foto(ip: string, indice: nat, nrfoto: nat)

  datatype Item = Item(foto: Foto, restantes: int)

  /** The retry timer: none, pending, or fired while its object is kept for restarting. */
  datatype Tarefa = SemTarefa | Pendente(prazo: real, relativo: real) | Disparada(relativo: real)

  datatype Voo = Voo(foto: Foto, inicio: real)

  datatype Desfecho = Obtida | ErroFatal | Esgotada

  /** A photo that left the queue, the file that its last session reported, and the statuses of all its sessions. */
  datatype Resolvida = Resolvida(foto: Foto, desfecho: Desfecho, sessoes: int, arquivo: Arquivo, relatos: seq<int>)

  type Arquivo = Octetos.Option<Octetos.bytes>

  datatype Historia = Historia(
    enfileiradas: seq<Foto>,      // every photo accepted into the queue
    resolvidas: seq<Resolvida>,   // every photo that left it
    sessoes: nat,                 // downloads started
    relatos: seq<int>)            // statuses reported so far for the first photo of the queue

  /** An exception marks what the program does not survive: a result for an empty queue, a timer that is not there. */
  datatype Fila = Fila(fila: seq<Item>, task: Tarefa, voos: seq<Voo>, excecao: bool, h: Historia)

  const VAZIA: Fila := Fila([], SemTarefa, [], false, Historia([], [], 0, []))

  function Enfileira(f: Fila, tamSenha: int, foto: Foto, t: real): Fila {
    if tamSenha <= 0 then f
    else f.(fila := f.fila + [Item(foto, TENTATIVAS)],
            task := if f.task == SemTarefa then Pendente(t + ESPERA, ESPERA) else f.task,
            h := f.h.(enfileiradas := f.h.enfileiradas + [foto]))
  }

  function Imediato(f: Fila, t: real): Fila {
    if f.task == SemTarefa then f.(excecao := true) else f.(task := Pendente(t + ESPERA_IMEDIATA, ESPERA_IMEDIATA))
  }

  function Dispara(f: Fila, t: real): Fila {
    if !f.task.Pendente? then f
    else if f.fila == [] then f.(task := SemTarefa)
    else f.(task := Disparada(f.task.relativo), voos := f.voos + [Voo(f.fila[0].foto, t)],
            h := f.h.(sessoes := f.h.sessoes + 1))
  }

  function RetiraPrimeiro(f: Fila, d: Desfecho, arquivo: Arquivo): Fila
    requires f.fila != []
  {
    var r := Resolvida(f.fila[0].foto, d, TENTATIVAS - f.fila[0].restantes + 1, arquivo, f.h.relatos);
    f.(fila := f.fila[1..], h := f.h.(resolvidas := f.h.resolvidas + [r], relatos := []))
  }

  function Reinicia(f: Fila, t: real): Fila {
    if f.task == SemTarefa then f.(excecao := true) else f.(task := Pendente(t + f.task.relativo, f.task.relativo))
  }

  /** What the status of a session does to the first photo: out, or one attempt less. */
  function Contabiliza(f: Fila, status: int, arquivo: Arquivo): Fila
    requires f.fila != []
  {
    var f1 := f.(h := f.h.(relatos := f.h.relatos + [status]));
    if status == 0 then RetiraPrimeiro(f1, Obtida, arquivo)
    else if status == 2 then RetiraPrimeiro(f1, ErroFatal, arquivo)
    else if f.fila[0].restantes - 1 <= 0 then RetiraPrimeiro(f1, Esgotada, arquivo)
    else f1.(fila := [f.fila[0].(restantes := f.fila[0].restantes - 1)] + f.fila[1..])
  }

  /** A download, the i-th in flight, ends and reports its status and its file. */
  function Resulta(f: Fila, i: nat, status: int, arquivo: Arquivo, t: real): Fila {
    if i >= |f.voos| then f
    else if f.fila == [] then f.(excecao := true)
    else Reinicia(Contabiliza(f.(voos := f.voos[..i] + f.voos[i + 1..]), status, arquivo), t)
  }

  // -------------------------------------------------------------- Invariants

  function Fotos(itens: seq<Item>): (fs: seq<Foto>)
    ensures |fs| == |itens|
    ensures forall i :: 0 <= i < |itens| ==> fs[i] == itens[i].foto
  {
    seq(|itens|, i requires 0 <= i < |itens| => itens[i].foto)
  }

  function FotosResolvidas(rs: seq<Resolvida>): (fs: seq<Foto>)
    ensures |fs| == |rs|
    ensures forall i :: 0 <= i < |rs| ==> fs[i] == rs[i].foto
  {
    seq(|rs|, i requires 0 <= i < |rs| => rs[i].foto)
  }

  function TotalDeSessoes(rs: seq<Resolvida>): int {
    if rs == [] then 0 else TotalDeSessoes(rs[..|rs| - 1]) + rs[|rs| - 1].sessoes
  }

  /** Idle, or waiting for the timer, or exactly one download in flight, and then for the first photo of the queue. */
  predicate UmaCoisaSo(f: Fila) {
    && !f.excecao
    && match f.task
    case SemTarefa => f.fila == [] && f.voos == []
    case Pendente(_, _) => f.voos == []
    case Disparada(_) => f.fila != [] && |f.voos| == 1 && f.voos[0].foto == f.fila[0].foto
  }

  predicate ResolucaoValida(r: Resolvida) {
    1 <= r.sessoes <= TENTATIVAS && (r.desfecho == Esgotada ==> r.sessoes == TENTATIVAS)
  }

  /** The books balance: photos in and out, attempts used, and sessions started, so many of them still open. */
  predicate Contas(f: Fila, abertas: nat) {
    && (forall i :: 0 <= i < |f.fila| ==> 1 <= f.fila[i].restantes <= TENTATIVAS)
    && (forall i :: 1 <= i < |f.fila| ==> f.fila[i].restantes == TENTATIVAS)
    && f.h.enfileiradas == FotosResolvidas(f.h.resolvidas) + Fotos(f.fila)
    && (forall i :: 0 <= i < |f.h.resolvidas| ==> ResolucaoValida(f.h.resolvidas[i]))
    && f.h.sessoes ==
       TotalDeSessoes(f.h.resolvidas) + (if f.fila == [] then 0 else TENTATIVAS - f.fila[0].restantes) + abertas
  }

  predicate Inv(f: Fila) { UmaCoisaSo(f) && Contas(f, |f.voos|) }

  datatype Evento =
    | EvEnfileira(tamSenha: int, foto: Foto)
    | EvImediato
    | EvDispara
    | EvResultado(i: nat, status: int, arquivo: Arquivo)

  datatype Ocorrencia = Ocorrencia(evento: Evento, t: real)

  predicate Habilitada(f: Fila, o: Ocorrencia) {
    && !f.excecao
    && match o.evento
       case EvEnfileira(_, _) => true
       case EvImediato => true
       case EvDispara => f.task.Pendente? && o.t >= f.task.prazo
       case EvResultado(i, _, _) => i < |f.voos|
  }

  function Passo(f: Fila, o: Ocorrencia): Fila {
    match o.evento
    case EvEnfileira(tam, foto) => Enfileira(f, tam, foto, o.t)
    case EvImediato => Imediato(f, o.t)
    case EvDispara => Dispara(f, o.t)
    case EvResultado(i, status, arquivo) => Resulta(f, i, status, arquivo, o.t)
  }

  /** Nothing asks for an immediate attempt unless the timer is pending: the code does not check. */
  predicate Segura(f: Fila, o: Ocorrencia) { o.evento.EvImediato? ==> f.task.Pendente? }

  lemma InvMantido(f: Fila, o: Ocorrencia)
    requires Inv(f) && Habilitada(f, o)
    ensures Inv(Passo(f, o)) <==> Segura(f, o)
  {
    match o.evento {
      case EvEnfileira(tam, foto) => EnfileiraMantem(f, tam, foto, o.t);
      case EvImediato => ImediatoSse(f, o.t);
      case EvDispara =>
      case EvResultado(i, status, arquivo) => ResultaMantem(f, i, status, arquivo, o.t);
    }
  }

  lemma EnfileiraMantem(f: Fila, tam: int, foto: Foto, t: real)
    requires Inv(f)
    ensures Inv(Enfileira(f, tam, foto, t))
  {
    hide TotalDeSessoes;
    if tam > 0 {
      assert Fotos(f.fila + [Item(foto, TENTATIVAS)]) == Fotos(f.fila) + [foto];
    }
  }

  lemma ResultaMantem(f: Fila, i: nat, status: int, arquivo: Arquivo, t: real)
    requires Inv(f) && i < |f.voos|
    ensures Inv(Resulta(f, i, status, arquivo, t))
  {
    hide TotalDeSessoes, Contas;
    var f1 := f.(voos := f.voos[..i] + f.voos[i + 1..], h := f.h.(relatos := f.h.relatos + [status]));
    assert Contas(f1, 1) && PrimeiroRestante(f1) by { ContasDoVoo(f, f1); }
    if status == 0 {
      RetiraMantem(f1, Obtida, arquivo);
    } else if status == 2 {
      RetiraMantem(f1, ErroFatal, arquivo);
    } else if f.fila[0].restantes - 1 <= 0 {
      RetiraMantem(f1, Esgotada, arquivo);
    } else {
      DescontaMantem(f1);
    }
    ContasSoDaFila(Resulta(f, i, status, arquivo, t));
  }

  predicate PrimeiroRestante(f: Fila) { f.fila != [] && 1 <= f.fila[0].restantes <= TENTATIVAS }

  lemma ContasDoVoo(f: Fila, f1: Fila)
    requires Inv(f) && |f.voos| == 1 && f1 == f.(voos := f1.voos, h := f.h.(relatos := f1.h.relatos))
    ensures Contas(f1, 1) && PrimeiroRestante(f1)
  {
    hide TotalDeSessoes;
  }

  lemma ContasSoDaFila(f: Fila)
    ensures forall task, n :: Contas(f.(task := task), n) == Contas(f, n)
  {
    hide TotalDeSessoes;
  }

  lemma RetiraMantem(f: Fila, d: Desfecho, arquivo: Arquivo)
    requires Contas(f, 1) && f.fila != [] && (d == Esgotada ==> f.fila[0].restantes == 1)
    ensures Contas(RetiraPrimeiro(f, d, arquivo), 0)
  {
    hide TotalDeSessoes, Fotos, FotosResolvidas;
    var r := Resolvida(f.fila[0].foto, d, TENTATIVAS - f.fila[0].restantes + 1, arquivo, f.h.relatos);
    assert ResolucaoValida(r);
    MaisUmaResolvida(f.h.resolvidas, r);
    FilaAnda(f.h.resolvidas, f.fila, r);
  }

  lemma MaisUmaResolvida(rs: seq<Resolvida>, r: Resolvida)
    ensures TotalDeSessoes(rs + [r]) == TotalDeSessoes(rs) + r.sessoes
  {
    assert (rs + [r])[..|rs|] == rs;
  }

  lemma FilaAnda(rs: seq<Resolvida>, fila: seq<Item>, r: Resolvida)
    requires fila != [] && r.foto == fila[0].foto
    ensures FotosResolvidas(rs + [r]) + Fotos(fila[1..]) == FotosResolvidas(rs) + Fotos(fila)
  {}

  lemma DescontaMantem(f: Fila)
    requires Contas(f, 1) && f.fila != [] && f.fila[0].restantes > 1
    ensures Contas(f.(fila := [f.fila[0].(restantes := f.fila[0].restantes - 1)] + f.fila[1..]), 0)
  {
    hide TotalDeSessoes;
    var f' := f.(fila := [f.fila[0].(restantes := f.fila[0].restantes - 1)] + f.fila[1..]);
    assert Fotos(f'.fila) == Fotos(f.fila);
  }

  /** What each status of the download in flight does to the queue, and when the next attempt can be made. */
  lemma EfeitoDoResultado(f: Fila, status: int, arquivo: Arquivo, t: real)
    requires Inv(f) && f.voos != []
    ensures var (f', item) := (Resulta(f, 0, status, arquivo, t), f.fila[0]);
            var sai := status == 0 || status == 2 || item.restantes == 1;
            && f'.voos == [] && f'.task == Pendente(t + f.task.relativo, f.task.relativo)
            && f'.fila == (if sai then f.fila[1..]
                           else [Item(item.foto, item.restantes - 1)] + f.fila[1..])
            && |f'.h.resolvidas| == |f.h.resolvidas| + (if sai then 1 else 0)
            && f'.h.resolvidas[..|f.h.resolvidas|] == f.h.resolvidas
            && (sai ==>
                  var r := f'.h.resolvidas[|f.h.resolvidas|];
                  && r.foto == item.foto && r.arquivo == arquivo
                  && (r.desfecho == Obtida <==> status == 0) && (r.desfecho == ErroFatal <==> status == 2))
            && forall x :: Habilitada(f', Ocorrencia(EvDispara, x)) <==> x >= t + f.task.relativo
  {
    hide Contas;
    assert f.fila[0].restantes >= 1 by { ContasDoVoo(f, f); }
  }

  /** A photo enters an idle queue with ten attempts, the first of them 20 s later, or 0.1 s after it is hurried. */
  lemma PrimeiraTentativa(foto: Foto, tam: int, t: real, x: real)
    requires tam > 0
    ensures var f := Enfileira(VAZIA, tam, foto, t);
            && f.fila == [Item(foto, 10)]
            && (Habilitada(f, Ocorrencia(EvDispara, x)) <==> x >= t + 20.0)
            && (Habilitada(Imediato(f, t), Ocorrencia(EvDispara, x)) <==> x >= t + 0.1)
            && Dispara(f, x).voos == [Voo(foto, x)]
  {}

  /** Asking for an immediate attempt keeps the invariant exactly when the timer is pending. */
  lemma ImediatoSse(f: Fila, t: real)
    requires Inv(f)
    ensures Inv(Imediato(f, t)) <==> f.task.Pendente?
  {}

  /** The photo command queues and at once asks for an immediate attempt: an error exactly when it got no password. */
  lemma ComandoFalhaSse(tam: int, foto: Foto, t: real, t': real)
    ensures Imediato(Enfileira(VAZIA, tam, foto, t), t').excecao <==> tam <= 0
    ensures Inv(Imediato(Enfileira(VAZIA, tam, foto, t), t')) <==> tam > 0
  {
    EnfileiraMantem(VAZIA, tam, foto, t);
    ImediatoSse(Enfileira(VAZIA, tam, foto, t), t');
  }

  /** Asked for during a download, it starts a second download of the same photo, and two results for one entry. */
  lemma ImediatoDuplica(f: Fila, t: real)
    requires Inv(f) && f.task.Disparada?
    ensures var o := Ocorrencia(EvDispara, t + ESPERA_IMEDIATA);
            && Habilitada(f, Ocorrencia(EvImediato, t)) && Habilitada(Imediato(f, t), o)
            && var f' := Passo(Imediato(f, t), o);
               f'.voos == [f.voos[0], Voo(f.voos[0].foto, o.t)]
  {}

  // ---------------------------------------------------------------- All runs

  predicate Possivel(f: Fila, os: seq<Ocorrencia>)
    decreases |os|
  {
    os != [] ==> Habilitada(f, os[0]) && Possivel(Passo(f, os[0]), os[1..])
  }

  function Roda(f: Fila, os: seq<Ocorrencia>): Fila
    decreases |os|
  {
    if os == [] then f else Roda(Passo(f, os[0]), os[1..])
  }

  /** The invariant holds in every state of the run. */
  predicate SempreInv(f: Fila, os: seq<Ocorrencia>)
    decreases |os|
  {
    Inv(f) && (os != [] ==> SempreInv(Passo(f, os[0]), os[1..]))
  }

  predicate SempreSegura(f: Fila, os: seq<Ocorrencia>)
    decreases |os|
  {
    os != [] ==> Segura(f, os[0]) && SempreSegura(Passo(f, os[0]), os[1..])
  }

  /** In any run the invariant is never broken exactly when immediate attempts find the timer pending. */
  lemma {:induction false} TodaCorrida(f: Fila, os: seq<Ocorrencia>)
    requires Inv(f) && Possivel(f, os)
    ensures SempreInv(f, os) <==> SempreSegura(f, os)
    ensures SempreSegura(f, os) ==> Inv(Roda(f, os))
    decreases |os|
  {
    hide Inv, Passo, Segura;
    if os != [] {
      InvMantido(f, os[0]);
      if Segura(f, os[0]) {
        TodaCorrida(Passo(f, os[0]), os[1..]);
      }
    }
  }

  /**
   Every run, from the empty queue: photos leave in the order they entered, each
   once, after 1 to 10 sessions, and after all ten unless one of them settled it;
   no session goes to waste; and at any moment the queue is idle, waiting, or
   has one download in flight, for its first photo.
   */
  lemma CadaFotoUmaVez(os: seq<Ocorrencia>)
    requires Possivel(VAZIA, os) && SempreSegura(VAZIA, os)
    ensures var f := Roda(VAZIA, os);
            && UmaCoisaSo(f)
            && f.h.enfileiradas == FotosResolvidas(f.h.resolvidas) + Fotos(f.fila)
            && (forall i :: 0 <= i < |f.h.resolvidas| ==> ResolucaoValida(f.h.resolvidas[i]))
            && f.h.sessoes - |f.voos| ==
               TotalDeSessoes(f.h.resolvidas) + if f.fila == [] then 0 else TENTATIVAS - f.fila[0].restantes
  {
    hide Possivel, Roda, SempreSegura, SempreInv;
    TodaCorrida(VAZIA, os);
  }

  /** Statuses after which a photo stays in the queue. */
  predicate Temporarios(relatos: seq<int>) {
    forall i :: 0 <= i < |relatos| ==> relatos[i] != 0 && relatos[i] != 2
  }

  /** A photo leaves on its first 0 or 2, which decide its outcome, and otherwise on its tenth status. */
  predicate DesfechoDevido(r: Resolvida) {
    && 1 <= |r.relatos| == r.sessoes <= 10
    && Temporarios(r.relatos[..|r.relatos| - 1])
    && var ultimo := r.relatos[|r.relatos| - 1];
       && (r.desfecho == Obtida <==> ultimo == 0)
       && (r.desfecho == ErroFatal <==> ultimo == 2)
       && (r.desfecho == Esgotada <==> |r.relatos| == 10 && Temporarios(r.relatos))
  }

  predicate InvRelatos(f: Fila) {
    && |f.h.relatos| == (if f.fila == [] then 0 else TENTATIVAS - f.fila[0].restantes)
    && Temporarios(f.h.relatos)
    && forall i :: 0 <= i < |f.h.resolvidas| ==> DesfechoDevido(f.h.resolvidas[i])
  }

  lemma RelatosMantidos(f: Fila, o: Ocorrencia)
    requires Inv(f) && InvRelatos(f) && Habilitada(f, o) && Segura(f, o)
    ensures InvRelatos(Passo(f, o))
  {
    hide Contas, DesfechoDevido;
    if o.evento.EvResultado? {
      RelatosDoResultado(f, o.evento.status, o.evento.arquivo, o.t);
    }
  }

  lemma RelatosDoResultado(f: Fila, status: int, arquivo: Arquivo, t: real)
    requires Inv(f) && InvRelatos(f) && f.voos != []
    ensures InvRelatos(Resulta(f, 0, status, arquivo, t))
  {
    hide Inv, InvRelatos, RetiraPrimeiro;
    PrimeirosItens(f);
    var f1 := f.(voos := f.voos[..0] + f.voos[1..], h := f.h.(relatos := f.h.relatos + [status]));
    if status == 0 {
      RelatosDaSaida(f, f1, status, Obtida, arquivo);
    } else if status == 2 {
      RelatosDaSaida(f, f1, status, ErroFatal, arquivo);
    } else if f.fila[0].restantes - 1 <= 0 {
      RelatosDaSaida(f, f1, status, Esgotada, arquivo);
    } else {
      RelatoTemporario(f, f1, status);
    }
    RelatosSoDaConta(Contabiliza(f.(voos := f1.voos), status, arquivo), Resulta(f, 0, status, arquivo, t));
  }

  lemma RelatosSoDaConta(f1: Fila, f2: Fila)
    requires InvRelatos(f1) && f2 == f1.(task := f2.task, excecao := f2.excecao)
    ensures InvRelatos(f2)
  {}

  lemma RelatosDaSaida(f: Fila, f1: Fila, status: int, d: Desfecho, arquivo: Arquivo)
    requires InvRelatos(f) && f.fila != [] && 1 <= f.fila[0].restantes <= TENTATIVAS
    requires |f.fila| > 1 ==> f.fila[1].restantes == TENTATIVAS
    requires f1 == f.(voos := f1.voos, h := f.h.(relatos := f.h.relatos + [status]))
    requires d == if status == 0 then Obtida else if status == 2 then ErroFatal else Esgotada
    requires d == Esgotada ==> f.fila[0].restantes == 1
    ensures InvRelatos(RetiraPrimeiro(f1, d, arquivo))
  {
    hide DesfechoDevido;
    var r := Resolvida(f.fila[0].foto, d, TENTATIVAS - f.fila[0].restantes + 1, arquivo, f1.h.relatos);
    RelatosCompletos(f, r, status);
  }

  lemma RelatoTemporario(f: Fila, f1: Fila, status: int)
    requires InvRelatos(f) && f.fila != [] && status != 0 && status != 2
    requires f1 == f.(voos := f1.voos, h := f.h.(relatos := f.h.relatos + [status]))
    ensures InvRelatos(f1.(fila := [f.fila[0].(restantes := f.fila[0].restantes - 1)] + f.fila[1..]))
  {
    hide DesfechoDevido;
  }

  lemma PrimeirosItens(f: Fila)
    requires Inv(f) && (f.fila != [] || f.voos != [])
    ensures f.fila != [] && f.task.Disparada? == (f.voos != [])
    ensures 1 <= f.fila[0].restantes <= TENTATIVAS
    ensures |f.fila| > 1 ==> f.fila[1].restantes == TENTATIVAS
  {}

  lemma RelatosCompletos(f: Fila, r: Resolvida, status: int)
    requires f.fila != [] && 1 <= f.fila[0].restantes <= TENTATIVAS && InvRelatos(f)
    requires r.relatos == f.h.relatos + [status] && r.sessoes == TENTATIVAS - f.fila[0].restantes + 1
    requires r.desfecho == if status == 0 then Obtida else if status == 2 then ErroFatal else Esgotada
    requires r.desfecho == Esgotada ==> f.fila[0].restantes == 1
    ensures DesfechoDevido(r)
  {
    assert r.relatos[..|r.relatos| - 1] == f.h.relatos;
    assert forall i :: 0 <= i < |f.h.relatos| ==> r.relatos[i] == f.h.relatos[i];
  }

  lemma {:induction false} RelatosDe(f: Fila, os: seq<Ocorrencia>)
    requires Inv(f) && InvRelatos(f) && Possivel(f, os) && SempreSegura(f, os)
    ensures InvRelatos(Roda(f, os))
    decreases |os|
  {
    hide Inv, InvRelatos, Passo, Segura;
    if os != [] {
      InvMantido(f, os[0]);
      RelatosMantidos(f, os[0]);
      RelatosDe(Passo(f, os[0]), os[1..]);
    }
  }

  /**
   In every run each photo's outcome is the one its sessions reported: obtained
   if and only if the last of them succeeded, given up as fatal if and only if the
   last was fatal, and as exhausted if and only if there were ten and none was
   either.
   */
  lemma DesfechoDeCadaFoto(os: seq<Ocorrencia>)
    requires Possivel(VAZIA, os) && SempreSegura(VAZIA, os)
    ensures var f := Roda(VAZIA, os);
            forall i :: 0 <= i < |f.h.resolvidas| ==> DesfechoDevido(f.h.resolvidas[i])
  {
    hide Possivel, Roda, SempreSegura;
    RelatosDe(VAZIA, os);
  }

  /** Attempts left in the whole queue. */
  function Restantes(itens: seq<Item>): int {
    if itens == [] then 0 else itens[0].restantes + Restantes(itens[1..])
  }

  lemma {:induction false} RestantesLimitados(itens: seq<Item>)
    requires forall i :: 0 <= i < |itens| ==> 1 <= itens[i].restantes <= TENTATIVAS
    ensures |itens| <= Restantes(itens) <= TENTATIVAS * |itens|
  {
    if itens != [] {
      RestantesLimitados(itens[1..]);
    }
  }

  /** Each result uses up at least one attempt. */
  lemma ResultadoGasta(f: Fila, i: nat, status: int, arquivo: Arquivo, t: real)
    requires Inv(f) && i < |f.voos|
    ensures Restantes(Resulta(f, i, status, arquivo, t).fila) <= Restantes(f.fila) - 1
  {
    hide Contas;
    assert f.fila[0].restantes >= 1 by { ContasDoVoo(f, f); }
    var f' := Resulta(f, i, status, arquivo, t);
    if f'.fila != f.fila[1..] {
      assert f'.fila[1..] == f.fila[1..];
    }
  }

  // ----------------------------------------------------------------- Deadline

  /** On-time firing, and downloads no longer than a session lasts. */
  predicate NoPrazo(f: Fila, o: Ocorrencia) {
    && (f.task.Pendente? ==> o.t <= f.task.prazo)
    && (forall v :: v in f.voos ==> o.t <= v.inicio + DURACAO_MAXIMA)
  }

  /** When the attempts left for the first n photos will all have been made, at the latest. */
  function Limite(f: Fila, n: nat): real
    requires UmaCoisaSo(f) && f.task != SemTarefa && n <= |f.fila|
  {
    Inicio(f) + DURACAO_MAXIMA + Demais(f.fila[..n])
  }

  /** When the attempt at hand starts. */
  function Inicio(f: Fila): real
    requires UmaCoisaSo(f) && f.task != SemTarefa
  {
    if f.task.Pendente? then f.task.prazo else f.voos[0].inicio
  }

  /** How long all the attempts after it can take. */
  function Demais(itens: seq<Item>): real { (Restantes(itens) - 1) as real * (ESPERA + DURACAO_MAXIMA) }

  /** The delay between attempts is never longer than the default. */
  predicate EsperaNormal(f: Fila) { f.task != SemTarefa ==> f.task.relativo <= ESPERA }

  /** What an event adds to the limit: only an immediate attempt, asked for at the last moment, adds its delay. */
  function Atraso(o: Ocorrencia): real { if o.evento.EvImediato? then ESPERA_IMEDIATA else 0.0 }

  /** How many photos an event resolves. */
  function Resolveu(f: Fila, o: Ocorrencia): int { |Passo(f, o).h.resolvidas| - |f.h.resolvidas| }

  lemma LimiteNaoCresce(f: Fila, o: Ocorrencia, n: nat)
    requires Inv(f) && EsperaNormal(f) && 1 <= n <= |f.fila|
    requires Habilitada(f, o) && Segura(f, o) && NoPrazo(f, o)
    ensures o.t <= Limite(f, n)
    ensures var (f', r) := (Passo(f, o), Resolveu(f, o));
            && Inv(f') && EsperaNormal(f') && 0 <= r <= 1
            && (r < n ==> n - r <= |f'.fila| && f'.task != SemTarefa && Limite(f', n - r) <= Limite(f, n) + Atraso(o))
  {
    hide Contas, Restantes, Limite;
    InvMantido(f, o);
    AteOLimite(f, o, n);
    match o.evento {
      case EvResultado(i, status, arquivo) => LimiteDoResultado(f, i, status, arquivo, o.t, n);
      case _ => LimiteDosOutros(f, o, n);
    }
  }

  lemma AteOLimite(f: Fila, o: Ocorrencia, n: nat)
    requires Inv(f) && 1 <= n <= |f.fila| && NoPrazo(f, o)
    ensures o.t <= Limite(f, n)
  {
    hide Contas, Restantes;
    RestantesDaFrente(f, n);
    assert f.task.Disparada? ==> f.voos[0] in f.voos;
  }

  lemma LimiteDosOutros(f: Fila, o: Ocorrencia, n: nat)
    requires Inv(f) && EsperaNormal(f) && 1 <= n <= |f.fila|
    requires Habilitada(f, o) && Segura(f, o) && NoPrazo(f, o) && !o.evento.EvResultado?
    ensures var f' := Passo(f, o);
            && UmaCoisaSo(f') && EsperaNormal(f') && Resolveu(f, o) == 0
            && n <= |f'.fila| && f'.task != SemTarefa && Limite(f', n) <= Limite(f, n) + Atraso(o)
  {
    hide Contas, Demais;
    if o.evento.EvEnfileira? {
      LimiteDoEnfileira(f, o.evento.tamSenha, o.evento.foto, o.t, n);
    } else {
      assert Passo(f, o).fila == f.fila;
    }
  }

  lemma LimiteDoEnfileira(f: Fila, tam: int, foto: Foto, t: real, n: nat)
    requires UmaCoisaSo(f) && EsperaNormal(f) && 1 <= n <= |f.fila|
    ensures var f' := Enfileira(f, tam, foto, t);
            && UmaCoisaSo(f') && EsperaNormal(f') && f'.h.resolvidas == f.h.resolvidas
            && n <= |f'.fila| && f'.task != SemTarefa && Limite(f', n) == Limite(f, n)
  {
    hide Demais;
    assert (f.fila + [Item(foto, TENTATIVAS)])[..n] == f.fila[..n];
  }

  /** A result uses up an attempt of the first photo, or all that it had left. */
  lemma LimiteDoResultado(f: Fila, i: nat, status: int, arquivo: Arquivo, t: real, n: nat)
    requires Inv(f) && EsperaNormal(f) && 1 <= n <= |f.fila| && i < |f.voos|
    requires forall v :: v in f.voos ==> t <= v.inicio + DURACAO_MAXIMA
    ensures var f' := Resulta(f, i, status, arquivo, t);
            var r := |f'.h.resolvidas| - |f.h.resolvidas|;
            && UmaCoisaSo(f') && EsperaNormal(f') && 0 <= r <= 1
            && (r < n ==> n - r <= |f'.fila| && f'.task != SemTarefa && Limite(f', n - r) <= Limite(f, n))
  {
    hide Contas, Resulta, Demais;
    ResultaMantem(f, i, status, arquivo, t);
    EfeitoDoResultado(f, status, arquivo, t);
    PrimeirosItens(f);
    var f' := Resulta(f, 0, status, arquivo, t);
    var r := |f'.h.resolvidas| - |f.h.resolvidas|;
    if r < n {
      FrenteDepois(f.fila, f'.fila, n, r);
      DemaisCai(f'.fila[..n - r], f.fila[..n]);
    }
  }

  lemma DemaisCai(depois: seq<Item>, antes: seq<Item>)
    requires Restantes(depois) <= Restantes(antes) - 1
    ensures Demais(depois) + ESPERA + DURACAO_MAXIMA <= Demais(antes)
  {}

  lemma FrenteDepois(antes: seq<Item>, depois: seq<Item>, n: nat, r: nat)
    requires r <= 1 && r < n <= |antes| && antes[0].restantes >= 1
    requires depois == if r == 1 then antes[1..] else [Item(antes[0].foto, antes[0].restantes - 1)] + antes[1..]
    ensures Restantes(depois[..n - r]) <= Restantes(antes[..n]) - 1
  {
    var cauda := antes[1..][..n - 1];
    assert antes[..n][1..] == cauda;
    assert Restantes(antes[..n]) == antes[0].restantes + Restantes(cauda);
    if r == 0 {
      assert depois[..n][1..] == cauda;
    } else {
      assert depois[..n - 1] == cauda;
    }
  }

  lemma RestantesDaFrente(f: Fila, n: nat)
    requires Inv(f) && n <= |f.fila|
    ensures n <= Restantes(f.fila[..n]) <= TENTATIVAS * n
  {
    RestantesLimitados(f.fila[..n]);
  }

  /** A run with on-time firing and results, in which anything may be queued. */
  predicate Pontual(f: Fila, os: seq<Ocorrencia>)
    decreases |os|
  {
    os != [] ==>
      && Habilitada(f, os[0]) && Segura(f, os[0]) && NoPrazo(f, os[0])
      && Pontual(Passo(f, os[0]), os[1..])
  }

  lemma {:induction false} ResolvidasSoCrescem(f: Fila, os: seq<Ocorrencia>)
    ensures |Roda(f, os).h.resolvidas| >= |f.h.resolvidas|
    decreases |os|
  {
    if os != [] {
      ResolvidasSoCrescem(Passo(f, os[0]), os[1..]);
    }
  }

  function Atrasos(os: seq<Ocorrencia>): real {
    if os == [] then 0.0 else Atraso(os[0]) + Atrasos(os[1..])
  }

  /**
   Every photo is resolved in bounded time, whatever is queued behind it.  With
   on-time firing and sessions of at most 3870 s, all that happens while one of
   the first n photos still waits happens no later than ten attempts at each of
   them can take, plus the delay of each immediate attempt asked for.
   */
  lemma {:induction false} FilaEsvazia(f: Fila, os: seq<Ocorrencia>, k: nat, n: nat)
    requires Inv(f) && EsperaNormal(f) && Pontual(f, os) && 1 <= n <= |f.fila|
    requires k < |os| && |Roda(f, os[..k]).h.resolvidas| < |f.h.resolvidas| + n
    ensures f.task != SemTarefa && os[k].t <= Limite(f, n) + Atrasos(os[..k])
    decreases |os|
  {
    hide Passo, Contas, NoPrazo, Segura, Habilitada, Limite, EsperaNormal, Restantes;
    LimiteNaoCresce(f, os[0], n);
    if k > 0 {
      var f' := Passo(f, os[0]);
      var r := Resolveu(f, os[0]);
      assert os[..k][1..] == os[1..][..k - 1];
      ResolvidasSoCrescem(f', os[1..][..k - 1]);
      FilaEsvazia(f', os[1..], k - 1, n - r);
    }
  }

  /** And while photos wait there is always something on time to happen: the firing, or the result of the download. */
  lemma FilaAvanca(f: Fila, status: int, arquivo: Arquivo)
    requires Inv(f) && f.fila != []
    ensures f.task.Pendente? ==>
              Habilitada(f, Ocorrencia(EvDispara, f.task.prazo)) && NoPrazo(f, Ocorrencia(EvDispara, f.task.prazo))
    ensures !f.task.Pendente? ==>
              var o := Ocorrencia(EvResultado(0, status, arquivo), f.voos[0].inicio + DURACAO_MAXIMA);
              Habilitada(f, o) && NoPrazo(f, o)
  {}

  // ------------------------------------------------------- The photos obtained

  /** A session for the photo in flight that ended at time t and reported this. */
  predicate SessaoDe(v: Voo, cfg: SessaoFoto.Config, os: seq<SessaoFoto.Ocorrencia>, status: int, arquivo: Arquivo,
                     t: real)
  {
    && cfg.indice == v.foto.indice && cfg.nrfoto as nat == v.foto.nrfoto
    && SessaoFoto.Possivel(SessaoFoto.Inicial(v.inicio), cfg, os)
    && var s := SessaoFoto.Roda(SessaoFoto.Inicial(v.inicio), cfg, os);
       s.relatos == [status] && s.arquivo == arquivo && s.h.agora == t
  }

  ghost predicate Relatou(v: Voo, status: int, arquivo: Arquivo, t: real) {
    exists cfg, os :: SessaoDe(v, cfg, os, status, arquivo, t)
  }

  /** The results of a run are those of download sessions. */
  ghost predicate DeSessoes(f: Fila, os: seq<Ocorrencia>)
    decreases |os|
  {
    os != [] ==>
      && (os[0].evento.EvResultado? && os[0].evento.i < |f.voos| ==>
            Relatou(f.voos[os[0].evento.i], os[0].evento.status, os[0].evento.arquivo, os[0].t))
      && DeSessoes(Passo(f, os[0]), os[1..])
  }

  /** The file holds, in order, the picture bytes of the answers to every request for this photo, all of one stream. */
  predicate ImagemDe(foto: Foto, arquivo: Arquivo, cfg: SessaoFoto.Config, fluxo: Octetos.bytes, n: nat) {
    var ms := Protocolo.Mensagens(fluxo);
    && cfg.indice == foto.indice && cfg.nrfoto as nat == foto.nrfoto
    && 2 <= n <= |ms| && SessaoFoto.Obtidos(cfg, ms[..n]) && arquivo == Octetos.Some(SessaoFoto.Imagem(ms[1..n]))
  }

  ghost predicate Trazida(foto: Foto, arquivo: Arquivo) {
    exists cfg, fluxo, n :: ImagemDe(foto, arquivo, cfg, fluxo, n)
  }

  ghost predicate ObtidasTrazidas(rs: seq<Resolvida>) {
    forall i :: 0 <= i < |rs| && rs[i].desfecho == Obtida ==> Trazida(rs[i].foto, rs[i].arquivo)
  }

  lemma SucessoTraz(v: Voo, arquivo: Arquivo, t: real)
    requires Relatou(v, 0, arquivo, t)
    ensures Trazida(v.foto, arquivo)
  {
    hide SessaoFoto.Possivel, SessaoFoto.Roda, SessaoFoto.Inicial, SessaoFoto.Obtidos, SessaoFoto.Imagem;
    hide Protocolo.Mensagens, SessaoFoto.Chegado;
    var cfg, os :| SessaoDe(v, cfg, os, 0, arquivo, t);
    SessaoFoto.SucessoTrazOsBytes(v.inicio, cfg, os);
    var fluxo := SessaoFoto.Chegado(os);
    var ms := Protocolo.Mensagens(fluxo);
    var n :| 2 <= n <= |ms| && SessaoFoto.Obtidos(cfg, ms[..n]) && arquivo == Octetos.Some(SessaoFoto.Imagem(ms[1..n]));
    assert ImagemDe(v.foto, arquivo, cfg, fluxo, n);
  }

  lemma ObtidasMantidas(f: Fila, o: Ocorrencia)
    requires Inv(f) && Habilitada(f, o) && ObtidasTrazidas(f.h.resolvidas)
    requires o.evento.EvResultado? ==> Relatou(f.voos[o.evento.i], o.evento.status, o.evento.arquivo, o.t)
    ensures ObtidasTrazidas(Passo(f, o).h.resolvidas)
  {
    hide Contas, Trazida, Relatou;
    if o.evento.EvResultado? && o.evento.status == 0 {
      SucessoTraz(f.voos[o.evento.i], o.evento.arquivo, o.t);
    }
  }

  lemma {:induction false} ObtidasDe(f: Fila, os: seq<Ocorrencia>)
    requires Inv(f) && ObtidasTrazidas(f.h.resolvidas)
    requires Possivel(f, os) && SempreSegura(f, os) && DeSessoes(f, os)
    ensures ObtidasTrazidas(Roda(f, os).h.resolvidas)
    decreases |os|
  {
    hide Inv, Passo, Segura, ObtidasTrazidas, Relatou;
    if os != [] {
      InvMantido(f, os[0]);
      ObtidasMantidas(f, os[0]);
      ObtidasDe(Passo(f, os[0]), os[1..]);
    }
  }

  /** End to end: each photo that the queue counts as obtained has its own picture, whole, in its file. */
  lemma FotoObtidaEhAPedida(os: seq<Ocorrencia>)
    requires Possivel(VAZIA, os) && SempreSegura(VAZIA, os) && DeSessoes(VAZIA, os)
    ensures ObtidasTrazidas(Roda(VAZIA, os).h.resolvidas)
  {
    hide Possivel, Roda, SempreSegura, DeSessoes;
    ObtidasDe(VAZIA, os);
  }

  /** Sessions keep to the duration that deadlines count on, and report one of three statuses. */
  lemma SessaoDura(v: Voo, cfg: SessaoFoto.Config, os: seq<SessaoFoto.Ocorrencia>, status: int, arquivo: Arquivo,
                   t: real)
    requires SessaoDe(v, cfg, os, status, arquivo, t)
    requires SessaoFoto.TodasNoPrazo(SessaoFoto.Inicial(v.inicio), cfg, os)
    ensures t <= v.inicio + DURACAO_MAXIMA && 0 <= status <= 2 && (status == 0 <==> arquivo.Some?)
  {
    hide SessaoFoto.Possivel, SessaoFoto.Roda, SessaoFoto.Inicial, SessaoFoto.TodasNoPrazo;
    SessaoFoto.SessaoTermina(v.inicio, cfg, os);
    SessaoFoto.Invariantes(v.inicio, cfg, os);
  }

  // ------------------------------------------------------------ The handler

  class TratadorDeFotos {
    const caddr: string
    const tam_senha: int

    var fila: seq<Item>
    var task: Tarefa
    var voos: seq<Voo>                // downloads started and not yet finished
    var obtidas: seq<(string, Foto)>  // address dialled and photo, for each download started

    ghost var excecao: bool
    ghost var h: Historia

    ghost function Est(): Fila
      reads this
    {
      Fila(fila, task, voos, excecao, h)
    }

    constructor (caddr: string, tamSenha: int)
      ensures Est() == VAZIA && obtidas == [] && this.caddr == caddr && tam_senha == tamSenha
    {
      this.caddr, tam_senha := caddr, tamSenha;
      fila, task, voos, obtidas := [], SemTarefa, [], [];
      excecao, h := false, VAZIA.h;
    }

    method Enfileirar(foto: Foto, t: real)
      modifies `fila, `task, `h
      ensures Est() == Enfileira(old(Est()), tam_senha, foto, t)
    {
      if tam_senha <= 0 {
        return;
      }
      fila := fila + [Item(foto, TENTATIVAS)];
      h := h.(enfileiradas := h.enfileiradas + [foto]);
      if task == SemTarefa {
        task := Pendente(t + ESPERA, ESPERA);
      }
    }

    /** Without a timer there is nothing to reset, and the call raises. */
    method ImediatoAgora(t: real)
      modifies `task, `excecao
      ensures Est() == Imediato(old(Est()), t)
    {
      if task == SemTarefa {
        excecao := true;
        return;
      }
      task := Pendente(t + ESPERA_IMEDIATA, ESPERA_IMEDIATA);
    }

    /** The timer fires: dial the configured address, or the one the event came from. */
    method ObtemFoto(t: real)
      requires task.Pendente?
      modifies `task, `voos, `obtidas, `h
      ensures Est() == Dispara(old(Est()), t)
      ensures obtidas == old(obtidas) + (if fila == [] then []
                                         else [(if caddr != "auto" then caddr else fila[0].foto.ip, fila[0].foto)])
    {
      task := Disparada(task.relativo);
      if fila == [] {
        task := SemTarefa;
        return;
      }
      var ip_addr := fila[0].foto.ip;
      if caddr != "auto" {
        ip_addr := caddr;
      }
      obtidas := obtidas + [(ip_addr, fila[0].foto)];
      voos := voos + [Voo(fila[0].foto, t)];
      h := h.(sessoes := h.sessoes + 1);
    }

    /** Called by the download that ends; the index tells which one. */
    method ResultadoFoto(i: nat, status: int, arquivo: Arquivo, t: real)
      requires Inv(Est()) && i < |voos|
      modifies this
      ensures Est() == Resulta(old(Est()), i, status, arquivo, t) && Inv(Est())
      ensures obtidas == old(obtidas)
    {
      ResultaMantem(Est(), i, status, arquivo, t);
      hide Contabiliza;
      voos := voos[..i] + voos[i + 1..];
      TrataStatus(status, arquivo);
      task := Pendente(t + task.relativo, task.relativo);
    }

    method TrataStatus(status: int, arquivo: Arquivo)
      requires fila != []
      modifies `fila, `h
      ensures Est() == Contabiliza(old(Est()), status, arquivo)
    {
      h := h.(relatos := h.relatos + [status]);
      ghost var usadas := TENTATIVAS - fila[0].restantes + 1;
      if status == 0 {
        RetiraPrimeira(Obtida, arquivo, usadas);
      } else if status == 2 {
        RetiraPrimeira(ErroFatal, arquivo, usadas);
      } else {
        ghost var resto := fila[1..];
        fila := [fila[0].(restantes := fila[0].restantes - 1)] + fila[1..];
        assert fila[1..] == resto;
        if fila[0].restantes <= 0 {
          RetiraPrimeira(Esgotada, arquivo, usadas);
        }
      }
    }

    /** The first photo leaves the queue. */
    method RetiraPrimeira(ghost d: Desfecho, ghost arquivo: Arquivo, ghost usadas: int)
      requires fila != []
      modifies `fila, `h
      ensures fila == old(fila)[1..]
      ensures h == old(h).(relatos := [],
                           resolvidas := old(h).resolvidas
                                         + [Resolvida(old(fila)[0].foto, d, usadas, arquivo, old(h).relatos)])
    {
      h := h.(resolvidas := h.resolvidas + [Resolvida(fila[0].foto, d, usadas, arquivo, h.relatos)], relatos := []);
      fila := fila[1..];
    }
  }
}
