/**
 The timers of the Python event loop: a registry of pending timeouts in the
 order they were registered, the handlers that own them, and the clock reading
 given to each operation.  Times are seconds.  The registry is described twice:
 as a value that steps change (T and H name timeouts and handlers), over which
 the properties of whole runs are proved, and as objects whose methods refine
 those steps.
 */
module Temporizadores {

  import opened Octetos

  const HORIZONTE: real := 86400.0

  datatype Dados<H> = Dados(owner: Option<H>, relative_to: real, absolute_to: real, invalidated: bool)

  /** `dados` keeps every timeout ever created; `vivos` and `destruidos` share out the handlers. */
  datatype Estado<T(==), H(==)> =
    Estado(pending: seq<T>, dados: map<T, Dados<H>>, vivos: set<H>, destruidos: set<H>)

  datatype Passo<T, H> =
    | NovoHandler(h: H)
    | Novo(t: T, owner: Option<H>, relative_to: real, agora: real)
    | Restart(t: T, agora: real)
    | Reset(t: T, relative_to: real, agora: real)
    | Cancel(t: T)
    | Handle(agora: real)
    | Destroy(h: H)

  ghost predicate SemRepetidos<T>(ts: seq<T>) {
    forall i, j :: 0 <= i < j < |ts| ==> ts[i] != ts[j]
  }

  /** The queue once t has left it. */
  ghost function Sem<T>(ts: seq<T>, t: T): seq<T> {
    if k: nat :| k < |ts| && ts[k] == t then ts[..k] + ts[k + 1..] else ts
  }

  ghost function Com<T>(ts: seq<T>, t: T): seq<T> {
    if t in ts then ts else ts + [t]
  }

  /** The queue once every timeout of h has left it. */
  ghost function SemDono<T, H>(ts: seq<T>, dados: map<T, Dados<H>>, h: H): seq<T>
    requires forall i :: 0 <= i < |ts| ==> ts[i] in dados
  {
    if ts == [] then [] else
      var ultimo := ts[|ts| - 1];
      SemDono(ts[..|ts| - 1], dados, h) + if dados[ultimo].owner == Some(h) then [] else [ultimo]
  }

  /** The place of the timeout to run next: the first of the least due before `limite`. */
  ghost function Proximo<T, H>(ts: seq<T>, dados: map<T, Dados<H>>, limite: real): (p: Option<nat>)
    requires forall i :: 0 <= i < |ts| ==> ts[i] in dados
    ensures p.Some? ==> p.value < |ts|
  {
    if ts == [] then None else
      var p := Proximo(ts[..|ts| - 1], dados, limite);
      var menor := if p.Some? then dados[ts[p.value]].absolute_to else limite;
      if dados[ts[|ts| - 1]].absolute_to < menor then Some(|ts| - 1) else p
  }

  /** What Handle would run: the next timeout, if already due. */
  ghost function Devido<T, H>(s: Estado<T, H>, agora: real): Option<T>
    requires Registrados(s)
  {
    var p := Proximo(s.pending, s.dados, agora + HORIZONTE);
    if p.Some? && s.dados[s.pending[p.value]].absolute_to <= agora then Some(s.pending[p.value]) else None
  }

  ghost predicate Registrados<T, H>(s: Estado<T, H>) {
    forall t :: t in s.pending ==> t in s.dados
  }

  /** Objects are created once and used only after that. */
  ghost predicate Habilitado<T, H>(s: Estado<T, H>, p: Passo<T, H>) {
    match p
    case NovoHandler(h) => h !in s.vivos && h !in s.destruidos
    case Novo(t, owner, _, _) => t !in s.dados && (owner.Some? ==> owner.value in s.vivos + s.destruidos)
    case Restart(t, _) => t in s.dados
    case Reset(t, _, _) => t in s.dados
    case Cancel(t) => t in s.dados
    case Handle(_) => true
    case Destroy(h) => h in s.vivos + s.destruidos
  }

  /** Calls that raise an exception and change nothing. */
  ghost predicate Levanta<T, H>(s: Estado<T, H>, p: Passo<T, H>)
    requires Habilitado(s, p)
  {
    match p
    case NovoHandler(_) => false
    case Novo(_, owner, _, _) => owner.Some? && owner.value in s.destruidos
    case Restart(t, _) => s.dados[t].invalidated
    case Reset(t, _, _) => s.dados[t].invalidated
    case Cancel(t) => s.dados[t].invalidated
    case Handle(_) => false
    case Destroy(h) => h in s.destruidos
  }

  ghost function Rearma<T, H>(s: Estado<T, H>, t: T, relative_to: real, agora: real): Estado<T, H>
    requires t in s.dados
  {
    s.(pending := Com(s.pending, t),
       dados := s.dados[t := s.dados[t].(relative_to := relative_to, absolute_to := agora + relative_to)])
  }

  /** Every pending timeout of h leaves the queue and is invalidated. */
  ghost function Destruido<T, H>(s: Estado<T, H>, h: H): Estado<T, H>
    requires Registrados(s)
  {
    Estado(SemDono(s.pending, s.dados, h),
           map t | t in s.dados ::
             if t in s.pending && s.dados[t].owner == Some(h) then s.dados[t].(invalidated := true) else s.dados[t],
           s.vivos - {h}, s.destruidos + {h})
  }

  lemma DestruidoQuando<T, H>(s: Estado<T, H>, h: H, s': Estado<T, H>)
    requires Registrados(s) && s'.pending == SemDono(s.pending, s.dados, h)
    requires s'.vivos == s.vivos - {h} && s'.destruidos == s.destruidos + {h} && s'.dados.Keys == s.dados.Keys
    requires forall t :: t in s.dados ==>
               s'.dados[t] == s.dados[t].(invalidated :=
                 s.dados[t].invalidated || (t in s.pending && s.dados[t].owner == Some(h)))
    ensures s' == Destruido(s, h)
  {
    assert s'.dados == Destruido(s, h).dados;
  }

  ghost function Aplica<T, H>(s: Estado<T, H>, p: Passo<T, H>): Estado<T, H>
    requires Registrados(s) && Habilitado(s, p)
  {
    if Levanta(s, p) then s else
      match p
      case NovoHandler(h) => s.(vivos := s.vivos + {h})
      case Novo(t, owner, relative_to, agora) =>
        s.(pending := Com(s.pending, t),
           dados := s.dados[t := Dados(owner, relative_to, agora + relative_to, false)])
      case Restart(t, agora) => Rearma(s, t, s.dados[t].relative_to, agora)
      case Reset(t, relative_to, agora) => Rearma(s, t, relative_to, agora)
      case Cancel(t) => s.(pending := Sem(s.pending, t))
      case Handle(agora) =>
        var d := Devido(s, agora);
        if d.Some? then s.(pending := Sem(s.pending, d.value)) else s
      case Destroy(h) => Destruido(s, h)
  }

  // ------------------------------------------------------------------
  // What the queue operations do

  lemma SemEm<T>(ts: seq<T>, k: nat)
    requires SemRepetidos(ts) && k < |ts|
    ensures Sem(ts, ts[k]) == ts[..k] + ts[k + 1..]
  {
    var j: nat :| j < |ts| && ts[j] == ts[k] && Sem(ts, ts[k]) == ts[..j] + ts[j + 1..];
    assert j == k;
  }

  /** Exactly t leaves, and the queue stays without repetitions. */
  lemma SemSse<T>(ts: seq<T>, t: T)
    requires SemRepetidos(ts)
    ensures forall i :: 0 <= i < |Sem(ts, t)| ==> Sem(ts, t)[i] in ts && Sem(ts, t)[i] != t
    ensures forall i :: 0 <= i < |ts| && ts[i] != t ==> ts[i] in Sem(ts, t)
    ensures |Sem(ts, t)| == if t in ts then |ts| - 1 else |ts|
    ensures SemRepetidos(Sem(ts, t))
  {
    if k :| 0 <= k < |ts| && ts[k] == t {
      SemEm(ts, k);
      hide Sem;
      RetiraSse(ts, k, Sem(ts, t));
    }
  }

  lemma RetiraSse<T>(ts: seq<T>, k: nat, r: seq<T>)
    requires SemRepetidos(ts) && k < |ts| && r == ts[..k] + ts[k + 1..]
    ensures |r| == |ts| - 1 && SemRepetidos(r)
    ensures forall i :: 0 <= i < |r| ==> r[i] in ts && r[i] != ts[k]
    ensures forall i :: 0 <= i < |ts| && i != k ==> ts[i] in r
  {
    forall i | 0 <= i < |ts| && i != k
      ensures ts[i] in r
    {
      assert ts[i] == r[if i < k then i else i - 1];
    }
    forall i, j | 0 <= i < j < |r|
      ensures r[i] != r[j]
    {
      assert r[i] == ts[if i < k then i else i + 1] && r[j] == ts[if j < k then j else j + 1];
    }
  }

  lemma {:induction false} SemDonoSse<T, H>(ts: seq<T>, dados: map<T, Dados<H>>, h: H)
    requires forall i :: 0 <= i < |ts| ==> ts[i] in dados
    ensures forall i :: 0 <= i < |SemDono(ts, dados, h)| ==>
              SemDono(ts, dados, h)[i] in ts && dados[SemDono(ts, dados, h)[i]].owner != Some(h)
    ensures forall i :: 0 <= i < |ts| && dados[ts[i]].owner != Some(h) ==> ts[i] in SemDono(ts, dados, h)
    ensures SemRepetidos(ts) ==> SemRepetidos(SemDono(ts, dados, h))
  {
    if ts != [] {
      SemDonoSse(ts[..|ts| - 1], dados, h);
    }
  }

  ghost predicate Vence<T, H>(ts: seq<T>, dados: map<T, Dados<H>>, limite: real, k: nat)
    requires k < |ts| && forall i :: 0 <= i < |ts| ==> ts[i] in dados
  {
    && dados[ts[k]].absolute_to < limite
    && (forall i :: 0 <= i < |ts| ==> dados[ts[k]].absolute_to <= dados[ts[i]].absolute_to)
    && (forall i :: 0 <= i < k ==> dados[ts[k]].absolute_to < dados[ts[i]].absolute_to)
  }

  /** One turn of the loop that removes them: the queue is what is left of the first i, then the rest untouched. */
  lemma SemDonoPasso<T, H>(ts: seq<T>, dados: map<T, Dados<H>>, h: H, i: nat, fila: seq<T>)
    requires i < |ts| && forall j :: 0 <= j < |ts| ==> ts[j] in dados
    requires SemRepetidos(fila) && fila == SemDono(ts[..i], dados, h) + ts[i..]
    ensures ts[i] in fila && SemRepetidos(Sem(fila, ts[i]))
    ensures (if dados[ts[i]].owner == Some(h) then Sem(fila, ts[i]) else fila)
         == SemDono(ts[..i + 1], dados, h) + ts[i + 1..]
  {
    var a, t, b := SemDono(ts[..i], dados, h), ts[i], ts[i + 1..];
    assert ts[..i + 1][..i] == ts[..i];
    SemDonoMais(ts[..i + 1], dados, h);
    hide SemDono, Sem, SemRepetidos;
    assert ts[i..] == [t] + b;
    Emenda(a, t, b, fila);
    assert a + [t] + b == a + ([t] + b) == fila;
  }

  lemma Emenda<T>(a: seq<T>, t: T, b: seq<T>, fila: seq<T>)
    requires SemRepetidos(fila) && fila == a + ([t] + b)
    ensures t in fila && Sem(fila, t) == a + b && SemRepetidos(a + b)
  {
    assert fila[|a|] == t;
    SemEm(fila, |a|);
    hide Sem, SemRepetidos;
    assert fila[..|a|] == a && fila[|a| + 1..] == b;
    RetiraSse(fila, |a|, a + b);
  }

  lemma Outros<T>(ts: seq<T>, i: nat)
    requires SemRepetidos(ts) && i < |ts|
    ensures forall k :: 0 <= k < |ts| && k != i ==> ts[k] != ts[i]
  {
  }

  lemma SemDonoVazio<T, H>(dados: map<T, Dados<H>>, h: H)
    ensures SemDono([], dados, h) == []
  {
  }

  lemma SemDonoMais<T, H>(ts: seq<T>, dados: map<T, Dados<H>>, h: H)
    requires ts != [] && forall i :: 0 <= i < |ts| ==> ts[i] in dados
    ensures SemDono(ts, dados, h)
         == SemDono(ts[..|ts| - 1], dados, h) + if dados[ts[|ts| - 1]].owner == Some(h) then [] else [ts[|ts| - 1]]
  {
  }

  /** What stays stays in order: taking out a handler's timeouts works on each part of the queue alone. */
  lemma {:induction false} SemDonoConcat<T, H>(a: seq<T>, b: seq<T>, dados: map<T, Dados<H>>, h: H)
    requires forall i :: 0 <= i < |a + b| ==> (a + b)[i] in dados
    requires (forall i :: 0 <= i < |a| ==> a[i] in dados) && (forall i :: 0 <= i < |b| ==> b[i] in dados)
    ensures SemDono(a + b, dados, h) == SemDono(a, dados, h) + SemDono(b, dados, h)
  {
    if b == [] {
      assert a + b == a;
    } else {
      var c := b[..|b| - 1];
      assert (a + b)[..|a + b| - 1] == a + c;
      SemDonoConcat(a, c, dados, h);
    }
  }

  /** Nothing comes before the limit, or the chosen one does and precedes every other, by due time and then by age. */
  lemma {:induction false} ProximoSse<T, H>(ts: seq<T>, dados: map<T, Dados<H>>, limite: real)
    requires forall i :: 0 <= i < |ts| ==> ts[i] in dados
    ensures var p := Proximo(ts, dados, limite);
            if p == None then forall i :: 0 <= i < |ts| ==> dados[ts[i]].absolute_to >= limite
            else Vence(ts, dados, limite, p.value)
  {
    if ts != [] {
      var n := |ts| - 1;
      ProximoSse(ts[..n], dados, limite);
      assert forall i :: 0 <= i < n ==> ts[i] == ts[..n][i];
    }
  }

  // ------------------------------------------------------------------
  // Invariants of every run

  ghost predicate Inv<T, H>(s: Estado<T, H>) {
    && Registrados(s)
    && SemRepetidos(s.pending)
    && (forall t :: t in s.pending ==> !s.dados[t].invalidated)
    && s.vivos !! s.destruidos
    && (forall t :: t in s.dados && s.dados[t].owner.Some? ==> s.dados[t].owner.value in s.vivos + s.destruidos)
    && (forall t :: t in s.dados && s.dados[t].invalidated ==>
          s.dados[t].owner.Some? && s.dados[t].owner.value in s.destruidos)
  }

  lemma InvMantido<T, H>(s: Estado<T, H>, p: Passo<T, H>)
    requires Inv(s) && Habilitado(s, p)
    ensures Inv(Aplica(s, p))
  {
    if !Levanta(s, p) {
      match p {
        case NovoHandler(_) =>
        case Novo(_, _, _, _) =>
        case Restart(_, _) =>
        case Reset(_, _, _) =>
        case Cancel(t) =>
          SemSse(s.pending, t);
        case Handle(agora) =>
          if Devido(s, agora).Some? {
            SemSse(s.pending, Devido(s, agora).value);
          }
        case Destroy(h) => SemDonoSse(s.pending, s.dados, h);
      }
    }
  }

  /**
   When the loop runs timers it runs nothing only if nothing is due; otherwise
   it runs one pending timeout that is due and that none precedes, and only
   that one leaves the queue.
   */
  lemma HandleDispara<T, H>(s: Estado<T, H>, agora: real)
    requires Inv(s)
    ensures Devido(s, agora) == None <==> forall i :: 0 <= i < |s.pending| ==> s.dados[s.pending[i]].absolute_to > agora
    ensures Devido(s, agora).Some? ==>
              var t, s' := Devido(s, agora).value, Aplica(s, Handle(agora));
              && t in s.pending && !s.dados[t].invalidated && s.dados[t].absolute_to <= agora
              && (forall i :: 0 <= i < |s.pending| ==> s.dados[t].absolute_to <= s.dados[s.pending[i]].absolute_to)
              && t !in s'.pending && |s'.pending| == |s.pending| - 1
              && s' == s.(pending := s'.pending)
  {
    ProximoSse(s.pending, s.dados, agora + HORIZONTE);
    if Devido(s, agora).Some? {
      SemSse(s.pending, Devido(s, agora).value);
    }
  }

  /** A cancelled timeout leaves the registry; the others stay, in their order, and no data changes. */
  lemma CancelRetira<T, H>(s: Estado<T, H>, t: T)
    requires Inv(s) && t in s.dados && !s.dados[t].invalidated
    ensures var s' := Aplica(s, Cancel(t));
            && t !in s'.pending && s' == s.(pending := s'.pending)
            && (t !in s.pending ==> s' == s)
            && forall k :: 0 <= k < |s.pending| && s.pending[k] == t ==>
                 s'.pending == s.pending[..k] + s.pending[k + 1..]
  {
    SemSse(s.pending, t);
    if k :| 0 <= k < |s.pending| && s.pending[k] == t {
      SemEm(s.pending, k);
      assert forall j :: 0 <= j < |s.pending| && s.pending[j] == t ==> j == k;
    }
  }

  /** The call that arms a timeout, and for how long. */
  ghost predicate Arma<T, H>(s: Estado<T, H>, p: Passo<T, H>, t: T, prazo: real, agora: real) {
    || (p.Novo? && p.t == t && p.relative_to == prazo && p.agora == agora)
    || (p == Restart(t, agora) && t in s.dados && s.dados[t].relative_to == prazo)
    || p == Reset(t, prazo, agora)
  }

  /**
   A timeout armed for some time waits that long, neither less nor, unless
   another comes first, more.  It goes last, or keeps its place if it was
   pending, and no other timeout is touched.
   */
  lemma ArmadoEspera<T, H>(s: Estado<T, H>, p: Passo<T, H>, t: T, prazo: real, agora: real, x: real)
    requires Inv(s) && Habilitado(s, p) && Arma(s, p, t, prazo, agora) && !Levanta(s, p)
    ensures var s' := Aplica(s, p);
            && Registrados(s')
            && (Devido(s', x) == Some(t) ==> x >= agora + prazo)
            && (x >= agora + prazo ==> Devido(s', x).Some?)
            && s'.pending == (if t in s.pending then s.pending else s.pending + [t])
            && t in s'.dados && s'.dados[t].relative_to == prazo && s'.dados == s.dados[t := s'.dados[t]]
  {
    InvMantido(s, p);
    var s' := Aplica(s, p);
    HandleDispara(s', x);
    assert t in s'.pending;
  }

  /** Destroying a handler takes away exactly its pending timeouts, keeping the order, and invalidates exactly those. */
  lemma DestroyLimpa<T, H>(s: Estado<T, H>, h: H)
    requires Inv(s) && h in s.vivos
    ensures var s' := Aplica(s, Destroy(h));
            && h !in s'.vivos && h in s'.destruidos && s'.dados.Keys == s.dados.Keys
            && s'.pending == SemDono(s.pending, s.dados, h)
            && (forall i :: 0 <= i < |s'.pending| ==>
                  s'.pending[i] in s.pending && s.dados[s'.pending[i]].owner != Some(h))
            && (forall i :: 0 <= i < |s.pending| && s.dados[s.pending[i]].owner != Some(h) ==>
                  s.pending[i] in s'.pending)
            && forall t :: t in s.dados ==>
                 s'.dados[t] == s.dados[t].(invalidated :=
                   s.dados[t].invalidated || (t in s.pending && s.dados[t].owner == Some(h)))
  {
    SemDonoSse(s.pending, s.dados, h);
  }

  /** Then using a timeout it took away raises, as do a new timeout for the handler and destroying it again. */
  lemma UsoDepoisDeDestruir<T, H>(s: Estado<T, H>, h: H, t: T, novo: T, d: real, agora: real)
    requires Inv(s) && h in s.vivos && t in s.pending && s.dados[t].owner == Some(h) && novo !in s.dados
    ensures var s' := Aplica(s, Destroy(h));
            && Habilitado(s', Restart(t, agora)) && Levanta(s', Restart(t, agora))
            && Habilitado(s', Reset(t, d, agora)) && Levanta(s', Reset(t, d, agora))
            && Habilitado(s', Cancel(t)) && Levanta(s', Cancel(t))
            && Habilitado(s', Novo(novo, Some(h), d, agora)) && Levanta(s', Novo(novo, Some(h), d, agora))
            && Habilitado(s', Destroy(h)) && Levanta(s', Destroy(h))
  {
    DestroyLimpa(s, h);
  }

  /** And nothing raises for handlers that live: an exception always means that some handler was destroyed. */
  lemma SoDestruidoLevanta<T, H>(s: Estado<T, H>, p: Passo<T, H>)
    requires Inv(s) && Habilitado(s, p) && Levanta(s, p)
    ensures exists h :: h in s.destruidos
                        && (p == Destroy(h) || (p.Novo? && p.owner == Some(h))
                            || ((p.Restart? || p.Reset? || p.Cancel?) && s.dados[p.t].owner == Some(h)))
  {
    var h := match p
      case Destroy(h) => h
      case Novo(_, owner, _, _) => owner.value
      case Restart(t, _) => s.dados[t].owner.value
      case Reset(t, _, _) => s.dados[t].owner.value
      case Cancel(t) => s.dados[t].owner.value;
    assert h in s.destruidos;
  }

  /** A call that does not arm t. */
  ghost predicate NaoArma<T, H>(p: Passo<T, H>, t: T) { (p.Restart? || p.Reset?) ==> p.t != t }

  lemma NaoVolta<T, H>(s: Estado<T, H>, p: Passo<T, H>, t: T)
    requires Inv(s) && Habilitado(s, p) && t in s.dados && t !in s.pending && NaoArma(p, t)
    ensures t in Aplica(s, p).dados && t !in Aplica(s, p).pending
  {
    if !Levanta(s, p) {
      match p {
        case Cancel(u) => SemSse(s.pending, u);
        case Handle(agora) =>
          if Devido(s, agora).Some? {
            SemSse(s.pending, Devido(s, agora).value);
          }
        case Destroy(h) => SemDonoSse(s.pending, s.dados, h);
        case _ =>
      }
    }
  }

  /** A timeout whose handler is gone and which may still run. */
  ghost predicate SemOrfaos<T, H>(s: Estado<T, H>)
    requires Registrados(s)
  {
    forall t :: t in s.pending && s.dados[t].owner.Some? ==> s.dados[t].owner.value !in s.destruidos
  }

  /** A spent or cancelled timeout is not invalidated with its handler, so it can be armed again. */
  ghost predicate Ressuscita<T, H>(s: Estado<T, H>, p: Passo<T, H>) {
    && (p.Restart? || p.Reset?)
    && p.t in s.dados && !s.dados[p.t].invalidated
    && s.dados[p.t].owner.Some? && s.dados[p.t].owner.value in s.destruidos
  }

  /** Destroying a handler leaves none of its timeouts pending; only a rearming can bring one back. */
  lemma OrfaoSse<T, H>(s: Estado<T, H>, p: Passo<T, H>)
    requires Inv(s) && SemOrfaos(s) && Habilitado(s, p)
    ensures Registrados(Aplica(s, p)) && (SemOrfaos(Aplica(s, p)) <==> !Ressuscita(s, p))
  {
    InvMantido(s, p);
    var s' := Aplica(s, p);
    if !Levanta(s, p) {
      match p {
        case NovoHandler(_) =>
        case Novo(t, _, _, _) => assert t in s'.pending;
        case Restart(t, _) => assert t in s'.pending;
        case Reset(t, _, _) => assert t in s'.pending;
        case Cancel(t) => SemSse(s.pending, t);
        case Handle(agora) =>
          if Devido(s, agora).Some? {
            SemSse(s.pending, Devido(s, agora).value);
          }
        case Destroy(h) => SemDonoSse(s.pending, s.dados, h);
      }
    }
  }

  // ------------------------------------------------------------------
  // Whole runs

  ghost predicate Possivel<T, H>(s: Estado<T, H>, ps: seq<Passo<T, H>>)
    decreases |ps|
  {
    ps != [] ==> Registrados(s) && Habilitado(s, ps[0]) && Possivel(Aplica(s, ps[0]), ps[1..])
  }

  ghost function Roda<T, H>(s: Estado<T, H>, ps: seq<Passo<T, H>>): Estado<T, H>
    requires Possivel(s, ps)
    decreases |ps|
  {
    if ps == [] then s else Roda(Aplica(s, ps[0]), ps[1..])
  }

  /** No state the run goes through has an orphan. */
  ghost predicate NuncaOrfaos<T, H>(s: Estado<T, H>, ps: seq<Passo<T, H>>)
    requires Possivel(s, ps)
    decreases |ps|
  {
    && (Registrados(s) ==> SemOrfaos(s))
    && (ps != [] ==> NuncaOrfaos(Aplica(s, ps[0]), ps[1..]))
  }

  ghost predicate NuncaRessuscita<T, H>(s: Estado<T, H>, ps: seq<Passo<T, H>>)
    requires Possivel(s, ps)
    decreases |ps|
  {
    ps != [] ==> !Ressuscita(s, ps[0]) && NuncaRessuscita(Aplica(s, ps[0]), ps[1..])
  }

  /**
   In every run of calls, raising or not: no timeout is queued twice, none
   pending is invalid, and only timeouts of destroyed handlers are invalid; and
   the run is free of orphans exactly when no call rearms a timeout of a handler
   already destroyed.
   */
  lemma {:induction false} TodaCorrida<T, H>(s: Estado<T, H>, ps: seq<Passo<T, H>>)
    requires Inv(s) && SemOrfaos(s) && Possivel(s, ps)
    ensures Inv(Roda(s, ps))
    ensures NuncaOrfaos(s, ps) <==> NuncaRessuscita(s, ps)
    decreases |ps|
  {
    hide Aplica, Habilitado, Inv, SemOrfaos, Ressuscita;
    if ps != [] {
      var s' := Aplica(s, ps[0]);
      InvMantido(s, ps[0]);
      OrfaoSse(s, ps[0]);
      if Ressuscita(s, ps[0]) {
        InvDe(s', ps[1..]);
        assert Registrados(s') && !SemOrfaos(s');
        assert !NuncaOrfaos(s', ps[1..]);
      } else {
        TodaCorrida(s', ps[1..]);
      }
    }
  }

  lemma {:induction false} InvDe<T, H>(s: Estado<T, H>, ps: seq<Passo<T, H>>)
    requires Inv(s) && Possivel(s, ps)
    ensures Inv(Roda(s, ps))
    decreases |ps|
  {
    hide Aplica, Habilitado, Inv;
    if ps != [] {
      InvMantido(s, ps[0]);
      InvDe(Aplica(s, ps[0]), ps[1..]);
    }
  }

  /**
   What is not pending does not run: a timeout that ran or was cancelled is never
   due again, whatever else is called, until it is itself armed again.
   */
  lemma {:induction false} SoRearmeTraz<T, H>(s: Estado<T, H>, t: T, ps: seq<Passo<T, H>>, agora: real)
    requires Inv(s) && t in s.dados && t !in s.pending && Possivel(s, ps)
    requires forall i :: 0 <= i < |ps| ==> NaoArma(ps[i], t)
    ensures var s' := Roda(s, ps); Inv(s') && t !in s'.pending && Devido(s', agora) != Some(t)
    decreases |ps|
  {
    hide Aplica, Habilitado, Inv;
    if ps == [] {
      DevidoPendente(s, agora);
    } else {
      InvMantido(s, ps[0]);
      NaoVolta(s, ps[0], t);
      SoRearmeTraz(Aplica(s, ps[0]), t, ps[1..], agora);
    }
  }

  lemma DevidoPendente<T, H>(s: Estado<T, H>, agora: real)
    requires Inv(s)
    ensures Devido(s, agora).Some? ==> Devido(s, agora).value in s.pending
  {}

  /** The rearming is no accident of one input: any timeout that has run outlives its handler this way. */
  lemma QuemDisparouSobrevive<T, H>(s: Estado<T, H>, t: T, h: H, agora: real)
    requires Inv(s) && Devido(s, agora) == Some(t) && s.dados[t].owner == Some(h)
    ensures var s1 := Aplica(s, Handle(agora));
            && Registrados(s1) && Habilitado(s1, Destroy(h))
            && var s2 := Aplica(s1, Destroy(h));
               && Registrados(s2) && Habilitado(s2, Restart(t, agora)) && !Levanta(s2, Restart(t, agora))
               && Registrados(Aplica(s2, Restart(t, agora))) && !SemOrfaos(Aplica(s2, Restart(t, agora)))
  {
    HandleDispara(s, agora);
    InvMantido(s, Handle(agora));
    var s1 := Aplica(s, Handle(agora));
    InvMantido(s1, Destroy(h));
    var s2 := Aplica(s1, Destroy(h));
    InvMantido(s2, Restart(t, agora));
    assert t in Com(s2.pending, t);
  }

  /** For one: timeout 1 of handler 7, armed for one second at time 0, at time 1. */
  lemma OrfaoExiste()
    ensures var vazio: Estado<nat, nat> := Estado([], map[], {}, {});
            var s := Aplica(Aplica(vazio, NovoHandler(7)), Novo(1, Some(7), 1.0, 0.0));
            Inv(s) && Devido(s, 1.0) == Some(1) && s.dados[1].owner == Some(7)
  {
    var d := Dados(Some(7), 1.0, 1.0, false);
    var vazio: Estado<nat, nat> := Estado([], map[], {}, {});
    var s := Estado([1], map[1 := d], {7}, {});
    assert Aplica(Aplica(vazio, NovoHandler(7)), Novo(1, Some(7), 1.0, 0.0)) == s;
    assert Proximo([1], s.dados, 1.0 + HORIZONTE) == Some(0);
  }

  // ------------------------------------------------------------------
  // The objects

  class Handler {
    var destroyed: bool

    constructor ()
      ensures !destroyed
    {
      destroyed := false;
    }
  }

  class Timeout {
    const owner: Option<Handler>
    var relative_to: real
    var absolute_to: real
    var invalidated: bool

    constructor (owner: Option<Handler>, relative_to: real, agora: real)
      ensures this.owner == owner && this.relative_to == relative_to
      ensures absolute_to == agora + relative_to && !invalidated
    {
      this.owner, this.relative_to := owner, relative_to;
      absolute_to, invalidated := agora + relative_to, false;
    }

    function Campos(): Dados<Handler>
      reads this
    {
      Dados(owner, relative_to, absolute_to, invalidated)
    }
  }

  class Registro {
    var pending: seq<Timeout>
    var items: set<Handler>
    ghost var timeouts: set<Timeout>
    ghost var destruidos: set<Handler>

    ghost predicate Valid()
      reads this, timeouts, items, destruidos
    {
      Marcados() && Inv(Est())
    }

    /** The handlers' flags say which ones were destroyed. */
    ghost predicate Marcados()
      reads `items, `destruidos, items`destroyed, destruidos`destroyed
    {
      forall h :: h in items + destruidos ==> h.destroyed == (h in destruidos)
    }

    ghost function Est(): Estado<Timeout, Handler>
      reads this, timeouts
    {
      Estado(pending, map t | t in timeouts :: t.Campos(), items, destruidos)
    }

    constructor ()
      ensures Valid() && Est() == Estado([], map[], {}, {})
    {
      pending, items, timeouts, destruidos := [], {}, {}, {};
    }

    method NewHandler() returns (h: Handler)
      requires Valid()
      modifies this
      ensures Valid() && fresh(h)
      ensures Est() == Aplica(old(Est()), NovoHandler(h))
    {
      h := new Handler();
      items := items + {h};
      InvMantido(old(Est()), NovoHandler(h));
      assert Est() == Aplica(old(Est()), NovoHandler(h));
    }

    /** Raises for a handler already destroyed. */
    method New(owner: Option<Handler>, relative_to: real, agora: real) returns (t: Option<Timeout>)
      requires Valid() && (owner.Some? ==> owner.value in items + destruidos)
      modifies this
      ensures Valid()
      ensures t == None <==> owner.Some? && owner.value.destroyed
      ensures t == None ==> Est() == old(Est())
      ensures t.Some? ==> fresh(t.value) && Est() == Aplica(old(Est()), Novo(t.value, owner, relative_to, agora))
    {
      if owner.Some? && owner.value.destroyed {
        return None;
      }
      var novo := new Timeout(owner, relative_to, agora);
      pending := pending + [novo];
      timeouts := timeouts + {novo};
      ghost var p := Novo(novo, owner, relative_to, agora);
      InvMantido(old(Est()), p);
      assert Est() == Aplica(old(Est()), p);
      return Some(novo);
    }

    /** Arms with the same delay; a timeout already pending keeps its place. */
    method Restart(t: Timeout, agora: real) returns (erro: bool)
      requires Valid() && t in timeouts
      modifies `pending, t`absolute_to
      ensures Valid()
      ensures erro == Levanta(old(Est()), Passo.Restart(t, agora))
      ensures Est() == Aplica(old(Est()), Passo.Restart(t, agora))
    {
      if t.invalidated {
        return true;
      }
      t.absolute_to := agora + t.relative_to;
      if t !in pending {
        pending := pending + [t];
      }
      InvMantido(old(Est()), Passo.Restart(t, agora));
      assert Est() == Aplica(old(Est()), Passo.Restart(t, agora));
      return false;
    }

    method Reset(t: Timeout, relative_to: real, agora: real) returns (erro: bool)
      requires Valid() && t in timeouts
      modifies `pending, t`absolute_to, t`relative_to
      ensures Valid()
      ensures erro == Levanta(old(Est()), Passo.Reset(t, relative_to, agora))
      ensures Est() == Aplica(old(Est()), Passo.Reset(t, relative_to, agora))
    {
      if t.invalidated {
        return true;
      }
      t.relative_to := relative_to;
      t.absolute_to := agora + t.relative_to;
      if t !in pending {
        pending := pending + [t];
      }
      InvMantido(old(Est()), Passo.Reset(t, relative_to, agora));
      assert Est() == Aplica(old(Est()), Passo.Reset(t, relative_to, agora));
      return false;
    }

    /** Removes a timeout from the dictionary; the others keep their order. */
    method Remove(t: Timeout)
      requires SemRepetidos(pending) && t in pending
      modifies `pending
      ensures pending == Sem(old(pending), t)
    {
      var k := 0;
      while pending[k] != t
        invariant k < |pending| && t in pending[k..]
        decreases |pending| - k
      {
        assert pending[k..] == [pending[k]] + pending[k + 1..];
        k := k + 1;
      }
      SemEm(pending, k);
      pending := pending[..k] + pending[k + 1..];
    }

    /** Whether it was pending; None when the call raises. */
    method Cancel(t: Timeout) returns (vivo: Option<bool>)
      requires Valid() && t in timeouts
      modifies `pending
      ensures Valid()
      ensures vivo == if Levanta(old(Est()), Passo.Cancel(t)) then None else Some(t in old(pending))
      ensures Est() == Aplica(old(Est()), Passo.Cancel(t))
    {
      if t.invalidated {
        return None;
      }
      InvMantido(Est(), Passo.Cancel(t));
      vivo := Some(t in pending);
      if t in pending {
        Remove(t);
      }
    }

    method Next(agora: real) returns (escolhido: Option<Timeout>)
      requires Valid()
      ensures var p := Proximo(pending, Est().dados, agora + HORIZONTE);
              escolhido == if p.Some? then Some(pending[p.value]) else None
    {
      var to := agora + HORIZONTE;
      escolhido := None;
      ghost var dados := Est().dados;
      ghost var p: Option<nat> := None;
      for i := 0 to |pending|
        invariant p == Proximo(pending[..i], dados, agora + HORIZONTE)
        invariant escolhido == if p.Some? then Some(pending[p.value]) else None
        invariant to == if p.Some? then dados[pending[p.value]].absolute_to else agora + HORIZONTE
      {
        assert pending[..i + 1][..i] == pending[..i];
        assert dados[pending[i]] == pending[i].Campos();
        if pending[i].absolute_to < to {
          to := pending[i].absolute_to;
          escolhido := Some(pending[i]);
          p := Some(i);
        }
      }
      assert pending[..|pending|] == pending;
    }

    /** Runs at most one timeout; its callback is called after this. */
    method Handle(agora: real) returns (disparado: Option<Timeout>)
      requires Valid()
      modifies `pending
      ensures Valid()
      ensures disparado == Devido(old(Est()), agora)
      ensures Est() == Aplica(old(Est()), Passo.Handle(agora))
    {
      InvMantido(Est(), Passo.Handle(agora));
      ghost var p := Proximo(pending, Est().dados, agora + HORIZONTE);
      assert p.Some? ==> Est().dados[pending[p.value]] == pending[p.value].Campos();
      disparado := Next(agora);
      if disparado.None? || disparado.value.absolute_to > agora {
        return None;
      }
      Remove(disparado.value);
    }

    /** Invalidating for a second time raises. */
    method InvalidateAndRemove(t: Timeout)
      requires SemRepetidos(pending) && t in pending && !t.invalidated
      modifies `pending, t`invalidated
      ensures pending == Sem(old(pending), t) && t.invalidated
    {
      t.invalidated := true;
      Remove(t);
    }

    /** Invalidates each timeout it removes, none for a second time. */
    method CancelAndInvalByOwner(owner: Handler, ghost dados: map<Timeout, Dados<Handler>>)
      requires SemRepetidos(pending) && forall t :: t in pending ==> t in timeouts && !t.invalidated
      requires forall t :: t in pending ==> t in dados && dados[t].owner == t.owner
      modifies `pending, timeouts`invalidated
      ensures pending == SemDono(old(pending), dados, owner)
      ensures forall t :: t in timeouts ==>
                t.Campos() == old(t.Campos()).(invalidated :=
                  old(t.invalidated) || (t in old(pending) && t.owner == Some(owner)))
    {
      var candidatos := pending;
      SemDonoVazio(dados, owner);
      hide SemDono, Sem, SemRepetidos;
      for i := 0 to |candidatos|
        invariant SemRepetidos(pending) && pending == SemDono(candidatos[..i], dados, owner) + candidatos[i..]
        invariant forall k :: 0 <= k < i ==> candidatos[k].invalidated == (candidatos[k].owner == Some(owner))
        invariant forall k :: i <= k < |candidatos| ==> !candidatos[k].invalidated
        invariant forall t :: t in timeouts && t !in candidatos ==> t.invalidated == old(t.invalidated)
      {
        SemDonoPasso(candidatos, dados, owner, i, pending);
        Outros(candidatos, i);
        if candidatos[i].owner == Some(owner) {
          InvalidateAndRemove(candidatos[i]);
        }
      }
      assert candidatos[..|candidatos|] == candidatos;
    }

    /** A second call raises. */
    method Destroy(h: Handler) returns (erro: bool)
      requires Valid() && h in items + destruidos
      modifies `pending, `items, `destruidos, timeouts`invalidated, h`destroyed
      ensures Valid()
      ensures erro == Levanta(old(Est()), Passo.Destroy(h))
      ensures Est() == Aplica(old(Est()), Passo.Destroy(h))
    {
      if h.destroyed {
        return true;
      }
      ghost var s := Est();
      assert && SemRepetidos(pending) && h !in destruidos
             && forall t :: t in pending ==> t in timeouts && !t.invalidated;
      InvMantido(s, Passo.Destroy(h));
      h.destroyed := true;
      items, destruidos := items - {h}, destruidos + {h};
      assert Marcados();
      hide SemDono, SemRepetidos, Inv, Destruido, Marcados;
      CancelAndInvalByOwner(h, s.dados);
      DestruidoQuando(s, h, Est());
      assert Est() == Aplica(s, Passo.Destroy(h));
      return false;
    }
  }
}
