/** The reducer helpers of src/redux/elemento-reducer-util.ts: the undo and
    redo history push, the amendment predicates, the choice of the nodes to
    re-validate after an edit, and the event batches built for a removal and
    for a transformation. The text recognisers of the same file are in
    module Indicativos. */
module ReducerUtil {
  import opened Tipos
  import opened Dispositivos
  import opened Estado
  import opened Texto
  import opened Indicativos
  import opened ConteudoValidator

  // -----------------------------------------------------------------------
  // Undo / redo history
  // -----------------------------------------------------------------------

  /** The module-level counter that guards eviction: it is never changed. */
  const Count: int := 0

  /** The history bound the guard compares against. */
  const LimiteHistorico: nat := 50

  /** An absent history counts as an empty one. */
  function Base(historico: Option<Historico>): Historico {
    if historico.Some? then historico.value else []
  }

  /** buildPast / buildFuture as written: the batch is appended, and since
      the guard compares the constant `Count` the eviction branch is never
      taken, so nothing is ever dropped. */
  function RegistraComoEscrito(historico: Option<Historico>, eventos: seq<StateEvent>): (r: Historico)
    ensures |r| == |Base(historico)| + 1
    ensures r[..|Base(historico)|] == Base(historico) && r[|Base(historico)|] == eventos
  {
    assert !(Count > LimiteHistorico);
    Base(historico) + [eventos]
  }

  /** buildPast as written: the past grows by the new batch, whatever its
      length. */
  function BuildPastComoEscrito(state: ElementoState, eventos: seq<StateEvent>): (r: Historico)
    ensures |r| == |Base(state.past)| + 1
    ensures r[..|Base(state.past)|] == Base(state.past) && r[|r| - 1] == eventos
  {
    RegistraComoEscrito(state.past, eventos)
  }

  /** buildFuture as written: the same push on the future. */
  function BuildFutureComoEscrito(state: ElementoState, eventos: seq<StateEvent>): (r: Historico)
    ensures |r| == |Base(state.future)| + 1
    ensures r[..|Base(state.future)|] == Base(state.future) && r[|r| - 1] == eventos
  {
    RegistraComoEscrito(state.future, eventos)
  }

  /** A history at the bound grows past it when the code as written pushes
      one more batch. */
  lemma HistoricoUltrapassaLimite(state: ElementoState, eventos: seq<StateEvent>)
    requires |Base(state.past)| == LimiteHistorico
    ensures |BuildPastComoEscrito(state, eventos)| == LimiteHistorico + 1
  {
  }

  /** The push with the eviction the guard was meant to perform: the batch
      is appended and, once the history holds more than the bound, the
      oldest batch is dropped. */
  function Registra(historico: Option<Historico>, eventos: seq<StateEvent>): (r: Historico)
    ensures |r| > 0 && r[|r| - 1] == eventos
    ensures |r| <= |Base(historico)| + 1
    ensures r == (Base(historico) + [eventos])[|Base(historico)| + 1 - |r|..]
  {
    var h := Base(historico) + [eventos];
    if |h| > LimiteHistorico then h[1..] else h
  }

  /** buildPast with the intended eviction: the new batch is the latest, a
      past within the bound stays within it, and below the bound nothing is
      dropped. */
  function BuildPast(state: ElementoState, eventos: seq<StateEvent>): (r: Historico)
    ensures |r| > 0 && r[|r| - 1] == eventos
    ensures |Base(state.past)| <= LimiteHistorico ==> |r| <= LimiteHistorico
    ensures |Base(state.past)| < LimiteHistorico ==> r == Base(state.past) + [eventos]
  {
    Registra(state.past, eventos)
  }

  /** buildFuture with the intended eviction, on the future. */
  function BuildFuture(state: ElementoState, eventos: seq<StateEvent>): (r: Historico)
    ensures |r| > 0 && r[|r| - 1] == eventos
    ensures |Base(state.future)| <= LimiteHistorico ==> |r| <= LimiteHistorico
    ensures |Base(state.future)| < LimiteHistorico ==> r == Base(state.future) + [eventos]
  {
    Registra(state.future, eventos)
  }

  /** Below the bound nothing is dropped; at the bound exactly the oldest
      batch is. */
  lemma RegistraSoDescartaNoLimite(historico: Option<Historico>, eventos: seq<StateEvent>)
    ensures |Base(historico)| < LimiteHistorico ==> Registra(historico, eventos) == Base(historico) + [eventos]
    ensures |Base(historico)| == LimiteHistorico ==> Registra(historico, eventos) == Base(historico)[1..] + [eventos]
  {
  }

  /** Pushes a run of batches, one after the other. */
  function RegistraTodos(historico: Historico, lotes: seq<seq<StateEvent>>): (r: Historico)
    ensures |lotes| > 0 ==> |r| > 0 && r[|r| - 1] == lotes[|lotes| - 1]
    decreases |lotes|
  {
    if |lotes| == 0 then historico
    else RegistraTodos(Registra(Some(historico), lotes[0]), lotes[1..])
  }

  /** However many batches are pushed, a history within the bound stays
      within it. */
  lemma {:induction false} HistoricoLimitado(historico: Historico, lotes: seq<seq<StateEvent>>)
    requires |historico| <= LimiteHistorico
    ensures |RegistraTodos(historico, lotes)| <= LimiteHistorico
    decreases |lotes|
  {
    if |lotes| > 0 {
      HistoricoLimitado(Registra(Some(historico), lotes[0]), lotes[1..]);
    }
  }

  /** The code as written grows the history by exactly one batch per push. */
  lemma {:induction false} HistoricoComoEscritoCresce(historico: Historico, lotes: seq<seq<StateEvent>>)
    ensures |RegistraTodosComoEscrito(historico, lotes)| == |historico| + |lotes|
    decreases |lotes|
  {
    if |lotes| > 0 {
      HistoricoComoEscritoCresce(RegistraComoEscrito(Some(historico), lotes[0]), lotes[1..]);
    }
  }

  function RegistraTodosComoEscrito(historico: Historico, lotes: seq<seq<StateEvent>>): Historico
    decreases |lotes|
  {
    if |lotes| == 0 then historico
    else RegistraTodosComoEscrito(RegistraComoEscrito(Some(historico), lotes[0]), lotes[1..])
  }

  // -----------------------------------------------------------------------
  // Amendment predicates
  // -----------------------------------------------------------------------

  /** The articulation that encloses a node: the root of the document, or
      the articulation of an amendment block, which has a parent. */
  datatype Articulacao = Articulacao(pai: Option<NoId>)

  /** isArticulacaoAlteracao: the articulation belongs to an amendment
      block exactly when it has a parent. */
  predicate IsArticulacaoAlteracao(a: Articulacao) {
    a.pai.Some?
  }

  /** The children of each node. */
  type Estrutura = map<NoId, seq<NoId>>

  function Filhos(e: Estrutura, n: NoId): seq<NoId> {
    if n in e then e[n] else []
  }

  /** What the hierarchy queries, the factory and the validator answer
      about the nodes; none of them is part of this model. The queries that
      depend on the shape of the tree receive the current children map, so
      after a node is detached they are asked again about the new shape.
      `articulacaoDe` is `None` when the upward traversal throws. */
  datatype Arvore = Arvore(
    tipo: NoId -> Tipo,
    pai: NoId -> NoId,                                  // d.pai!
    deArtigo: NoId -> bool,                             // isDispositivoDeArtigo
    generico: NoId -> bool,                             // isDispositivoGenerico
    marcadoAlteracao: NoId -> bool,                     // dispositivo.isDispositivoAlteracao
    articulacaoDe: (Estrutura, NoId) -> Option<Articulacao>, // getArticulacao
    irmaosMesmoTipo: (Estrutura, NoId) -> seq<NoId>,
    artigoUnico: (Estrutura, NoId) -> bool,
    paragrafoUnico: (Estrutura, NoId) -> bool,
    anterior: (Estrutura, NoId) -> Option<NoId>,        // getDispositivoAnterior
    elementos: (Estrutura, NoId) -> seq<Elemento>,      // getElementos
    renumerados: (Estrutura, NoId) -> seq<NoId>,        // listaDispositivosRenumerados
    artigos: Estrutura -> seq<NoId>,                    // articulacao.artigos
    valida: (Estrutura, NoId) -> seq<Mensagem>)         // validaDispositivo

  /** isDispositivoAlteracao: the node's own mark decides when set;
      otherwise the node is an amendment provision exactly when its
      articulation has a parent, and a traversal that throws answers no. */
  predicate IsDispositivoAlteracao(arv: Arvore, e: Estrutura, n: NoId) {
    arv.marcadoAlteracao(n) ||
    match arv.articulacaoDe(e, n)
    case None => false
    case Some(a) => IsArticulacaoAlteracao(a)
  }

  /** isNovoDispositivoDesmembrandoAtual: a split leaves text behind for a
      new provision exactly when that text is present and not empty. */
  predicate IsNovoDispositivoDesmembrandoAtual(texto: Option<string>)
    ensures texto.Some? && !TodosEspacos(texto.value) ==> IsNovoDispositivoDesmembrandoAtual(texto)
  {
    texto.Some? && texto.value != ""
  }

  /** A split that makes no new provision leaves a text the validator would
      reject as blank; one that does make a provision leaves a text the
      validator rejects exactly when it is all white space. */
  lemma DesmembraSoComTextoValido(d: Dispositivo, k: Textos)
    requires !IsAgrupador(d.tipo)
    ensures !IsNovoDispositivoDesmembrandoAtual(Some(d.texto)) ==> MensagemDe(SemTexto) in ValidaTexto(d, k)
    ensures IsNovoDispositivoDesmembrandoAtual(Some(d.texto)) ==>
              (MensagemDe(SemTexto) in ValidaTexto(d, k) <==> TodosEspacos(d.texto))
    ensures !IsNovoDispositivoDesmembrandoAtual(None)
  {
    SemTextoSoEmBranco(d, k);
  }

  // -----------------------------------------------------------------------
  // Re-validation of the affected nodes
  // -----------------------------------------------------------------------

  /** The messages stored on a node (`dispositivo.mensagens`); an absent
      list counts as empty. */
  function Armazenadas(mensagens: map<NoId, seq<Mensagem>>, n: NoId): seq<Mensagem> {
    if n in mensagens then mensagens[n] else []
  }

  /** The list being filled and the messages stored on the nodes, which
      the validation overwrites. */
  datatype Validacao = Validacao(validados: seq<Elemento>, mensagens: map<NoId, seq<Mensagem>>)

  /** Every element carries the messages the validator gives its node. */
  predicate Frescos(arv: Arvore, e: Estrutura, s: seq<Elemento>) {
    forall k | 0 <= k < |s| :: s[k].mensagens == arv.valida(e, s[k].no)
  }

  /** criaElementoValidado: a node is reported when the validator finds
      something or it carried messages before (so that stale messages get
      cleared); its stored messages become the fresh ones either way. */
  function CriaElementoValidado(arv: Arvore, e: Estrutura, v: Validacao, n: NoId, incluiAcoes: bool): (r: Validacao)
    ensures |v.validados| <= |r.validados| <= |v.validados| + 1
    ensures r.validados[..|v.validados|] == v.validados
    ensures |r.validados| > |v.validados| <==>
              |arv.valida(e, n)| > 0 || |Armazenadas(v.mensagens, n)| > 0
    ensures |r.validados| > |v.validados| ==>
              r.validados[|v.validados|] == Elemento(n, arv.valida(e, n), incluiAcoes)
    ensures Armazenadas(r.mensagens, n) == arv.valida(e, n)
    ensures forall m | m != n :: Armazenadas(r.mensagens, m) == Armazenadas(v.mensagens, m)
  {
    var mensagens := arv.valida(e, n);
    if |mensagens| > 0 || |Armazenadas(v.mensagens, n)| > 0 then
      Validacao(v.validados + [Elemento(n, mensagens, incluiAcoes)], v.mensagens[n := mensagens])
    else
      v
  }

  /** A `forEach` of criaElementoValidado over `ns`, skipping `excluido`. */
  function CriaTodos(arv: Arvore, e: Estrutura, v: Validacao, ns: seq<NoId>, incluiAcoes: bool,
                     excluido: Option<NoId>): (r: Validacao)
    ensures |v.validados| <= |r.validados|
    ensures r.validados[..|v.validados|] == v.validados
    decreases |ns|
  {
    if |ns| == 0 then v
    else
      var v1 := if excluido == Some(ns[0]) then v else CriaElementoValidado(arv, e, v, ns[0], incluiAcoes);
      CriaTodos(arv, e, v1, ns[1..], incluiAcoes, excluido)
  }

  /** The loop adds elements of the listed nodes only, never of the
      skipped one. */
  lemma {:induction false} CriaTodosSoDosListados(arv: Arvore, e: Estrutura, v: Validacao, ns: seq<NoId>,
                                                  incluiAcoes: bool, excluido: Option<NoId>)
    ensures forall k | |v.validados| <= k < |CriaTodos(arv, e, v, ns, incluiAcoes, excluido).validados| ::
              && CriaTodos(arv, e, v, ns, incluiAcoes, excluido).validados[k].no in ns
              && excluido != Some(CriaTodos(arv, e, v, ns, incluiAcoes, excluido).validados[k].no)
    decreases |ns|
  {
    if |ns| > 0 {
      var v1 := if excluido == Some(ns[0]) then v else CriaElementoValidado(arv, e, v, ns[0], incluiAcoes);
      CriaTodosSoDosListados(arv, e, v1, ns[1..], incluiAcoes, excluido);
      var r := CriaTodos(arv, e, v, ns, incluiAcoes, excluido);
      forall k | |v.validados| <= k < |r.validados|
        ensures r.validados[k].no in ns && excluido != Some(r.validados[k].no)
      {
        if k < |v1.validados| {
          assert r.validados[k] == v1.validados[k];
        } else {
          assert r.validados[k].no in ns[1..];
        }
      }
    }
  }

  /** The loop keeps every element fresh. */
  lemma {:induction false} CriaTodosFrescos(arv: Arvore, e: Estrutura, v: Validacao, ns: seq<NoId>,
                                            incluiAcoes: bool, excluido: Option<NoId>)
    requires Frescos(arv, e, v.validados)
    ensures Frescos(arv, e, CriaTodos(arv, e, v, ns, incluiAcoes, excluido).validados)
    decreases |ns|
  {
    if |ns| > 0 {
      var v1 := if excluido == Some(ns[0]) then v else CriaElementoValidado(arv, e, v, ns[0], incluiAcoes);
      CriaFrescos(arv, e, v, ns[0], incluiAcoes);
      CriaTodosFrescos(arv, e, v1, ns[1..], incluiAcoes, excluido);
    }
  }

  /** One call keeps every element fresh. */
  lemma CriaFrescos(arv: Arvore, e: Estrutura, v: Validacao, n: NoId, incluiAcoes: bool)
    requires Frescos(arv, e, v.validados)
    ensures Frescos(arv, e, CriaElementoValidado(arv, e, v, n, incluiAcoes).validados)
  {
    var r := CriaElementoValidado(arv, e, v, n, incluiAcoes);
    forall k | 0 <= k < |r.validados|
      ensures r.validados[k].mensagens == arv.valida(e, r.validados[k].no)
    {
      if k < |v.validados| {
        assert r.validados[k] == r.validados[..|v.validados|][k];
      }
    }
  }

  /** The omission children of a node, in order. */
  function FilhosOmissis(arv: Arvore, ns: seq<NoId>): (r: seq<NoId>)
    ensures |r| <= |ns|
    decreases |ns|
  {
    if |ns| == 0 then []
    else if arv.tipo(ns[0]).Omissis? then [ns[0]] + FilhosOmissis(arv, ns[1..])
    else FilhosOmissis(arv, ns[1..])
  }

  /** The nodes kept are exactly the omission children. */
  lemma {:induction false} FilhosOmissisContem(arv: Arvore, ns: seq<NoId>, x: NoId)
    ensures x in FilhosOmissis(arv, ns) <==> x in ns && arv.tipo(x).Omissis?
    decreases |ns|
  {
    if |ns| > 0 {
      FilhosOmissisContem(arv, ns[1..], x);
      assert ns == [ns[0]] + ns[1..];
    }
  }

  /** The node whose validation follows a change in an article's
      provision: the article above a caput inciso, the parent otherwise. */
  function Superior(arv: Arvore, n: NoId): NoId {
    if arv.tipo(n).IncisoCaput? then arv.pai(arv.pai(n)) else arv.pai(n)
  }

  /** An amendment provision with omission children: it and those children
      are re-validated. */
  predicate AlteracaoComOmissis(arv: Arvore, e: Estrutura, n: NoId) {
    IsDispositivoAlteracao(arv, e, n) && |Filhos(e, n)| > 0 && |FilhosOmissis(arv, Filhos(e, n))| > 0
  }

  /** First step of validaDispositivosAfins. */
  function ValidaOmissis(arv: Arvore, e: Estrutura, v: Validacao, n: NoId): (r: Validacao)
    ensures AlteracaoComOmissis(arv, e, n) ==> |r.validados| > 0 || |arv.valida(e, n)| == 0
    ensures !AlteracaoComOmissis(arv, e, n) ==> r == v
  {
    if AlteracaoComOmissis(arv, e, n) then
      CriaTodos(arv, e, CriaElementoValidado(arv, e, v, n, false), FilhosOmissis(arv, Filhos(e, n)), false, None)
    else v
  }

  /** The enclosing provision is validated, and once more when it is an
      agglomerator. */
  function ValidaSuperior(arv: Arvore, e: Estrutura, v: Validacao, sup: NoId): (r: Validacao)
    ensures |v.validados| <= |r.validados| <= |v.validados| + 2
    ensures r.validados[..|v.validados|] == v.validados
    ensures forall k | |v.validados| <= k < |r.validados| :: r.validados[k].no == sup
  {
    var v1 := CriaElementoValidado(arv, e, v, sup, false);
    if IsAgrupador(arv.tipo(sup)) then CriaElementoValidado(arv, e, v1, sup, false) else v1
  }

  /** Second step of validaDispositivosAfins: the enclosing provision
      (twice when it is an agglomerator) and the same-kind siblings for a
      provision of an article or a generic one; the node alone otherwise. */
  function ValidaVizinhos(arv: Arvore, e: Estrutura, v: Validacao, n: NoId, incluiDispositivo: bool): Validacao {
    if arv.deArtigo(n) || arv.generico(n) then
      var v1 := ValidaSuperior(arv, e, v, Superior(arv, n));
      CriaTodos(arv, e, v1, arv.irmaosMesmoTipo(e, n), true, if incluiDispositivo then None else Some(n))
    else if incluiDispositivo && !IsAgrupador(arv.tipo(n)) then
      CriaElementoValidado(arv, e, v, n, true)
    else v
  }

  /** validaDispositivosAfins: the elements to re-render after a change to
      `d`, and the messages stored on the nodes afterwards. */
  function ValidaDispositivosAfins(arv: Arvore, e: Estrutura, mensagens: map<NoId, seq<Mensagem>>,
                                   d: Option<NoId>, incluiDispositivo: bool): (r: Validacao)
    ensures d.None? ==> r.validados == []
  {
    if d.None? then Validacao([], mensagens)
    else
      var v := ValidaOmissis(arv, e, Validacao([], mensagens), d.value);
      ValidaVizinhos(arv, e, v, d.value, incluiDispositivo)
  }

  /** An amendment provision with an omission child is validated first,
      without actions, even when the caller leaves it out
      (`incluiDispositivo` false), provided the validator finds something
      or it carried messages. */
  lemma AlteracaoValidaOProprio(arv: Arvore, e: Estrutura, mensagens: map<NoId, seq<Mensagem>>,
                                n: NoId, x: NoId, incluiDispositivo: bool)
    requires IsDispositivoAlteracao(arv, e, n)
    requires x in Filhos(e, n) && arv.tipo(x).Omissis?
    requires |arv.valida(e, n)| > 0 || |Armazenadas(mensagens, n)| > 0
    ensures |ValidaDispositivosAfins(arv, e, mensagens, Some(n), incluiDispositivo).validados| > 0
    ensures ValidaDispositivosAfins(arv, e, mensagens, Some(n), incluiDispositivo).validados[0] ==
              Elemento(n, arv.valida(e, n), false)
  {
    FilhosOmissisContem(arv, Filhos(e, n), x);
    assert AlteracaoComOmissis(arv, e, n);
    var v0 := CriaElementoValidado(arv, e, Validacao([], mensagens), n, false);
    assert v0.validados == [Elemento(n, arv.valida(e, n), false)];
    var v := ValidaOmissis(arv, e, Validacao([], mensagens), n);
    assert v.validados[..1] == v0.validados;
    var r := ValidaVizinhos(arv, e, v, n, incluiDispositivo);
    if arv.deArtigo(n) || arv.generico(n) {
      var v1 := ValidaSuperior(arv, e, v, Superior(arv, n));
      assert v1.validados[..|v.validados|] == v.validados;
      assert r.validados[..|v1.validados|] == v1.validados;
      assert r.validados[0] == v1.validados[0] == v.validados[0];
    } else {
      assert r.validados[..|v.validados|] == v.validados;
      assert r.validados[0] == v.validados[0];
    }
  }

  /** Every element reported carries the fresh messages of its node. */
  lemma ValidaAfinsFrescos(arv: Arvore, e: Estrutura, mensagens: map<NoId, seq<Mensagem>>,
                           d: Option<NoId>, incluiDispositivo: bool)
    ensures Frescos(arv, e, ValidaDispositivosAfins(arv, e, mensagens, d, incluiDispositivo).validados)
  {
    if d.Some? {
      var n := d.value;
      var v0 := Validacao([], mensagens);
      if AlteracaoComOmissis(arv, e, n) {
        CriaFrescos(arv, e, v0, n, false);
        CriaTodosFrescos(arv, e, CriaElementoValidado(arv, e, v0, n, false), FilhosOmissis(arv, Filhos(e, n)), false, None);
      }
      var v := ValidaOmissis(arv, e, v0, n);
      if arv.deArtigo(n) || arv.generico(n) {
        var sup := Superior(arv, n);
        var v1 := CriaElementoValidado(arv, e, v, sup, false);
        CriaFrescos(arv, e, v, sup, false);
        CriaFrescos(arv, e, v1, sup, false);
        CriaTodosFrescos(arv, e, ValidaSuperior(arv, e, v, sup), arv.irmaosMesmoTipo(e, n), true,
                         if incluiDispositivo then None else Some(n));
      } else if incluiDispositivo && !IsAgrupador(arv.tipo(n)) {
        CriaFrescos(arv, e, v, n, true);
      }
    }
  }

  /** Without `incluiDispositivo`, a provision of an article that is not an
      amendment provision with omission children, and is not its own
      superior, is never among the elements reported. */
  lemma SemOProprioDispositivo(arv: Arvore, e: Estrutura, mensagens: map<NoId, seq<Mensagem>>, n: NoId)
    requires !AlteracaoComOmissis(arv, e, n) && Superior(arv, n) != n
    ensures forall k | 0 <= k < |ValidaDispositivosAfins(arv, e, mensagens, Some(n), false).validados| ::
              ValidaDispositivosAfins(arv, e, mensagens, Some(n), false).validados[k].no != n
  {
    if arv.deArtigo(n) || arv.generico(n) {
      var v1 := ValidaSuperior(arv, e, Validacao([], mensagens), Superior(arv, n));
      CriaTodosSoDosListados(arv, e, v1, arv.irmaosMesmoTipo(e, n), true, Some(n));
      var r := CriaTodos(arv, e, v1, arv.irmaosMesmoTipo(e, n), true, Some(n));
      forall k | 0 <= k < |r.validados|
        ensures r.validados[k].no != n
      {
        if k < |v1.validados| {
          assert r.validados[k] == r.validados[..|v1.validados|][k];
        }
      }
    }
  }

  /** A node outside any article, not an agglomerator, with no amendment
      omission children, is reported by itself when its validation finds
      something or it carried messages. */
  lemma DispositivoAvulso(arv: Arvore, e: Estrutura, mensagens: map<NoId, seq<Mensagem>>, n: NoId)
    requires !AlteracaoComOmissis(arv, e, n) && !arv.deArtigo(n) && !arv.generico(n)
    requires !IsAgrupador(arv.tipo(n))
    ensures ValidaDispositivosAfins(arv, e, mensagens, Some(n), true).validados ==
              if |arv.valida(e, n)| > 0 || |Armazenadas(mensagens, n)| > 0
              then [Elemento(n, arv.valida(e, n), true)] else []
  {
  }

  // -----------------------------------------------------------------------
  // Event batches
  // -----------------------------------------------------------------------

  /** An event batch under construction: the reference element and the
      entries added so far, in order. */
  datatype Eventos = Eventos(referencia: Option<Elemento>, eventos: seq<StateEvent>)

  function Add(ev: Eventos, tipo: StateType, elementos: seq<Elemento>): Eventos {
    ev.(eventos := ev.eventos + [StateEvent(tipo, None, Some(elementos))])
  }

  /** The kinds of the entries, in order. */
  function TiposDe(ev: Eventos): (r: seq<StateType>)
    ensures |r| == |ev.eventos|
  {
    seq(|ev.eventos|, i requires 0 <= i < |ev.eventos| => ev.eventos[i].stateType)
  }

  /** buildEventoExclusaoElemento: removed, then renumbered, then
      validated, each with the list it was given. */
  function BuildEventoExclusaoElemento(removidos: seq<Elemento>, renumerados: seq<Elemento>,
                                       validados: seq<Elemento>): (r: Eventos)
    ensures TiposDe(r) == [ElementoRemovido, ElementoRenumerado, ElementoValidado]
    ensures r.eventos[0].elementos == Some(removidos)
    ensures r.eventos[1].elementos == Some(renumerados)
    ensures r.eventos[2].elementos == Some(validados)
    ensures r.referencia.None?
  {
    Add(Add(Add(Eventos(None, []), ElementoRemovido, removidos), ElementoRenumerado, renumerados),
        ElementoValidado, validados)
  }

  /** The elements that carry messages, in order. */
  function ComMensagens(s: seq<Elemento>): (r: seq<Elemento>)
    ensures |r| <= |s|
    decreases |s|
  {
    if |s| == 0 then []
    else if |s[0].mensagens| > 0 then [s[0]] + ComMensagens(s[1..])
    else ComMensagens(s[1..])
  }

  /** Exactly the elements with messages are kept. */
  lemma {:induction false} ComMensagensContem(s: seq<Elemento>, x: Elemento)
    ensures x in ComMensagens(s) <==> x in s && |x.mensagens| > 0
    decreases |s|
  {
    if |s| > 0 {
      ComMensagensContem(s[1..], x);
      assert s == [s[0]] + s[1..];
    }
  }

  /** A list whose elements all carry messages is kept whole. */
  lemma {:induction false} ComMensagensDeTodos(s: seq<Elemento>)
    requires forall k | 0 <= k < |s| :: |s[k].mensagens| > 0
    ensures ComMensagens(s) == s
    decreases |s|
  {
    if |s| > 0 {
      ComMensagensDeTodos(s[1..]);
    }
  }

  /** buildEventoTransformacaooElemento: the reference element, then
      included, removed, renumbered and validated entries, the validated
      ones restricted to elements that carry messages. The reference
      (`createElemento(ajustaReferencia(atual, novo))`) and the included
      elements (`getElementos(novo)`) come from code outside this model. */
  function BuildEventoTransformacaoElemento(referencia: Elemento, incluidos: seq<Elemento>,
                                            removidos: seq<Elemento>, renumerados: seq<Elemento>,
                                            validados: seq<Elemento>): (r: Eventos)
    ensures r.referencia == Some(referencia)
    ensures TiposDe(r) == [ElementoIncluido, ElementoRemovido, ElementoRenumerado, ElementoValidado]
    ensures r.eventos[0].elementos == Some(incluidos)
    ensures r.eventos[1].elementos == Some(removidos)
    ensures r.eventos[2].elementos == Some(renumerados)
    ensures r.eventos[3].elementos == Some(ComMensagens(validados))
  {
    var ev := Eventos(Some(referencia), []);
    Add(Add(Add(Add(ev, ElementoIncluido, incluidos), ElementoRemovido, removidos),
            ElementoRenumerado, renumerados), ElementoValidado, ComMensagens(validados))
  }

  /** The validated entry of a transformation holds exactly the given
      elements that carry messages. */
  lemma TransformacaoValidaComMensagens(referencia: Elemento, incluidos: seq<Elemento>,
                                        removidos: seq<Elemento>, renumerados: seq<Elemento>,
                                        validados: seq<Elemento>, x: Elemento)
    ensures x in BuildEventoTransformacaoElemento(referencia, incluidos, removidos, renumerados, validados).eventos[3].elementos.value
            <==> x in validados && |x.mensagens| > 0
  {
    ComMensagensContem(validados, x);
  }

  /** Removes the first occurrence of `x` (removeFilho). */
  function Retira(s: seq<NoId>, x: NoId): (r: seq<NoId>)
    ensures multiset(r) == multiset(s) - multiset{x}
    decreases |s|
  {
    if |s| == 0 then []
    else if s[0] == x then
      assert s == [s[0]] + s[1..];
      s[1..]
    else
      assert s == [s[0]] + s[1..];
      [s[0]] + Retira(s[1..], x)
  }

  /** Removing the only occurrence leaves no occurrence behind. */
  lemma RetiraUnico(s: seq<NoId>, x: NoId)
    requires multiset(s)[x] <= 1
    ensures x !in Retira(s, x)
  {
    assert multiset(Retira(s, x))[x] == 0;
  }

  /** The element created for a node outside a validation: its stored
      messages, without actions (createElemento). */
  function CriaElemento(mensagens: map<NoId, seq<Mensagem>>, n: NoId): Elemento {
    Elemento(n, Armazenadas(mensagens, n), false)
  }

  function CriaElementos(mensagens: map<NoId, seq<Mensagem>>, ns: seq<NoId>): (r: seq<Elemento>)
    ensures |r| == |ns|
  {
    seq(|ns|, i requires 0 <= i < |ns| => CriaElemento(mensagens, ns[i]))
  }

  /** The node re-validated after a removal: the previous node when it is
      now a sole article or sole paragraph, else the article of a removed
      caput child, else the parent. */
  function AlvoDaValidacao(arv: Arvore, depois: Estrutura, anterior: Option<NoId>, pai: NoId): NoId {
    if anterior.Some? && (arv.artigoUnico(depois, anterior.value) || arv.paragrafoUnico(depois, anterior.value))
    then anterior.value
    else if arv.tipo(pai).Caput? then arv.pai(pai)
    else pai
  }

  /** What a removal leaves: the new children map, the messages stored on
      the nodes, and the event batch. */
  datatype Remocao = Remocao(filhos: Estrutura, mensagens: map<NoId, seq<Mensagem>>, eventos: Eventos)

  /** removeAndBuildEvents: the removed subtree's elements, the renumbered
      provisions (plus the only article, when one is left) and the
      re-validation around the node, all read after the node has been
      detached from its parent. Renumbering (`renumeraFilhos`) changes
      labels only, which this model does not hold. */
  function RemoveAndBuildEvents(arv: Arvore, e: Estrutura, mensagens: map<NoId, seq<Mensagem>>, d: NoId): (r: Remocao)
    ensures TiposDe(r.eventos) == [ElementoRemovido, ElementoRenumerado, ElementoValidado]
    ensures r.eventos.eventos[0].elementos == Some(arv.elementos(e, d))
    ensures r.filhos == e[arv.pai(d) := Retira(Filhos(e, arv.pai(d)), d)]
  {
    var removidos := arv.elementos(e, d);
    var renumerados := arv.renumerados(e, d);
    var anterior := arv.anterior(e, d);
    var pai := arv.pai(d);
    var depois := e[pai := Retira(Filhos(e, pai), d)];
    var modificados := CriaElementos(mensagens, renumerados) +
                       (if |arv.artigos(depois)| == 1 then [CriaElemento(mensagens, arv.artigos(depois)[0])] else []);
    var alvo := AlvoDaValidacao(arv, depois, anterior, pai);
    var v := ValidaDispositivosAfins(arv, depois, mensagens, Some(alvo), false);
    Remocao(depois, v.mensagens, BuildEventoExclusaoElemento(removidos, modificados, v.validados))
  }

  /** After a removal the node is no longer a child of its parent (given it
      was listed there at most once), the remaining siblings keep their
      multiplicities, and no other node's children change. */
  lemma RemocaoDesliga(arv: Arvore, e: Estrutura, mensagens: map<NoId, seq<Mensagem>>, d: NoId)
    requires multiset(Filhos(e, arv.pai(d)))[d] <= 1
    ensures d !in Filhos(RemoveAndBuildEvents(arv, e, mensagens, d).filhos, arv.pai(d))
    ensures multiset(Filhos(RemoveAndBuildEvents(arv, e, mensagens, d).filhos, arv.pai(d)))
            == multiset(Filhos(e, arv.pai(d))) - multiset{d}
    ensures forall m | m != arv.pai(d) ::
              Filhos(RemoveAndBuildEvents(arv, e, mensagens, d).filhos, m) == Filhos(e, m)
  {
    RetiraUnico(Filhos(e, arv.pai(d)), d);
  }

  /** The validated entry of a removal is the re-validation of the target
      node on the tree without the removed node, the target itself left
      out of its siblings. */
  lemma RemocaoValidaNaArvoreNova(arv: Arvore, e: Estrutura, mensagens: map<NoId, seq<Mensagem>>, d: NoId)
    ensures var r := RemoveAndBuildEvents(arv, e, mensagens, d);
            var alvo := AlvoDaValidacao(arv, r.filhos, arv.anterior(e, d), arv.pai(d));
            && r.eventos.eventos[2].elementos == Some(ValidaDispositivosAfins(arv, r.filhos, mensagens, Some(alvo), false).validados)
            && Frescos(arv, r.filhos, r.eventos.eventos[2].elementos.value)
  {
    var r := RemoveAndBuildEvents(arv, e, mensagens, d);
    var alvo := AlvoDaValidacao(arv, r.filhos, arv.anterior(e, d), arv.pai(d));
    ValidaAfinsFrescos(arv, r.filhos, mensagens, Some(alvo), false);
  }
}
