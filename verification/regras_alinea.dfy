/** The action rules of an item (alínea) (src/model/lexml/regras/regrasAlinea.ts):
    the actions the editor offers on it, and the conversion chosen by the
    Tab and Shift+Tab keys. */
module RegrasAlinea {
  import opened Tipos
  import opened Dispositivos
  import opened Acoes

  /** The actions in the order the source pushes them. The conversion to an
      inciso is one push whose action depends on the grandparent, so both
      candidates sit at that position. */
  const Ordem: seq<AcaoId> := [
    MoverAbaixo, MoverAcima, Renumerar, IniciarBloco, FinalizarBloco,
    AdicionarAlinea, AdicionarItem,
    TransformarAlineaEmIncisoParagrafo, TransformarAlineaEmIncisoCaput,
    TransformaAlineaEmItem, TransformarEmOmissisAlinea
  ]

  /** Sole or last of its kind among its siblings. */
  predicate UnicoOuUltimo(d: Dispositivo) {
    d.pos.unico || d.pos.ultimo
  }

  /** The guard of each push. */
  predicate Oferece(d: Dispositivo, a: AcaoId) {
    match a
    case MoverAbaixo => d.pos.temPosterior
    case MoverAcima => d.pos.temAnterior
    case Renumerar => d.alt.dispositivoAlteracao && !d.generico
    case IniciarBloco => d.alt.dispositivoAlteracao && d.alt.ultimaAlteracao
    case FinalizarBloco =>
      d.alt.dispositivoAlteracao && d.alt.ultimaAlteracao && d.alt.posterioresAlteracao
    case AdicionarAlinea => d.texto == "" || d.ind.continuacao
    case AdicionarItem => d.texto == "" || d.ind.desdobramento
    case TransformarAlineaEmIncisoParagrafo => UnicoOuUltimo(d) && d.viz.avoParagrafo
    case TransformarAlineaEmIncisoCaput => UnicoOuUltimo(d) && !d.viz.avoParagrafo
    case TransformaAlineaEmItem =>
      !d.pos.primeiro || (d.pos.anterior.Some? && d.pos.anterior.value.Omissis?)
    case TransformarEmOmissisAlinea => d.podeConverterEmOmissis
    case _ => false
  }

  /** The actions whose guard holds. */
  function Ofertadas(d: Dispositivo): set<AcaoId> {
    set a | a in Ordem && Oferece(d, a)
  }

  /** Every action with a guard is in the table. */
  lemma NaOrdem(d: Dispositivo, a: AcaoId)
    ensures Oferece(d, a) ==> a in Ordem
  {
  }

  /** getAcoesPossiveis: nothing for any other kind; otherwise the pushed
      actions, deduplicated, without internal ones, sorted by description. */
  function AcoesPossiveis(cat: Catalogo, d: Dispositivo): (r: seq<AcaoId>)
    ensures !d.tipo.Alinea? ==> r == []
  {
    if !d.tipo.Alinea? then [] else Finaliza(cat, Empilha(Ordem, Ofertadas(d)))
  }

  /** The offers are sorted by description and without duplicates. */
  lemma AcoesOrdenadas(cat: Catalogo, d: Dispositivo)
    ensures Ordenado(cat, AcoesPossiveis(cat, d)) && Distintos(AcoesPossiveis(cat, d))
  {
    if d.tipo.Alinea? {
      FinalizaOrdenado(cat, Empilha(Ordem, Ofertadas(d)));
    }
  }

  /** An action is offered on an item exactly when its guard holds and its
      description is not an internal one. */
  lemma Oferecida(cat: Catalogo, d: Dispositivo, a: AcaoId)
    ensures a in AcoesPossiveis(cat, d) <==>
              d.tipo.Alinea? && Oferece(d, a) && !Interna(cat, a)
  {
    if d.tipo.Alinea? {
      EmpilhaContem(Ordem, Ofertadas(d), a);
      FinalizaContem(cat, Empilha(Ordem, Ofertadas(d)), a);
      NaOrdem(d, a);
    }
  }

  /** getAcaoPossivelTab: only the first allowed child kind is looked at;
      the action is the offered one named after the conversion to it. */
  function AcaoTab(cat: Catalogo, d: Dispositivo): (r: Option<AcaoId>)
    ensures !d.tipo.Alinea? ==> r.None?
  {
    if !d.tipo.Alinea? then None
    else match d.tiposPermitidosFilhos
      case None => None
      case Some(tipos) =>
        if |tipos| == 0 then None
        else Procura(cat, AcoesPossiveis(cat, d), NomeTransformacao(NomeTipo(d.tipo), tipos[0]))
  }

  /** Tab yields nothing, or an offered action named after the conversion
      to the first allowed child kind. */
  lemma TabDoCatalogo(cat: Catalogo, d: Dispositivo)
    ensures AcaoTab(cat, d).Some? ==>
              && AcaoTab(cat, d).value in AcoesPossiveis(cat, d)
              && d.tiposPermitidosFilhos.Some? && |d.tiposPermitidosFilhos.value| > 0
              && cat.nomeAcao(AcaoTab(cat, d).value) ==
                 Some(NomeTransformacao(NomeTipo(d.tipo), d.tiposPermitidosFilhos.value[0]))
  {
    if d.tipo.Alinea? && d.tiposPermitidosFilhos.Some? && |d.tiposPermitidosFilhos.value| > 0 {
      ProcuraCorreta(cat, AcoesPossiveis(cat, d),
                     NomeTransformacao(NomeTipo(d.tipo), d.tiposPermitidosFilhos.value[0]));
    }
  }

  /** The conversion to the inciso of the grandparent's kind. */
  function ParaInciso(d: Dispositivo): AcaoId {
    if d.viz.avoParagrafo then TransformarAlineaEmIncisoParagrafo else TransformarAlineaEmIncisoCaput
  }

  /** getAcaoPossivelShiftTab: the conversion to an inciso for a sole or
      last item, otherwise the offered action named after the conversion to
      the first allowed parent kind. */
  function AcaoShiftTab(cat: Catalogo, d: Dispositivo): (r: Option<AcaoId>)
    ensures !d.tipo.Alinea? ==> r.None?
  {
    if !d.tipo.Alinea? then None
    else if UnicoOuUltimo(d) then Some(ParaInciso(d))
    else match d.tiposPermitidosPai
      case None => None
      case Some(tipos) =>
        if |tipos| == 0 then None
        else Procura(cat, AcoesPossiveis(cat, d), NomeTransformacao(NomeTipo(d.tipo), tipos[0]))
  }

  // -----------------------------------------------------------------------
  // Properties
  // -----------------------------------------------------------------------

  /** Renumbering is offered exactly on an amendment item that is not
      generic. */
  lemma RenumerarOferecido(cat: Catalogo, d: Dispositivo)
    requires d.tipo.Alinea? && !Interna(cat, Renumerar)
    ensures Renumerar in AcoesPossiveis(cat, d) <==> d.alt.dispositivoAlteracao && !d.generico
  {
    Oferecida(cat, d, Renumerar);
  }

  /** A new item (alínea) can be added after an empty one or one ending in
      the continuation indicator. */
  lemma AdicionarAlineaOferecido(cat: Catalogo, d: Dispositivo)
    requires d.tipo.Alinea? && !Interna(cat, AdicionarAlinea)
    ensures AdicionarAlinea in AcoesPossiveis(cat, d) <==> d.texto == "" || d.ind.continuacao
  {
    Oferecida(cat, d, AdicionarAlinea);
  }

  /** A sub-item can be added under an empty item or one ending in the
      expansion indicator. */
  lemma AdicionarItemOferecido(cat: Catalogo, d: Dispositivo)
    requires d.tipo.Alinea? && !Interna(cat, AdicionarItem)
    ensures AdicionarItem in AcoesPossiveis(cat, d) <==> d.texto == "" || d.ind.desdobramento
  {
    Oferecida(cat, d, AdicionarItem);
  }

  /** The conversion to the paragraph inciso is offered exactly on a sole
      or last item whose grandparent is a paragraph. */
  lemma ParaIncisoParagrafoOferecido(cat: Catalogo, d: Dispositivo)
    requires d.tipo.Alinea? && !Interna(cat, TransformarAlineaEmIncisoParagrafo)
    ensures TransformarAlineaEmIncisoParagrafo in AcoesPossiveis(cat, d) <==>
              UnicoOuUltimo(d) && d.viz.avoParagrafo
  {
    Oferecida(cat, d, TransformarAlineaEmIncisoParagrafo);
  }

  /** The conversion to the caput inciso is offered exactly on a sole or
      last item whose grandparent is not a paragraph. */
  lemma ParaIncisoCaputOferecido(cat: Catalogo, d: Dispositivo)
    requires d.tipo.Alinea? && !Interna(cat, TransformarAlineaEmIncisoCaput)
    ensures TransformarAlineaEmIncisoCaput in AcoesPossiveis(cat, d) <==>
              UnicoOuUltimo(d) && !d.viz.avoParagrafo
  {
    Oferecida(cat, d, TransformarAlineaEmIncisoCaput);
  }

  /** Demotion to a sub-item is offered when the item is not the first of
      its kind, or follows an omission. */
  lemma ParaItemOferecido(cat: Catalogo, d: Dispositivo)
    requires d.tipo.Alinea? && !Interna(cat, TransformaAlineaEmItem)
    ensures TransformaAlineaEmItem in AcoesPossiveis(cat, d) <==>
              !d.pos.primeiro || (d.pos.anterior.Some? && d.pos.anterior.value.Omissis?)
  {
    Oferecida(cat, d, TransformaAlineaEmItem);
  }

  /** Shift+Tab on a sole or last item returns the conversion that the
      action list offers. */
  lemma ShiftTabNoCatalogo(cat: Catalogo, d: Dispositivo)
    requires d.tipo.Alinea? && UnicoOuUltimo(d) && !Interna(cat, ParaInciso(d))
    ensures AcaoShiftTab(cat, d).Some? && AcaoShiftTab(cat, d).value in AcoesPossiveis(cat, d)
  {
    Oferecida(cat, d, ParaInciso(d));
  }

  /** Elsewhere Shift+Tab yields nothing, or an offered action named after
      the conversion to the first allowed parent kind. */
  lemma ShiftTabDoCatalogo(cat: Catalogo, d: Dispositivo)
    requires !UnicoOuUltimo(d)
    ensures AcaoShiftTab(cat, d).Some? ==>
              && AcaoShiftTab(cat, d).value in AcoesPossiveis(cat, d)
              && d.tiposPermitidosPai.Some? && |d.tiposPermitidosPai.value| > 0
              && cat.nomeAcao(AcaoShiftTab(cat, d).value) ==
                 Some(NomeTransformacao(NomeTipo(d.tipo), d.tiposPermitidosPai.value[0]))
  {
    if d.tipo.Alinea? && d.tiposPermitidosPai.Some? && |d.tiposPermitidosPai.value| > 0 {
      ProcuraCorreta(cat, AcoesPossiveis(cat, d),
                     NomeTransformacao(NomeTipo(d.tipo), d.tiposPermitidosPai.value[0]));
    }
  }

  /** Tab on an item not first of its kind, whose first allowed child kind
      is the sub-item, demotes it, in a catalog with the canonical names. */
  lemma TabParaItem(cat: Catalogo, d: Dispositivo)
    requires d.tipo.Alinea? && NomesCanonicos(cat) && !d.pos.primeiro
    requires d.tiposPermitidosFilhos.Some? && |d.tiposPermitidosFilhos.value| > 0
    requires d.tiposPermitidosFilhos.value[0] == NomeTipo(Item)
    requires !Interna(cat, TransformaAlineaEmItem)
    ensures AcaoTab(cat, d) == Some(TransformaAlineaEmItem)
  {
    Oferecida(cat, d, TransformaAlineaEmItem);
    ProcuraUnico(cat, AcoesPossiveis(cat, d), NomeCanonico(TransformaAlineaEmItem).value, TransformaAlineaEmItem);
  }
}
