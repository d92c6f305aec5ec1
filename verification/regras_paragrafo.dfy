/** The action rules of a paragraph (src/model/lexml/regras/regrasParagrafo.ts):
    the actions the editor offers on it, and the conversion chosen by the
    Tab and Shift+Tab keys. */
module RegrasParagrafo {
  import opened Tipos
  import opened Texto
  import opened Dispositivos
  import opened Acoes

  /** The actions in the order the source pushes them. */
  const Ordem: seq<AcaoId> := [
    MoverAbaixo, MoverAcima, Renumerar, IniciarBloco, FinalizarBloco,
    TransformarParagrafoEmIncisoCaput, TransformarParagrafoEmIncisoParagrafo,
    TransformarParagrafoEmArtigo, TransformarEmOmissisParagrafo
  ]

  /** The guard of each push. */
  predicate Oferece(d: Dispositivo, a: AcaoId) {
    match a
    case MoverAbaixo => d.pos.temPosterior
    case MoverAcima => d.pos.temAnterior
    case Renumerar => d.alt.dispositivoAlteracao
    case IniciarBloco => d.alt.dispositivoAlteracao && d.alt.ultimaAlteracao
    case FinalizarBloco =>
      d.alt.dispositivoAlteracao && d.alt.ultimaAlteracao && d.alt.posterioresAlteracao
    case TransformarParagrafoEmIncisoCaput => d.pos.primeiro || d.pos.unico
    case TransformarParagrafoEmIncisoParagrafo => !d.pos.unico
    case TransformarParagrafoEmArtigo => d.pos.ultimo || d.pos.unico
    case TransformarEmOmissisParagrafo => d.podeConverterEmOmissis
    case _ => false
  }

  /** The actions whose guard holds. */
  function Ofertadas(d: Dispositivo): set<AcaoId> {
    set a | a in Ordem && Oferece(d, a)
  }

  /** Every action with a guard is in the table. */
  lemma NaOrdem(d: Dispositivo, a: AcaoId)
    ensures Oferece(d, a) ==> a in Ordem
  {
  }

  /** getAcoesPossiveis: nothing for any other kind; otherwise the pushed
      actions, deduplicated, without internal ones, sorted by description. */
  function AcoesPossiveis(cat: Catalogo, d: Dispositivo): (r: seq<AcaoId>)
    ensures !d.tipo.Paragrafo? ==> r == []
  {
    if !d.tipo.Paragrafo? then [] else Finaliza(cat, Empilha(Ordem, Ofertadas(d)))
  }

  /** The offers are sorted by description and without duplicates. */
  lemma AcoesOrdenadas(cat: Catalogo, d: Dispositivo)
    ensures Ordenado(cat, AcoesPossiveis(cat, d)) && Distintos(AcoesPossiveis(cat, d))
  {
    if d.tipo.Paragrafo? {
      FinalizaOrdenado(cat, Empilha(Ordem, Ofertadas(d)));
    }
  }

  /** An action is offered on a paragraph exactly when its guard holds and
      its description is not an internal one. */
  lemma Oferecida(cat: Catalogo, d: Dispositivo, a: AcaoId)
    ensures a in AcoesPossiveis(cat, d) <==>
              d.tipo.Paragrafo? && Oferece(d, a) && !Interna(cat, a)
  {
    if d.tipo.Paragrafo? {
      EmpilhaContem(Ordem, Ofertadas(d), a);
      FinalizaContem(cat, Empilha(Ordem, Ofertadas(d)), a);
      NaOrdem(d, a);
    }
  }

  /** The destination kind Tab converts to for an allowed child kind: an
      inciso entry becomes the paragraph-scoped inciso unless the paragraph
      is the sole and first one. */
  function DestinoTab(d: Dispositivo, tipo: string): string {
    if EndsWith(tipo, NomeInciso) then
      if d.tipo.Paragrafo? && (!d.pos.unico || !d.pos.primeiro) then "IncisoParagrafo" else "IncisoCaput"
    else tipo
  }

  /** getAcaoPossivelTab: only the first allowed child kind is looked at;
      the action is the offered one named after the conversion to it. */
  function AcaoTab(cat: Catalogo, d: Dispositivo): (r: Option<AcaoId>)
    ensures !d.tipo.Paragrafo? ==> r.None?
  {
    if !d.tipo.Paragrafo? then None
    else match d.tiposPermitidosFilhos
      case None => None
      case Some(tipos) =>
        if |tipos| == 0 then None
        else Procura(cat, AcoesPossiveis(cat, d),
                     NomeTransformacao(NomeTipo(d.tipo), DestinoTab(d, tipos[0])))
  }

  /** Tab yields nothing, or an offered action named after the conversion
      to the first allowed child kind. */
  lemma TabDoCatalogo(cat: Catalogo, d: Dispositivo)
    ensures AcaoTab(cat, d).Some? ==>
              && AcaoTab(cat, d).value in AcoesPossiveis(cat, d)
              && d.tiposPermitidosFilhos.Some? && |d.tiposPermitidosFilhos.value| > 0
              && cat.nomeAcao(AcaoTab(cat, d).value) ==
                 Some(NomeTransformacao(NomeTipo(d.tipo), DestinoTab(d, d.tiposPermitidosFilhos.value[0])))
  {
    if d.tipo.Paragrafo? && d.tiposPermitidosFilhos.Some? && |d.tiposPermitidosFilhos.value| > 0 {
      ProcuraCorreta(cat, AcoesPossiveis(cat, d),
                     NomeTransformacao(NomeTipo(d.tipo), DestinoTab(d, d.tiposPermitidosFilhos.value[0])));
    }
  }

  /** getAcaoPossivelShiftTab. `proprias` is the provision's own list of
      offered actions (its getAcoesPossiveis), consulted only when none of
      the fixed shortcuts applies. */
  function AcaoShiftTab(cat: Catalogo, d: Dispositivo, proprias: seq<AcaoId>): (r: Option<AcaoId>)
    ensures d.tiposPermitidosFilhos.None? ==> r.None?
  {
    if d.tiposPermitidosFilhos.None? then None
    else if d.tipo.IncisoCaput? && (d.pos.unico || d.pos.ultimo) then
      Some(TransformarIncisoCaputEmParagrafo)
    else if d.tipo.IncisoParagrafo? && (d.pos.unico || d.pos.ultimo) then
      Some(TransformarIncisoParagrafoEmParagrafo)
    else if d.tipo.Alinea? && (d.pos.unico || d.pos.ultimo) then
      Some(if d.viz.avoParagrafo then TransformarAlineaEmIncisoParagrafo else TransformarAlineaEmIncisoCaput)
    else match d.tiposPermitidosPai
      case None => None
      case Some(tipos) =>
        if |tipos| == 0 then None
        else Procura(cat, proprias, NomeTransformacao(NomeTipo(d.tipo), tipos[0]))
  }

  /** Outside the three shortcut kinds, Shift+Tab yields nothing or one of
      the provision's own offers, named after the conversion to the first
      allowed parent kind. */
  lemma ShiftTabDoCatalogo(cat: Catalogo, d: Dispositivo, proprias: seq<AcaoId>)
    requires !(d.tipo.IncisoCaput? || d.tipo.IncisoParagrafo? || d.tipo.Alinea?)
    ensures AcaoShiftTab(cat, d, proprias).Some? ==>
              && AcaoShiftTab(cat, d, proprias).value in proprias
              && d.tiposPermitidosPai.Some? && |d.tiposPermitidosPai.value| > 0
              && cat.nomeAcao(AcaoShiftTab(cat, d, proprias).value) ==
                 Some(NomeTransformacao(NomeTipo(d.tipo), d.tiposPermitidosPai.value[0]))
  {
    if d.tiposPermitidosPai.Some? && |d.tiposPermitidosPai.value| > 0 {
      ProcuraCorreta(cat, proprias, NomeTransformacao(NomeTipo(d.tipo), d.tiposPermitidosPai.value[0]));
    }
  }

  /** Shift+Tab on a sole or last item (alínea) converts it to the inciso
      of a paragraph when its grandparent is a paragraph, and to the inciso
      of a caput otherwise. */
  lemma ShiftTabAlinea(cat: Catalogo, d: Dispositivo, proprias: seq<AcaoId>)
    requires d.tiposPermitidosFilhos.Some? && d.tipo.Alinea? && (d.pos.unico || d.pos.ultimo)
    ensures AcaoShiftTab(cat, d, proprias) == Some(TransformarAlineaEmIncisoParagrafo) <==> d.viz.avoParagrafo
    ensures AcaoShiftTab(cat, d, proprias) == Some(TransformarAlineaEmIncisoCaput) <==> !d.viz.avoParagrafo
  {
  }

  // -----------------------------------------------------------------------
  // Properties
  // -----------------------------------------------------------------------

  /** Moving down is offered exactly when a later sibling of the same kind
      (or an omission) exists, moving up exactly when an earlier one does. */
  lemma MoverOferecido(cat: Catalogo, d: Dispositivo)
    requires d.tipo.Paragrafo? && !Interna(cat, MoverAbaixo) && !Interna(cat, MoverAcima)
    ensures MoverAbaixo in AcoesPossiveis(cat, d) <==> d.pos.temPosterior
    ensures MoverAcima in AcoesPossiveis(cat, d) <==> d.pos.temAnterior
  {
    Oferecida(cat, d, MoverAbaixo);
    Oferecida(cat, d, MoverAcima);
  }

  /** Renumbering is offered exactly on an amendment paragraph. */
  lemma RenumerarOferecido(cat: Catalogo, d: Dispositivo)
    requires d.tipo.Paragrafo? && !Interna(cat, Renumerar)
    ensures Renumerar in AcoesPossiveis(cat, d) <==> d.alt.dispositivoAlteracao
  {
    Oferecida(cat, d, Renumerar);
  }

  /** Opening an amendment block is offered exactly on the last provision
      of an amendment. */
  lemma IniciarBlocoOferecido(cat: Catalogo, d: Dispositivo)
    requires d.tipo.Paragrafo? && !Interna(cat, IniciarBloco)
    ensures IniciarBloco in AcoesPossiveis(cat, d) <==> d.alt.dispositivoAlteracao && d.alt.ultimaAlteracao
  {
    Oferecida(cat, d, IniciarBloco);
  }

  /** Closing an amendment block is offered only together with opening one,
      and exactly on the last provision of an amendment that has amendment
      provisions after it. */
  lemma FinalizarSoComIniciar(cat: Catalogo, d: Dispositivo)
    requires !Interna(cat, IniciarBloco)
    ensures FinalizarBloco in AcoesPossiveis(cat, d) ==> IniciarBloco in AcoesPossiveis(cat, d)
    ensures !Interna(cat, FinalizarBloco) ==>
              (FinalizarBloco in AcoesPossiveis(cat, d) <==>
                 && d.tipo.Paragrafo? && d.alt.dispositivoAlteracao && d.alt.ultimaAlteracao
                 && d.alt.posterioresAlteracao)
  {
    Oferecida(cat, d, FinalizarBloco);
    Oferecida(cat, d, IniciarBloco);
  }

  /** Conversion to a caput inciso is offered on the first or the sole
      paragraph. */
  lemma ParaIncisoCaputOferecido(cat: Catalogo, d: Dispositivo)
    requires d.tipo.Paragrafo? && !Interna(cat, TransformarParagrafoEmIncisoCaput)
    ensures TransformarParagrafoEmIncisoCaput in AcoesPossiveis(cat, d) <==> d.pos.primeiro || d.pos.unico
  {
    Oferecida(cat, d, TransformarParagrafoEmIncisoCaput);
  }

  /** Conversion to a paragraph inciso is offered on every paragraph that is
      not the sole one. */
  lemma ParaIncisoParagrafoOferecido(cat: Catalogo, d: Dispositivo)
    requires d.tipo.Paragrafo? && !Interna(cat, TransformarParagrafoEmIncisoParagrafo)
    ensures TransformarParagrafoEmIncisoParagrafo in AcoesPossiveis(cat, d) <==> !d.pos.unico
  {
    Oferecida(cat, d, TransformarParagrafoEmIncisoParagrafo);
  }

  /** Conversion to an article is offered on the last or the sole
      paragraph. */
  lemma ParaArtigoOferecido(cat: Catalogo, d: Dispositivo)
    requires d.tipo.Paragrafo? && !Interna(cat, TransformarParagrafoEmArtigo)
    ensures TransformarParagrafoEmArtigo in AcoesPossiveis(cat, d) <==> d.pos.ultimo || d.pos.unico
  {
    Oferecida(cat, d, TransformarParagrafoEmArtigo);
  }

  /** Tab finds an offered conversion whose canonical name is the one
      synthesised for the destination kind. */
  lemma TabParaConversao(cat: Catalogo, d: Dispositivo, a: AcaoId, destino: string)
    requires d.tipo.Paragrafo? && NomesCanonicos(cat)
    requires d.tiposPermitidosFilhos.Some? && |d.tiposPermitidosFilhos.value| > 0
    requires DestinoTab(d, d.tiposPermitidosFilhos.value[0]) == destino
    requires NomeCanonico(a) == Some(NomeTransformacao(NomeTipo(d.tipo), destino))
    requires Oferece(d, a) && !Interna(cat, a)
    ensures AcaoTab(cat, d) == Some(a)
  {
    Oferecida(cat, d, a);
    ProcuraUnico(cat, AcoesPossiveis(cat, d), NomeCanonico(a).value, a);
  }

  /** Tab on a paragraph whose first allowed child kind is an inciso picks
      the conversion to the caput inciso when the paragraph is sole, and to
      the paragraph inciso otherwise, in a catalog with the canonical names. */
  lemma TabParaInciso(cat: Catalogo, d: Dispositivo)
    requires d.tipo.Paragrafo? && NomesCanonicos(cat)
    requires d.tiposPermitidosFilhos.Some? && |d.tiposPermitidosFilhos.value| > 0
    requires EndsWith(d.tiposPermitidosFilhos.value[0], NomeInciso)
    requires d.pos.unico ==> d.pos.primeiro
    requires !Interna(cat, TransformarParagrafoEmIncisoCaput)
    requires !Interna(cat, TransformarParagrafoEmIncisoParagrafo)
    ensures AcaoTab(cat, d) ==
              Some(if d.pos.unico then TransformarParagrafoEmIncisoCaput
                   else TransformarParagrafoEmIncisoParagrafo)
  {
    if d.pos.unico {
      TabParaConversao(cat, d, TransformarParagrafoEmIncisoCaput, "IncisoCaput");
    } else {
      TabParaConversao(cat, d, TransformarParagrafoEmIncisoParagrafo, "IncisoParagrafo");
    }
  }
}
