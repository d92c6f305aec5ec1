/** A snapshot of one provision and of what the hierarchy queries answer
    about it. The queries themselves (hierarquiaUtil, the indicator tests of
    conteudoUtil, the string utilities) are not part of this model: their
    answers are fields, so every rule that reads them is modelled exactly
    and nothing is assumed about how they are computed. */
module Dispositivos {
  import opened Tipos

  /** Position among same-kind siblings. */
  datatype Posicao = Posicao(
    unico: bool,                  // isUnicoMesmoTipo
    primeiro: bool,               // isPrimeiroMesmoTipo
    ultimo: bool,                 // isUltimoMesmoTipo
    penultimo: bool,              // isPenultimoMesmoTipo
    temAnterior: bool,            // getDispositivoAnteriorMesmoTipoInclusiveOmissis(d) !== undefined
    temPosterior: bool,           // getDispositivoPosteriorMesmoTipoInclusiveOmissis(d) !== undefined
    anterior: Option<Tipo>)       // kind of getDispositivoAnterior(d), if there is one

  /** Children, parent and grandparent. */
  datatype Vizinhanca = Vizinhanca(
    temFilhos: bool,              // hasFilhos(d)
    caputTemFilhos: bool,         // hasFilhos(d.caput), for an article
    quantidadeFilhos: nat,        // d.filhos.length
    avoParagrafo: bool,           // isParagrafo(d.pai.pai)
    paiTemFilhoGenerico: bool,    // hasFilhoGenerico(d.pai)
    paiTemFilhoOmissis: bool)     // d.pai.filhos has an omissis

  /** Amendment-block facts. */
  datatype Alteracao = Alteracao(
    dispositivoAlteracao: bool,   // isDispositivoAlteracao (hierarchy query)
    ultimaAlteracao: bool,        // isUltimaAlteracao
    cabecaAlteracao: bool,        // d === getDispositivoCabecaAlteracao(d)
    posterioresAlteracao: bool,   // hasDispositivosPosterioresAlteracao
    hasAlteracao: bool,           // d.hasAlteracao()
    temBase: bool)                // d.alteracoes?.base is set

  /** Answers of the text-indicator tests. */
  datatype Indicadores = Indicadores(
    desdobramento: bool,          // hasIndicativoDesdobramento(d)
    continuacao: bool,            // hasIndicativoContinuacaoSequencia(d)
    finalSequencia: bool,         // hasIndicativoFinalSequencia(d)
    sequencia: Option<seq<string>>, // d.INDICADOR_SEQUENCIA
    ultimoCaractere: string,      // getLastCharacter(d.texto)
    htmlValido: bool,             // isValidHTML(d.texto)
    terminaComPontuacao: bool,    // endsWithPunctuation(d.texto)
    contemTags: bool)             // containsTags(d.texto)

  datatype Dispositivo = Dispositivo(
    tipo: Tipo,
    texto: string,                // an absent text is the empty string
    deArtigo: bool,               // isDispositivoDeArtigo
    generico: bool,               // isDispositivoGenerico
    pos: Posicao,
    viz: Vizinhanca,
    alt: Alteracao,
    ind: Indicadores,
    podeConverterEmOmissis: bool, // podeConverterEmOmissis(d)
    tiposPermitidosFilhos: Option<seq<string>>,
    tiposPermitidosPai: Option<seq<string>>)

  /** `d.texto` is truthy. */
  predicate TemTexto(d: Dispositivo) {
    d.texto != ""
  }

  /** The kind that must end its text with the expansion indicator when it
      has children: an article looks at its caput's children, every other
      kind at its own. */
  predicate TemDesdobramento(d: Dispositivo) {
    (!d.tipo.Artigo? && d.viz.temFilhos) || (d.tipo.Artigo? && d.viz.caputTemFilhos)
  }
}
