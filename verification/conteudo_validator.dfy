/** The content validator of src/model/lexml/conteudo/conteudoValidator.ts:
    a table of independent rules, each a guard over the provision snapshot
    and one message. Every rule whose guard holds reports, in table order;
    no rule stops the others. */
module ConteudoValidator {
  import opened Tipos
  import opened Texto
  import opened Indicativos
  import opened Dispositivos

  /** `/^[A-ZÀ-Ú]/` */
  predicate IniciaMaiuscula(t: string) {
    |t| > 0 && (('A' <= t[0] <= 'Z') || ('À' <= t[0] <= 'Ú'))
  }

  /** `/^[...]{3,}/`: the class `[...]` holds only the dot. */
  predicate IniciaReticencias(t: string) {
    |t| >= 3 && t[0] == '.' && t[1] == '.' && t[2] == '.'
  }

  /** `/.*["”“]$/` */
  predicate TerminaComAspas(t: string) {
    |t| > 0 && IsAspas(t[|t| - 1])
  }

  /** The answers of the text tests the rules read, computed once per text. */
  datatype Analise = Analise(
    branco: bool,           // text.trim().length === 0
    extenso: bool,          // text.trim().length > 300
    maiuscula: bool,        // /^[A-ZÀ-Ú]/
    reticencias: bool,      // /^[...]{3,}/
    aspasNoFim: bool,       // /.*["”“]$/
    citacao: bool,          // hasCitacaoAoFinalFrase
    inicioAlteracao: bool,  // hasIndicativoInicioAlteracao
    fimAlteracao: bool,     // hasIndicativoFimAlteracao
    aspasNR: bool)          // /”.*(NR)/, read with the parentheses literal

  function Analisa(t: string, k: Textos): (a: Analise)
    ensures a.branco <==> TodosEspacos(t)
  {
    TrimVazioSeEspacos(t);
    Analise(
      |Trim(t)| == 0, |Trim(t)| > 300, IniciaMaiuscula(t), IniciaReticencias(t), TerminaComAspas(t),
      HasCitacaoAoFinalFrase(t), HasIndicativoInicioAlteracao(t, k.casaComEspacos),
      HasIndicativoFimAlteracao(t), ContemAspasNR(t))
  }

  /** The guard of every rule, one field per rule, evaluated once per
      provision. */
  datatype Guardas = Guardas(    agrupadorSemTexto: bool,
    agrupadorComPontuacao: bool,
    agrupadorComFormatacao: bool,
    semTexto: bool,
    htmlInvalido: bool,
    textoExtenso: bool,
    deveriaIniciarMinuscula: bool,
    semIndicadorSequencia: bool,
    deveriaIniciarMaiuscula: bool,
    semIndicadorDesdobramento: bool,
    semIndicadorFimSequencia: bool,
    semIndicadorContinuacao: bool,
    artigoParagrafoSemIndicadorSequencia: bool,
    artigoSemInicioAlteracao: bool,
    artigoDesdobramentoSemFilhos: bool,
    semNormaAlterada: bool,
    alteracaoSemIndicadorDesdobramento: bool,
    alteracaoParagrafoSemIndicadorSequencia: bool,
    semFimAlteracao: bool,
    aspasForaDoFimAlteracao: bool,
    nrForaDoFimAlteracao: bool,
    nenhumaAlteracao: bool,
    alteracaoSemIndicadorFimSequencia: bool)

  /** Each rule's guard, as the source states it. */
  function Avalia(d: Dispositivo, a: Analise, k: Textos): Guardas {
    var t := d.texto;
    var tipo := d.tipo;
    var alteracao := d.alt.dispositivoAlteracao;
    Guardas(
      // AgrupadorSemTexto (restricted rule set)
      !tipo.Articulacao? && (t == "" || a.branco),
      // AgrupadorComPontuacao
      !tipo.Articulacao? && t != "" && d.ind.terminaComPontuacao,
      // AgrupadorComFormatacao
      !tipo.Articulacao? && d.ind.contemTags,
      // SemTexto (rules common to text provisions)
      (!tipo.Articulacao? && t == "") || a.branco,
      // HtmlInvalido
      !tipo.Articulacao? && t != "" && !d.ind.htmlValido,
      // TextoExtenso
      !tipo.Articulacao? && t != "" && a.extenso,
      // DeveriaIniciarMinuscula (rules common to article descendants)
      d.deArtigo && !tipo.Paragrafo? && t != "" && a.maiuscula,
      // SemIndicadorSequencia
      && d.deArtigo && !tipo.Paragrafo? && !tipo.Omissis? && t != ""
        && !d.pos.unico && !d.pos.ultimo && !d.pos.penultimo && !d.viz.temFilhos
        && d.ind.sequencia.Some?
        && (|d.ind.sequencia.value| == 0 || d.ind.ultimoCaractere != d.ind.sequencia.value[0]),
      // DeveriaIniciarMaiuscula (article and paragraph)
      (tipo.Artigo? || tipo.Paragrafo?) && t != "" && !a.reticencias && !a.maiuscula,
      // SemIndicadorDesdobramento (provisions outside amendment blocks)
      && !alteracao && !IsAgrupador(tipo) && !tipo.Omissis? && t != ""
        && TemDesdobramento(d) && !d.ind.desdobramento,
      // SemIndicadorFimSequencia
      && !alteracao && d.deArtigo && !tipo.Paragrafo? && t != ""
        && (d.pos.unico || d.pos.ultimo) && !d.viz.paiTemFilhoGenerico
        && !d.viz.temFilhos && !d.ind.finalSequencia,
      // SemIndicadorContinuacao
      && !alteracao && d.deArtigo && !tipo.Paragrafo? && t != ""
        && !d.pos.unico && d.pos.penultimo && !d.viz.temFilhos && !d.ind.continuacao,
      // ArtigoParagrafoSemIndicadorSequencia
      && !alteracao && (tipo.Artigo? || tipo.Paragrafo?) && t != ""
        && !d.viz.temFilhos && !d.alt.hasAlteracao && !d.pos.unico
        && !d.ind.continuacao && !a.citacao,
      // ArtigoSemInicioAlteracao
      && !alteracao && tipo.Artigo? && t != "" && d.alt.hasAlteracao
        && !d.ind.desdobramento && !a.inicioAlteracao,
      // ArtigoDesdobramentoSemFilhos
      && !alteracao && tipo.Artigo? && t != "" && !d.alt.hasAlteracao
        && (!d.viz.temFilhos || !d.viz.caputTemFilhos) && d.ind.desdobramento,
      // SemNormaAlterada
      !alteracao && tipo.Artigo? && d.alt.hasAlteracao && !d.alt.temBase,
      // AlteracaoSemIndicadorDesdobramento (provisions inside amendment blocks)
      && alteracao && !IsAgrupador(tipo) && t != k.omissis && t != ""
        && TemDesdobramento(d) && !d.ind.desdobramento,
      // AlteracaoParagrafoSemIndicadorSequencia
      && alteracao && tipo.Paragrafo? && t != "" && !d.viz.temFilhos
        && !d.pos.unico && !d.pos.ultimo && !d.ind.continuacao,
      // SemFimAlteracao
      alteracao && d.alt.ultimaAlteracao && (t == "" || !a.fimAlteracao),
      // AspasForaDoFimAlteracao
      && alteracao && t != "" && !d.alt.ultimaAlteracao && a.aspasNoFim
        && !a.citacao && !a.aspasNR,
      // NRForaDoFimAlteracao
      alteracao && t != "" && !d.alt.ultimaAlteracao && a.aspasNR,
      // NenhumaAlteracao
      && alteracao && t != "" && d.alt.cabecaAlteracao && d.viz.quantidadeFilhos == 0
        && (t == k.padraoAlteracao || t == k.omissis),
      // AlteracaoSemIndicadorFimSequencia
      && alteracao && t != "" && d.deArtigo && !tipo.Paragrafo? && !tipo.Omissis?
        && !d.viz.paiTemFilhoOmissis && d.pos.unico && !d.viz.paiTemFilhoGenerico
        && !d.viz.temFilhos && !d.ind.finalSequencia && !d.alt.ultimaAlteracao)
  }

  /** Whether rule `r`'s guard holds. */
  predicate Dispara(r: Regra, gs: Guardas) {
    match r
    case AgrupadorSemTexto => gs.agrupadorSemTexto
    case AgrupadorComPontuacao => gs.agrupadorComPontuacao
    case AgrupadorComFormatacao => gs.agrupadorComFormatacao
    case SemTexto => gs.semTexto
    case HtmlInvalido => gs.htmlInvalido
    case TextoExtenso => gs.textoExtenso
    case DeveriaIniciarMinuscula => gs.deveriaIniciarMinuscula
    case SemIndicadorSequencia => gs.semIndicadorSequencia
    case DeveriaIniciarMaiuscula => gs.deveriaIniciarMaiuscula
    case SemIndicadorDesdobramento => gs.semIndicadorDesdobramento
    case SemIndicadorFimSequencia => gs.semIndicadorFimSequencia
    case SemIndicadorContinuacao => gs.semIndicadorContinuacao
    case ArtigoParagrafoSemIndicadorSequencia => gs.artigoParagrafoSemIndicadorSequencia
    case ArtigoSemInicioAlteracao => gs.artigoSemInicioAlteracao
    case ArtigoDesdobramentoSemFilhos => gs.artigoDesdobramentoSemFilhos
    case SemNormaAlterada => gs.semNormaAlterada
    case AlteracaoSemIndicadorDesdobramento => gs.alteracaoSemIndicadorDesdobramento
    case AlteracaoParagrafoSemIndicadorSequencia => gs.alteracaoParagrafoSemIndicadorSequencia
    case SemFimAlteracao => gs.semFimAlteracao
    case AspasForaDoFimAlteracao => gs.aspasForaDoFimAlteracao
    case NRForaDoFimAlteracao => gs.nrForaDoFimAlteracao
    case NenhumaAlteracao => gs.nenhumaAlteracao
    case AlteracaoSemIndicadorFimSequencia => gs.alteracaoSemIndicadorFimSequencia
  }

  /** The restricted rule set, by tag. */
  predicate RegraDeAgrupador(r: Regra) {
    r.AgrupadorSemTexto? || r.AgrupadorComPontuacao? || r.AgrupadorComFormatacao?
  }

  /** validaTextoAgrupador's rules, in source order. */
  const RegrasAgrupador: seq<Regra> :=
    [AgrupadorSemTexto, AgrupadorComPontuacao, AgrupadorComFormatacao]

  /** validaTextoDispositivo's rules, in source order. */
  const RegrasDispositivo: seq<Regra> := [
    SemTexto, HtmlInvalido, TextoExtenso, DeveriaIniciarMinuscula,
    SemIndicadorSequencia, DeveriaIniciarMaiuscula, SemIndicadorDesdobramento,
    SemIndicadorFimSequencia, SemIndicadorContinuacao,
    ArtigoParagrafoSemIndicadorSequencia, ArtigoSemInicioAlteracao,
    ArtigoDesdobramentoSemFilhos, SemNormaAlterada,
    AlteracaoSemIndicadorDesdobramento, AlteracaoParagrafoSemIndicadorSequencia,
    SemFimAlteracao, AspasForaDoFimAlteracao, NRForaDoFimAlteracao,
    NenhumaAlteracao, AlteracaoSemIndicadorFimSequencia
  ]

  /** The two tables partition the rules. */
  lemma TabelaAgrupador(g: Regra)
    ensures g in RegrasAgrupador <==> RegraDeAgrupador(g)
  {
  }

  lemma TabelaDispositivo(g: Regra)
    ensures g in RegrasDispositivo <==> !RegraDeAgrupador(g)
  {
  }

  /** The messages of the rules of `rs` whose guard holds, in the order of
      `rs`: the source's run of independent `if … push` steps. */
  function Filtra(rs: seq<Regra>, gs: Guardas): (ms: seq<Mensagem>)
    ensures |ms| <= |rs|
  {
    if |rs| == 0 then []
    else (if Dispara(rs[0], gs) then [MensagemDe(rs[0])] else []) + Filtra(rs[1..], gs)
  }

  /** A message is produced exactly for a listed rule whose guard holds,
      with that rule's severity. */
  lemma {:induction false} FiltraContem(rs: seq<Regra>, gs: Guardas, m: Mensagem)
    ensures m in Filtra(rs, gs) <==> m.regra in rs && Dispara(m.regra, gs) && m == MensagemDe(m.regra)
    decreases |rs|
  {
    if |rs| > 0 {
      FiltraContem(rs[1..], gs, m);
      assert rs == [rs[0]] + rs[1..];
    }
  }

  /** Rule `a` is listed before rule `b` in the table `rs`. */
  predicate Antes(rs: seq<Regra>, a: Regra, b: Regra) {
    exists i, j | 0 <= i < j < |rs| :: rs[i] == a && rs[j] == b
  }

  lemma AntesNaCauda(rs: seq<Regra>, a: Regra, b: Regra)
    requires |rs| > 0 && Antes(rs[1..], a, b)
    ensures Antes(rs, a, b)
  {
    var p, q :| 0 <= p < q < |rs[1..]| && rs[1..][p] == a && rs[1..][q] == b;
    assert rs[p + 1] == a && rs[q + 1] == b;
  }

  lemma AntesDaCabeca(rs: seq<Regra>, b: Regra)
    requires |rs| > 0 && b in rs[1..]
    ensures Antes(rs, rs[0], b)
  {
    var q :| 0 <= q < |rs[1..]| && rs[1..][q] == b;
    assert rs[q + 1] == b;
  }

  /** The messages `ms` come out in the order of the table `rs`. */
  predicate EmOrdem(rs: seq<Regra>, ms: seq<Mensagem>) {
    forall i, j | 0 <= i < j < |ms| :: Antes(rs, ms[i].regra, ms[j].regra)
  }

  /** Filtering keeps table order. */
  lemma {:induction false} FiltraEmOrdem(rs: seq<Regra>, gs: Guardas)
    ensures EmOrdem(rs, Filtra(rs, gs))
    decreases |rs|
  {
    if |rs| > 0 {
      var ms := Filtra(rs, gs);
      var resto := Filtra(rs[1..], gs);
      FiltraEmOrdem(rs[1..], gs);
      if Dispara(rs[0], gs) {
        assert ms == [MensagemDe(rs[0])] + resto;
        forall i, j | 0 <= i < j < |ms|
          ensures Antes(rs, ms[i].regra, ms[j].regra)
        {
          assert ms[j] == resto[j - 1];
          if i == 0 {
            assert resto[j - 1] in resto;
            FiltraContem(rs[1..], gs, resto[j - 1]);
            AntesDaCabeca(rs, ms[j].regra);
          } else {
            assert ms[i] == resto[i - 1];
            AntesNaCauda(rs, ms[i].regra, ms[j].regra);
          }
        }
      } else {
        assert ms == resto;
        forall i, j | 0 <= i < j < |ms|
          ensures Antes(rs, ms[i].regra, ms[j].regra)
        {
          AntesNaCauda(rs, ms[i].regra, ms[j].regra);
        }
      }
    }
  }

  /** validaTextoAgrupador, given the evaluated guards, in source order. */
  function ValidaAgrupador(gs: Guardas): (r: seq<Mensagem>)
    ensures |r| <= 3
    ensures EmOrdem(RegrasAgrupador, r)
  {
    FiltraEmOrdem(RegrasAgrupador, gs);
    Filtra(RegrasAgrupador, gs)
  }

  /** validaTextoDispositivo, given the evaluated guards, in source order. */
  function ValidaDispositivo(gs: Guardas): (r: seq<Mensagem>)
    ensures |r| <= 20
    ensures EmOrdem(RegrasDispositivo, r)
  {
    FiltraEmOrdem(RegrasDispositivo, gs);
    Filtra(RegrasDispositivo, gs)
  }

  /** validaTexto, given the evaluated guards: agglomerators (the root
      included) take the restricted rule set, every other kind the full
      set. */
  function Valida(d: Dispositivo, gs: Guardas): seq<Mensagem> {
    if IsAgrupador(d.tipo) then ValidaAgrupador(gs) else ValidaDispositivo(gs)
  }

  /** A message is reported exactly when its rule belongs to the rule set of
      `d`'s kind and the rule's guard holds, and it carries the rule's
      severity. */
  lemma Reporta(d: Dispositivo, gs: Guardas, m: Mensagem)
    ensures m in Valida(d, gs) <==>
              && (RegraDeAgrupador(m.regra) <==> IsAgrupador(d.tipo))
              && Dispara(m.regra, gs) && m == MensagemDe(m.regra)
  {
    if IsAgrupador(d.tipo) {
      FiltraContem(RegrasAgrupador, gs, m);
      TabelaAgrupador(m.regra);
    } else {
      FiltraContem(RegrasDispositivo, gs, m);
      TabelaDispositivo(m.regra);
    }
  }

  /** validaTexto: the text analysis of the provision's own text, the
      guards, then the rule set of its kind. */
  function ValidaTexto(d: Dispositivo, k: Textos): seq<Mensagem> {
    Valida(d, Avalia(d, Analisa(d.texto, k), k))
  }

  /** Reporta, for the provision's own text. */
  lemma ReportaTexto(d: Dispositivo, k: Textos, m: Mensagem)
    ensures m in ValidaTexto(d, k) <==>
              && (RegraDeAgrupador(m.regra) <==> IsAgrupador(d.tipo))
              && Dispara(m.regra, Avalia(d, Analisa(d.texto, k), k)) && m == MensagemDe(m.regra)
  {
    Reporta(d, Avalia(d, Analisa(d.texto, k), k), m);
  }

  /** ReportaTexto, for a rule of the full rule set. */
  lemma ReportaRegraDeDispositivo(d: Dispositivo, k: Textos, g: Regra)
    requires !RegraDeAgrupador(g)
    ensures MensagemDe(g) in ValidaTexto(d, k) <==>
              !IsAgrupador(d.tipo) && Dispara(g, Avalia(d, Analisa(d.texto, k), k))
  {
    ReportaTexto(d, k, MensagemDe(g));
  }

  /** ReportaRegraDeDispositivo for any analysis of the text: the rules
      that read only the snapshot need nothing from the analysis. */
  lemma ReportaComAnalise(d: Dispositivo, a: Analise, k: Textos, g: Regra)
    requires !RegraDeAgrupador(g)
    ensures MensagemDe(g) in Valida(d, Avalia(d, a, k)) <==> !IsAgrupador(d.tipo) && Dispara(g, Avalia(d, a, k))
  {
    Reporta(d, Avalia(d, a, k), MensagemDe(g));
  }

  // -----------------------------------------------------------------------
  // Properties
  // -----------------------------------------------------------------------

  /** Every message is an error but the length and lower-case advisories,
      which are warnings. */
  lemma SoDuasAdvertencias(d: Dispositivo, k: Textos)
    ensures forall m | m in ValidaTexto(d, k) ::
              (m.tipo == Warning <==> m.regra == TextoExtenso || m.regra == DeveriaIniciarMinuscula)
  {
    forall m | m in ValidaTexto(d, k)
      ensures m.tipo == Warning <==> m.regra == TextoExtenso || m.regra == DeveriaIniciarMinuscula
    {
      ReportaTexto(d, k, m);
    }
  }

  /** The articulation root is never reported. */
  lemma RaizSemMensagens(d: Dispositivo, k: Textos)
    requires d.tipo.Articulacao?
    ensures ValidaTexto(d, k) == []
  {
    var r := ValidaTexto(d, k);
    if |r| > 0 {
      assert r[0] in r;
      ReportaTexto(d, k, r[0]);
    }
  }

  // What each field of the analysis reads, one field at a time.

  lemma AnalisaExtenso(t: string, k: Textos)
    ensures Analisa(t, k).extenso <==> |Trim(t)| > 300
  {
  }

  lemma AnalisaInicio(t: string, k: Textos)
    ensures Analisa(t, k).maiuscula <==> IniciaMaiuscula(t)
    ensures Analisa(t, k).reticencias <==> IniciaReticencias(t)
  {
  }

  lemma AnalisaCitacao(t: string, k: Textos)
    ensures Analisa(t, k).citacao <==> HasCitacaoAoFinalFrase(t)
  {
  }

  lemma AnalisaFimAlteracao(t: string, k: Textos)
    ensures Analisa(t, k).fimAlteracao <==> HasIndicativoFimAlteracao(t)
    ensures t == "" ==> !HasIndicativoFimAlteracao(t)
  {
  }

  lemma AnalisaAspasNR(t: string, k: Textos)
    ensures Analisa(t, k).aspasNR <==> ContemAspasNR(t)
    ensures t == "" ==> !ContemAspasNR(t)
  {
  }

  /** A non-root agglomerator gets one error for a blank text, one for
      trailing punctuation and one for markup, independently. */
  lemma AgrupadorCumulativo(d: Dispositivo, k: Textos)
    requires d.tipo.Agrupador?
    ensures MensagemDe(AgrupadorSemTexto) in ValidaTexto(d, k) <==> TodosEspacos(d.texto)
    ensures MensagemDe(AgrupadorComPontuacao) in ValidaTexto(d, k) <==>
              d.texto != "" && d.ind.terminaComPontuacao
    ensures MensagemDe(AgrupadorComFormatacao) in ValidaTexto(d, k) <==> d.ind.contemTags
  {
    assert d.texto == "" ==> TodosEspacos(d.texto);
    ReportaTexto(d, k, MensagemDe(AgrupadorSemTexto));
    ReportaTexto(d, k, MensagemDe(AgrupadorComPontuacao));
    ReportaTexto(d, k, MensagemDe(AgrupadorComFormatacao));
  }

  /** A text provision is reported as having no text exactly when its text
      is empty or all white space. */
  lemma SemTextoSoEmBranco(d: Dispositivo, k: Textos)
    requires !IsAgrupador(d.tipo)
    ensures MensagemDe(SemTexto) in ValidaTexto(d, k) <==> TodosEspacos(d.texto)
  {
    var a := Analisa(d.texto, k);
    assert ValidaTexto(d, k) == Valida(d, Avalia(d, a, k));
    ReportaComAnalise(d, a, k, SemTexto);
    assert a.branco <==> TodosEspacos(d.texto);
  }

  /** The length advisory fires exactly for a text provision whose trimmed
      text is longer than 300 characters. */
  lemma TextoExtensoAdverte(d: Dispositivo, k: Textos)
    ensures MensagemDe(TextoExtenso) in ValidaTexto(d, k) <==>
              !IsAgrupador(d.tipo) && d.texto != "" && |Trim(d.texto)| > 300
  {
    var a := Analisa(d.texto, k);
    assert ValidaTexto(d, k) == Valida(d, Avalia(d, a, k));
    ExtensoComAnalise(d, a, k);
    AnalisaExtenso(d.texto, k);
  }

  /** The length rule's guard, for any analysis of the text. */
  lemma ExtensoComAnalise(d: Dispositivo, a: Analise, k: Textos)
    ensures MensagemDe(TextoExtenso) in Valida(d, Avalia(d, a, k)) <==>
              !IsAgrupador(d.tipo) && d.texto != "" && a.extenso
  {
    ReportaComAnalise(d, a, k, TextoExtenso);
  }

  /** An article or paragraph must start with an ellipsis or a capital. */
  lemma ArtigoParagrafoIniciaMaiuscula(d: Dispositivo, k: Textos)
    requires d.tipo.Artigo? || d.tipo.Paragrafo?
    ensures MensagemDe(DeveriaIniciarMaiuscula) in ValidaTexto(d, k) <==>
              d.texto != "" && !IniciaReticencias(d.texto) && !IniciaMaiuscula(d.texto)
  {
    var a := Analisa(d.texto, k);
    assert ValidaTexto(d, k) == Valida(d, Avalia(d, a, k));
    MaiusculaComAnalise(d, a, k);
    AnalisaInicio(d.texto, k);
  }

  /** The capital rule's guard, for any analysis of the text. */
  lemma MaiusculaComAnalise(d: Dispositivo, a: Analise, k: Textos)
    requires d.tipo.Artigo? || d.tipo.Paragrafo?
    ensures MensagemDe(DeveriaIniciarMaiuscula) in Valida(d, Avalia(d, a, k)) <==>
              d.texto != "" && !a.reticencias && !a.maiuscula
  {
    ReportaComAnalise(d, a, k, DeveriaIniciarMaiuscula);
  }

  /** A citation closing the sentence stands in for the sequence indicator
      of an article or paragraph outside an amendment block. */
  lemma CitacaoDispensaIndicadorSequencia(d: Dispositivo, k: Textos)
    requires HasCitacaoAoFinalFrase(d.texto)
    ensures MensagemDe(ArtigoParagrafoSemIndicadorSequencia) !in ValidaTexto(d, k)
  {
    var a := Analisa(d.texto, k);
    assert ValidaTexto(d, k) == Valida(d, Avalia(d, a, k));
    AnalisaCitacao(d.texto, k);
    SequenciaComAnalise(d, a, k);
  }

  /** The sequence-indicator rule stays silent whenever the analysis finds
      a citation. */
  lemma SequenciaComAnalise(d: Dispositivo, a: Analise, k: Textos)
    requires a.citacao
    ensures MensagemDe(ArtigoParagrafoSemIndicadorSequencia) !in Valida(d, Avalia(d, a, k))
  {
    ReportaComAnalise(d, a, k, ArtigoParagrafoSemIndicadorSequencia);
  }

  /** The last provision of an amendment block must close with `.”` and
      `(NR)`. */
  lemma FechoDoBlocoDeAlteracao(d: Dispositivo, k: Textos)
    requires !IsAgrupador(d.tipo) && d.alt.dispositivoAlteracao
    ensures MensagemDe(SemFimAlteracao) in ValidaTexto(d, k) <==>
              d.alt.ultimaAlteracao && !HasIndicativoFimAlteracao(d.texto)
  {
    var a := Analisa(d.texto, k);
    assert ValidaTexto(d, k) == Valida(d, Avalia(d, a, k));
    FimComAnalise(d, a, k);
    AnalisaFimAlteracao(d.texto, k);
  }

  /** The closing rule's guard, for any analysis of the text. */
  lemma FimComAnalise(d: Dispositivo, a: Analise, k: Textos)
    requires !IsAgrupador(d.tipo) && d.alt.dispositivoAlteracao
    ensures MensagemDe(SemFimAlteracao) in Valida(d, Avalia(d, a, k)) <==>
              d.alt.ultimaAlteracao && (d.texto == "" || !a.fimAlteracao)
  {
    ReportaComAnalise(d, a, k, SemFimAlteracao);
  }

  /** Any other amendment provision must not carry `(NR)` after a closing
      quote. */
  lemma NRSoNoFechoDoBloco(d: Dispositivo, k: Textos)
    requires !IsAgrupador(d.tipo) && d.alt.dispositivoAlteracao
    ensures MensagemDe(NRForaDoFimAlteracao) in ValidaTexto(d, k) <==>
              !d.alt.ultimaAlteracao && ContemAspasNR(d.texto)
  {
    var a := Analisa(d.texto, k);
    assert ValidaTexto(d, k) == Valida(d, Avalia(d, a, k));
    NRComAnalise(d, a, k);
    AnalisaAspasNR(d.texto, k);
  }

  /** The `(NR)` rule's guard, for any analysis of the text. */
  lemma NRComAnalise(d: Dispositivo, a: Analise, k: Textos)
    requires !IsAgrupador(d.tipo) && d.alt.dispositivoAlteracao
    ensures MensagemDe(NRForaDoFimAlteracao) in Valida(d, Avalia(d, a, k)) <==>
              !d.alt.ultimaAlteracao && d.texto != "" && a.aspasNR
  {
    ReportaComAnalise(d, a, k, NRForaDoFimAlteracao);
  }

  /** The quote rule's guard, for any analysis of the text. */
  lemma AspasComAnalise(d: Dispositivo, a: Analise, k: Textos)
    requires !IsAgrupador(d.tipo) && d.alt.dispositivoAlteracao
    ensures MensagemDe(AspasForaDoFimAlteracao) in Valida(d, Avalia(d, a, k)) <==>
              !d.alt.ultimaAlteracao && d.texto != "" && a.aspasNoFim && !a.citacao && !a.aspasNR
  {
    ReportaComAnalise(d, a, k, AspasForaDoFimAlteracao);
  }

  /** Any other amendment provision must not end in a quote, unless the
      quote closes a citation or follows the `(NR)` token, read literally. */
  lemma AspasSoNoFechoDoBloco(d: Dispositivo, k: Textos)
    requires !IsAgrupador(d.tipo) && d.alt.dispositivoAlteracao
    ensures MensagemDe(AspasForaDoFimAlteracao) in ValidaTexto(d, k) <==>
              && !d.alt.ultimaAlteracao && TerminaComAspas(d.texto)
              && !HasCitacaoAoFinalFrase(d.texto) && !ContemAspasNR(d.texto)
  {
    var a := Analisa(d.texto, k);
    assert ValidaTexto(d, k) == Valida(d, Avalia(d, a, k));
    AspasComAnalise(d, a, k);
    AnalisaCitacao(d.texto, k);
    AnalisaAspasNR(d.texto, k);
  }

  /** The quote rule as written tests `/”.*(NR)/` too: a text ending in a
      quote, with no citation, and with a word containing `NR` after a
      closing quote is silenced by the expression as written, while the
      literal `(NR)` test lets the rule fire. */
  lemma AspasForaComoEscritoCala()
    ensures var t := "o termo ”x” do CNRS “y”";
            && TerminaComAspas(t) && !HasCitacaoAoFinalFrase(t)
            && ContemAspasNRComoEscrito(t) && !ContemAspasNR(t)
  {
    var t := "o termo ”x” do CNRS “y”";
    assert t[9..16] == "x” do C";
    assert t[16..18] == "NR";
    assert AspasAntesDeEm(t, 8, 16, "NR");
    var u, w := "o termo ”x” do CNRS", " “y”";
    assert t == u + w;
    assert '(' !in u && '(' !in w;
    forall i: nat, j: nat | i < j && j + 4 <= |t|
      ensures !AspasAntesDeEm(t, i, j, "(NR)")
    {
      assert t[j..j + 4][0] == t[j];
    }
    assert t[|t| - 2] == 'y';
  }

  /** So, on that text, the model reports the quote error for a non-last
      amendment provision, where the source as written stays silent. */
  lemma AspasForaReportadaNoExemplo(d: Dispositivo, k: Textos)
    requires !IsAgrupador(d.tipo) && d.alt.dispositivoAlteracao && !d.alt.ultimaAlteracao
    requires d.texto == "o termo ”x” do CNRS “y”"
    ensures MensagemDe(AspasForaDoFimAlteracao) in ValidaTexto(d, k)
  {
    AspasForaComoEscritoCala();
    AspasSoNoFechoDoBloco(d, k);
  }

  /** A childless block head still holding the placeholder or the omitted-
      text marker reports that no amendment was given. */
  lemma CabecaSemAlteracao(d: Dispositivo, k: Textos)
    requires !IsAgrupador(d.tipo) && d.alt.dispositivoAlteracao
    ensures MensagemDe(NenhumaAlteracao) in ValidaTexto(d, k) <==>
              && d.texto != "" && d.alt.cabecaAlteracao && d.viz.quantidadeFilhos == 0
              && (d.texto == k.padraoAlteracao || d.texto == k.omissis)
  {
    var a := Analisa(d.texto, k);
    assert ValidaTexto(d, k) == Valida(d, Avalia(d, a, k));
    NenhumaComAnalise(d, a, k);
  }

  /** The "no amendment given" rule's guard, for any analysis of the text. */
  lemma NenhumaComAnalise(d: Dispositivo, a: Analise, k: Textos)
    requires !IsAgrupador(d.tipo) && d.alt.dispositivoAlteracao
    ensures MensagemDe(NenhumaAlteracao) in Valida(d, Avalia(d, a, k)) <==>
              && d.texto != "" && d.alt.cabecaAlteracao && d.viz.quantidadeFilhos == 0
              && (d.texto == k.padraoAlteracao || d.texto == k.omissis)
  {
    ReportaComAnalise(d, a, k, NenhumaAlteracao);
  }

  /** A terminal amendment text ending in `.”` and `(NR)` passes the closing
      test; one ending in `.”` alone does not. */
  lemma FimAlteracaoExemplos()
    ensures HasIndicativoFimAlteracao("Texto.”(NR)")
    ensures !HasIndicativoFimAlteracao("Texto.”")
  {
    var t := "Texto.”(NR)";
    assert t[7..7] == [];
    assert t[7..11] == "(NR)";
    assert t[11..] == [];
    assert FimAlteracaoEm(t, 5, 7);
    var u := "Texto.”";
    assert '(' !in u;
    forall i: nat, j: nat | i + 2 <= j && j + 4 <= |u|
      ensures !FimAlteracaoEm(u, i, j)
    {
      assert u[j..j + 4][0] == u[j];
    }
  }
}
