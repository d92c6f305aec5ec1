/** Text recognisers for amendment boundaries and quoted citations
    (src/redux/elemento-reducer-util.ts and the citation test of
    src/model/lexml/conteudo/conteudoValidator.ts). Each regular expression
    of the source is a predicate over split points of the text; where a
    right-to-left reading is easier to compute, both are given and proved
    to agree. */
module Indicativos {
  import opened Tipos
  import opened Texto

  /** `["”“]` */
  predicate IsAspas(c: char) {
    c == '"' || c == '”' || c == '“'
  }

  /** `["”]` */
  predicate IsAspasFecho(c: char) {
    c == '"' || c == '”'
  }

  /** `["“]` */
  predicate IsAspasAbertura(c: char) {
    c == '"' || c == '“'
  }

  /** Fixed texts of the editor whose values are defined outside this model:
      the omitted-text marker (TEXTO_OMISSIS), the placeholder text of a new
      amendment provision (TEXTO_DEFAULT_DISPOSITIVO_ALTERACAO), and the
      matcher built by `addSpaceRegex(escapeRegex(frase))`, which tells
      whether a stretch of text spells a phrase with flexible spacing. */
  datatype Textos = Textos(
    omissis: string,
    padraoAlteracao: string,
    casaComEspacos: (string, string) -> bool)

  // ---------------------------------------------------------------------
  // Citation at the end of the sentence
  // ---------------------------------------------------------------------

  /** `:`, one or two white spaces and an opening quote at position `i`,
      then anything on the same line, then `.` and a quote closing the text. */
  predicate CitacaoEm(t: string, i: nat, k: nat)
    requires 1 <= k <= 2 && i + k + 4 <= |t|
  {
    && t[i] == ':'
    && TodosEspacos(t[i + 1..i + 1 + k])
    && IsAspas(t[i + 1 + k])
    && SemTerminador(t[i + 2 + k..|t| - 2])
    && t[|t| - 2] == '.'
    && IsAspas(t[|t| - 1])
  }

  /** `/.*:[\s]{1,2}["”“].*[.]["”“]$/` */
  predicate HasCitacaoAoFinalFrase(t: string)
    ensures HasCitacaoAoFinalFrase(t) ==> |t| >= 5 && t[|t| - 2] == '.' && IsAspas(t[|t| - 1])
  {
    exists i: nat, k: nat | 1 <= k <= 2 && i + k + 4 <= |t| :: CitacaoEm(t, i, k)
  }

  /** A directly quoted sentence is recognised. */
  lemma CitacaoExemplo()
    ensures HasCitacaoAoFinalFrase("diz: “a.”")
  {
    var t := "diz: “a.”";
    assert t[4..5] == [t[4]] && t[4] == ' ';
    assert t[6..7] == [t[6]] && t[6] == 'a';
    assert CitacaoEm(t, 3, 1);
  }

  // ---------------------------------------------------------------------
  // hasIndicativoFimAlteracao
  // ---------------------------------------------------------------------

  /** `.` and a closing quote at `i`, white space, `(NR)` at `j`, white space
      to the end. */
  predicate FimAlteracaoEm(t: string, i: nat, j: nat)
    requires i + 2 <= j && j + 4 <= |t|
  {
    && t[i] == '.'
    && IsAspasFecho(t[i + 1])
    && TodosEspacos(t[i + 2..j])
    && t[j..j + 4] == "(NR)"
    && TodosEspacos(t[j + 4..])
  }

  /** `/\.["”](?:\s*\(NR\))\s*$/` */
  predicate HasIndicativoFimAlteracao(t: string) {
    exists i: nat, j: nat | i + 2 <= j && j + 4 <= |t| :: FimAlteracaoEm(t, i, j)
  }

  /** The closing test read right to left: drop trailing white space, the
      `(NR)` token and white space again, then expect `.` and a closing quote. */
  predicate TerminaComFimAlteracao(t: string) {
    var u := TrimEnd(t);
    && EndsWith(u, "(NR)")
    && var v := TrimEnd(u[..|u| - 4]);
    && |v| >= 2
    && v[|v| - 2] == '.'
    && IsAspasFecho(v[|v| - 1])
  }

  lemma {:induction false} FimAlteracaoDaDireita(t: string, i: nat, j: nat)
    requires i + 2 <= j && j + 4 <= |t| && FimAlteracaoEm(t, i, j)
    ensures TerminaComFimAlteracao(t)
  {
    assert t[j + 3] == t[j..j + 4][3] == ')';
    TrimEndEm(t, j + 4);
    var u := TrimEnd(t);
    assert u == t[..j + 4];
    assert u[|u| - 4..] == t[j..j + 4];
    var w := u[..|u| - 4];
    assert w == t[..j];
    assert t[i + 1] == w[i + 1];
    assert w[i + 2..] == t[i + 2..j];
    TrimEndEm(w, i + 2);
    var v := TrimEnd(w);
    assert v == t[..i + 2];
    assert v[|v| - 2] == t[i];
    assert v[|v| - 1] == t[i + 1];
  }

  lemma {:induction false} FimAlteracaoDaEsquerda(t: string)
    requires TerminaComFimAlteracao(t)
    ensures HasIndicativoFimAlteracao(t)
  {
    var u := TrimEnd(t);
    var v := TrimEnd(u[..|u| - 4]);
    var i: nat := |v| - 2;
    var j: nat := |u| - 4;
    assert t[i] == v[i] && t[i + 1] == v[i + 1];
    assert t[i + 2..j] == u[..|u| - 4][|v|..];
    assert t[j..j + 4] == u[|u| - 4..];
    assert t[j + 4..] == t[|u|..];
    assert FimAlteracaoEm(t, i, j);
  }

  /** The regular expression and its right-to-left reading accept the same
      texts. */
  lemma {:induction false} FimAlteracaoDecidivel(t: string)
    ensures HasIndicativoFimAlteracao(t) <==> TerminaComFimAlteracao(t)
  {
    if HasIndicativoFimAlteracao(t) {
      var i: nat, j: nat :| i + 2 <= j && j + 4 <= |t| && FimAlteracaoEm(t, i, j);
      FimAlteracaoDaDireita(t, i, j);
    }
    if TerminaComFimAlteracao(t) { FimAlteracaoDaEsquerda(t); }
  }

  // ---------------------------------------------------------------------
  // hasIndicativoInicioAlteracao
  // ---------------------------------------------------------------------

  /** The four phrases that introduce an amendment. */
  const Frases: seq<string> := [
    "o seguinte acréscimo:",
    "os seguintes acréscimos:",
    "passa a vigorar com a seguinte alteração:",
    "passa a vigorar com as seguintes alterações:"
  ]

  predicate InicioAlteracaoEm(t: string, casa: (string, string) -> bool, k: nat, i: nat, j: nat)
    requires k < |Frases| && i <= j <= |t|
  {
    casa(t[i..j], Frases[k]) && TodosEspacos(t[j..])
  }

  /** One of the four phrases, spelled with flexible spacing, followed only
      by white space: `new RegExp(addSpaceRegex(escapeRegex(frase)) + '\\s*$')`. */
  predicate HasIndicativoInicioAlteracao(t: string, casa: (string, string) -> bool) {
    exists k: nat, i: nat, j: nat | k < |Frases| && i <= j <= |t| :: InicioAlteracaoEm(t, casa, k, i, j)
  }

  lemma FrasesTerminamEmDoisPontos(k: nat)
    requires k < |Frases|
    ensures |Frases[k]| > 0 && Frases[k][|Frases[k]| - 1] == ':'
  {
  }

  /** A phrase matched where trailing white space begins. */
  lemma {:induction false} InicioAlteracaoTerminaTexto(t: string, k: nat, i: nat, j: nat)
    requires k < |Frases| && i <= j <= |t|
    requires t[i..j] == Frases[k] && TodosEspacos(t[j..])
    ensures EndsWith(TrimEnd(t), Frases[k])
  {
    var f := Frases[k];
    FrasesTerminamEmDoisPontos(k);
    assert t[j - 1] == t[i..j][|f| - 1] == ':';
    TrimEndEm(t, j);
    assert TrimEnd(t)[|TrimEnd(t)| - |f|..] == t[i..j];
  }

  /** Were the spacing matcher plain equality, the test would read: once
      trailing white space is dropped, the text ends with one of the four
      phrases. */
  lemma InicioAlteracaoLiteral(t: string, casa: (string, string) -> bool)
    requires forall s, p :: casa(s, p) <==> s == p
    ensures HasIndicativoInicioAlteracao(t, casa) <==>
              exists k | 0 <= k < |Frases| :: EndsWith(TrimEnd(t), Frases[k])
  {
    if HasIndicativoInicioAlteracao(t, casa) {
      InicioLiteralTermina(t, casa);
    }
    if exists k | 0 <= k < |Frases| :: EndsWith(TrimEnd(t), Frases[k]) {
      var k :| 0 <= k < |Frases| && EndsWith(TrimEnd(t), Frases[k]);
      TerminaInicioLiteral(t, casa, k);
    }
  }

  /** A literal match ends where the trailing white space begins. */
  lemma InicioLiteralTermina(t: string, casa: (string, string) -> bool)
    requires forall s, p :: casa(s, p) <==> s == p
    requires HasIndicativoInicioAlteracao(t, casa)
    ensures exists k | 0 <= k < |Frases| :: EndsWith(TrimEnd(t), Frases[k])
  {
    var k: nat, i: nat, j: nat :| k < |Frases| && i <= j <= |t| && InicioAlteracaoEm(t, casa, k, i, j);
    assert casa(t[i..j], Frases[k]);
    InicioAlteracaoTerminaTexto(t, k, i, j);
  }

  /** A phrase ending the trimmed text is a literal match. */
  lemma TerminaInicioLiteral(t: string, casa: (string, string) -> bool, k: nat)
    requires forall s, p :: casa(s, p) <==> s == p
    requires k < |Frases| && EndsWith(TrimEnd(t), Frases[k])
    ensures HasIndicativoInicioAlteracao(t, casa)
  {
    var u := TrimEnd(t);
    var i: nat := |u| - |Frases[k]|;
    var j: nat := |u|;
    assert t[i..j] == u[i..];
    assert casa(t[i..j], Frases[k]);
    assert InicioAlteracaoEm(t, casa, k, i, j);
  }

  // ---------------------------------------------------------------------
  // normalizaSeForOmissis
  // ---------------------------------------------------------------------

  /** `[.]*` */
  predicate Pontos(t: string) {
    forall i | 0 <= i < |t| :: t[i] == '.'
  }

  /** `/^[.]+$/` */
  predicate SoPontos(t: string) {
    |t| > 0 && Pontos(t)
  }

  /** `/^[.]*(?:\s*)["”“]?(\s*)?\(NR\)\s*$/` read right to left: after the
      `(NR)` token and the white space around it, at most one quote, and
      before it only dots and white space. */
  predicate ApenasNR(t: string) {
    var u := TrimEnd(t);
    && EndsWith(u, "(NR)")
    && var v := TrimEnd(u[..|u| - 4]);
    && var w := if |v| > 0 && IsAspas(v[|v| - 1]) then TrimEnd(v[..|v| - 1]) else v;
    && Pontos(w)
  }

  /** `/["”]?(\s*)?\(NR\)?\s*$/`: `(NR`, an optional `)`, then white space
      only. The optional prefix can always match nothing. */
  predicate TerminaComNR(t: string)
    ensures ApenasNR(t) ==> TerminaComNR(t)
  {
    var u := TrimEnd(t);
    EndsWith(u, "(NR)") || EndsWith(u, "(NR")
  }

  /** Whether a closing quote (`["”]`) follows position `i` on its line. */
  predicate FechaNaLinha(t: string, i: nat)
    requires i < |t|
  {
    exists j | i < j < |t| :: IsAspasFecho(t[j]) && SemTerminador(t[i + 1..j])
  }

  /** `/["“](?!.*["”])/` matches at `i`. */
  predicate AberturaSemFecho(t: string, i: nat)
    requires i < |t|
  {
    IsAspasAbertura(t[i]) && !FechaNaLinha(t, i)
  }

  /** The leftmost match of `/["“](?!.*["”])/` at or after `desde`. */
  function PrimeiraAberturaSemFecho(t: string, desde: nat): (r: Option<nat>)
    requires desde <= |t|
    ensures r.Some? ==> desde <= r.value < |t| && AberturaSemFecho(t, r.value)
    ensures r.Some? ==> forall j | desde <= j < r.value :: !AberturaSemFecho(t, j)
    ensures r.None? ==> forall j | desde <= j < |t| :: !AberturaSemFecho(t, j)
    decreases |t| - desde
  {
    if desde == |t| then None
    else if AberturaSemFecho(t, desde) then Some(desde)
    else PrimeiraAberturaSemFecho(t, desde + 1)
  }

  /** `texto.replace(/["“](?!.*["”])/, '”')`: the first opening quote with
      no closing quote after it on its line becomes a closing quote. */
  function SubstituiAspas(t: string): (r: string)
    ensures |r| == |t|
    ensures (forall i | 0 <= i < |t| :: !AberturaSemFecho(t, i)) ==> r == t
    ensures forall i | 0 <= i < |t| && AberturaSemFecho(t, i) ::
              (forall j | 0 <= j < i :: !AberturaSemFecho(t, j)) ==> r == t[i := '”']
  {
    match PrimeiraAberturaSemFecho(t, 0)
    case None => t
    case Some(i) => t[i := '”']
  }

  /** Neither fixed text ends with the `(NR)` token, so normalisation keeps
      them as they are. */
  predicate TextosValidos(k: Textos) {
    !TerminaComNR(k.omissis) && !TerminaComNR(k.padraoAlteracao)
  }

  lemma PontosNaoTerminamComNR(t: string)
    ensures Pontos(t) ==> !TerminaComNR(t)
  {
    if Pontos(t) {
      assert TrimEnd(t) == t;
      if |t| >= 3 {
        assert t[|t| - 1] == '.';
      }
    }
  }

  /** normalizaSeForOmissis: a text that is only the `(NR)` token becomes the
      placeholder; a text ending in `(NR)` gets its dangling opening quote
      closed; a text of dots only becomes the omitted-text marker; anything
      else is kept. */
  function NormalizaSeForOmissis(t: string, k: Textos): (r: string)
    ensures ApenasNR(t) ==> r == k.padraoAlteracao
    ensures TerminaComNR(t) && !ApenasNR(t) ==> r == SubstituiAspas(t)
    ensures SoPontos(t) ==> r == (if t == k.padraoAlteracao then t else k.omissis)
    ensures !TerminaComNR(t) && !SoPontos(t) ==> r == t
  {
    PontosNaoTerminamComNR(t);
    if ApenasNR(t) then
      k.padraoAlteracao
    else if TerminaComNR(t) then
      SubstituiAspas(t)
    else if t == k.omissis || t == k.padraoAlteracao || !SoPontos(t) then
      t
    else
      k.omissis
  }

  /** The two fixed texts are returned unchanged. */
  lemma NormalizaPreservaTextosFixos(k: Textos)
    requires TextosValidos(k)
    ensures NormalizaSeForOmissis(k.omissis, k) == k.omissis
    ensures NormalizaSeForOmissis(k.padraoAlteracao, k) == k.padraoAlteracao
  {
  }

  /** Normalising a dots-only text twice gives what normalising it once gives. */
  lemma NormalizaIdempotenteEmPontos(t: string, k: Textos)
    requires TextosValidos(k)
    requires SoPontos(t)
    ensures NormalizaSeForOmissis(NormalizaSeForOmissis(t, k), k) == NormalizaSeForOmissis(t, k)
  {
    NormalizaPreservaTextosFixos(k);
  }

  // ---------------------------------------------------------------------
  // The `(NR)` search of the amendment rules
  // ---------------------------------------------------------------------

  predicate AspasAntesDeEm(t: string, i: nat, j: nat, token: string)
    requires i < j && j + |token| <= |t|
  {
    t[i] == '”' && SemTerminador(t[i + 1..j]) && t[j..j + |token|] == token
  }

  /** `/”.*(NR)/` as written: the parentheses form a capture group, so the
      expression asks for `”` followed on its line by the letters `NR`. */
  predicate ContemAspasNRComoEscrito(t: string) {
    exists i: nat, j: nat | i < j && j + 2 <= |t| :: AspasAntesDeEm(t, i, j, "NR")
  }

  /** `/”.*\(NR\)/`: `”` followed on its line by the `(NR)` token. */
  predicate ContemAspasNR(t: string) {
    exists i: nat, j: nat | i < j && j + 4 <= |t| :: AspasAntesDeEm(t, i, j, "(NR)")
  }

  /** Every text with the `(NR)` token after a closing quote is also caught
      by the expression as written ... */
  lemma ContemAspasNRImplicaComoEscrito(t: string)
    ensures ContemAspasNR(t) ==> ContemAspasNRComoEscrito(t)
  {
    if ContemAspasNR(t) {
      var i: nat, j: nat :| i < j && j + 4 <= |t| && AspasAntesDeEm(t, i, j, "(NR)");
      assert t[j] == t[j..j + 4][0] == '(';
      assert t[j + 1] == t[j..j + 4][1] == 'N';
      assert t[j + 2] == t[j..j + 4][2] == 'R';
      assert t[i + 1..j + 1] == t[i + 1..j] + [t[j]];
      assert t[j + 1..j + 3] == [t[j + 1], t[j + 2]];
      assert AspasAntesDeEm(t, i, j + 1, "NR");
    }
  }

  /** ... but the expression as written also catches a closing quote
      followed by a word that merely contains `NR`. */
  lemma ComoEscritoAceitaSemParenteses()
    ensures ContemAspasNRComoEscrito("o termo ”x” do CNRS;")
    ensures !ContemAspasNR("o termo ”x” do CNRS;")
  {
    var t := "o termo ”x” do CNRS;";
    assert t[9..16] == "x” do C";
    assert t[16..18] == "NR";
    assert AspasAntesDeEm(t, 8, 16, "NR");
    assert '(' !in t;
    forall i: nat, j: nat | i < j && j + 4 <= |t|
      ensures !AspasAntesDeEm(t, i, j, "(NR)")
    {
      assert t[j..j + 4][0] == t[j];
    }
  }
}
