/** The quotation of one provision inside an amendment command
    (src/emenda/citacao-cmd-simples.ts): the label, the provision's text and,
    when the provision has children that are kept, an omission paragraph
    that stands for them; the closing quote ends whichever comes last. */
module Citacao {
  import opened Tipos

  const AbreAspas: string := "“"
  const FechaAspas: string := "”"

  /** A node of a TagNode tree: an element with its children in the order
      they were added (`add` and `addValor` both append), or a text value.
      Serialising the tree to markup is not part of this model. */
  datatype Tag = Elem(nome: string, filhos: seq<Tag>) | Valor(texto: string)

  /** What getTexto reads about the cited provision. The text is the
      answer of `CmdEmdUtil.getTextoParaCitacao`, which is not part of this
      model; `alteracao` is the hierarchy query `isDispositivoAlteracao`. */
  datatype Citado = Citado(
    caput: bool,
    rotulo: string,
    rotuloPai: string,
    textoParaCitacao: string,
    alteracao: bool,
    filhos: seq<Situacao>)

  /** Some child is not suppressed. */
  predicate AlgumNaoSuprimido(filhos: seq<Situacao>) {
    exists i | 0 <= i < |filhos| :: !filhos[i].Suprimido?
  }

  /** temFilhoNaoSuprimido: scans the children and stops at the first one
      that is not suppressed. */
  method TemFilhoNaoSuprimido(filhos: seq<Situacao>) returns (r: bool)
    ensures r <==> AlgumNaoSuprimido(filhos)
  {
    var i := 0;
    while i < |filhos|
      invariant 0 <= i <= |filhos|
      invariant forall j | 0 <= j < i :: filhos[j].Suprimido?
    {
      if !filhos[i].Suprimido? {
        return true;
      }
      i := i + 1;
    }
    return false;
  }

  /** necessitaOmissis: kept children of a provision outside an amendment
      block are represented by an omission line. */
  predicate NecessitaOmissis(d: Citado) {
    AlgumNaoSuprimido(d.filhos) && !d.alteracao
  }

  /** A caput is labelled with its article's label. */
  function RotuloExibido(d: Citado): string {
    if d.caput then d.rotuloPai else d.rotulo
  }

  /** getTexto: the paragraphs appended to the output, in order. */
  function GetTexto(d: Citado): (r: seq<Tag>)
    ensures |r| == (if NecessitaOmissis(d) then 2 else 1)
    ensures r[0].Elem? && r[0].nome == "p" && |r[0].filhos| >= 2
    ensures r[0].filhos[0] == Elem("Rotulo", [Valor(AbreAspas + RotuloExibido(d))])
    ensures r[0].filhos[1] == Valor(d.textoParaCitacao)
    ensures r[|r| - 1].Elem? && |r[|r| - 1].filhos| > 0
    ensures r[|r| - 1].filhos[|r[|r| - 1].filhos| - 1] == Valor(FechaAspas)
  {
    var tagRotulo := Elem("Rotulo", [Valor(AbreAspas + RotuloExibido(d))]);
    var corpo := [tagRotulo, Valor(d.textoParaCitacao)];
    if NecessitaOmissis(d) then
      [Elem("p", corpo), Elem("p", [Elem("Omissis", []), Valor(FechaAspas)])]
    else
      [Elem("p", corpo + [Valor(FechaAspas)])]
  }

  // -----------------------------------------------------------------------
  // Reading a quotation back
  // -----------------------------------------------------------------------

  /** What a quotation says: the label shown, the quoted text and whether
      kept children are omitted. */
  datatype Leitura = Leitura(rotulo: string, texto: string, omissis: bool)

  /** The label element of a quotation, if `t` is one. */
  function LeRotulo(t: Tag): Option<string> {
    if t.Elem? && t.nome == "Rotulo" && |t.filhos| == 1 && t.filhos[0].Valor?
       && |t.filhos[0].texto| > 0 && t.filhos[0].texto[..1] == AbreAspas
    then Some(t.filhos[0].texto[1..])
    else None
  }

  /** Reads the label, the text and the closing position back from the
      paragraphs: an omission paragraph after the provision's, or the
      closing quote at the end of the provision's own paragraph. */
  function Le(r: seq<Tag>): Option<Leitura> {
    if |r| == 2 && r[0].Elem? && r[0].nome == "p" && |r[0].filhos| == 2
       && LeRotulo(r[0].filhos[0]).Some? && r[0].filhos[1].Valor?
       && r[1] == Elem("p", [Elem("Omissis", []), Valor(FechaAspas)])
    then Some(Leitura(LeRotulo(r[0].filhos[0]).value, r[0].filhos[1].texto, true))
    else if |r| == 1 && r[0].Elem? && r[0].nome == "p" && |r[0].filhos| == 3
       && LeRotulo(r[0].filhos[0]).Some? && r[0].filhos[1].Valor?
       && r[0].filhos[2] == Valor(FechaAspas)
    then Some(Leitura(LeRotulo(r[0].filhos[0]).value, r[0].filhos[1].texto, false))
    else None
  }

  /** A quotation reads back as the label shown, the quoted text and
      whether an omission line was needed. */
  lemma LeGetTexto(d: Citado)
    ensures Le(GetTexto(d)) == Some(Leitura(RotuloExibido(d), d.textoParaCitacao, NecessitaOmissis(d)))
  {
    var tagRotulo := Elem("Rotulo", [Valor(AbreAspas + RotuloExibido(d))]);
    assert (AbreAspas + RotuloExibido(d))[..1] == AbreAspas;
    assert (AbreAspas + RotuloExibido(d))[1..] == RotuloExibido(d);
    assert LeRotulo(tagRotulo) == Some(RotuloExibido(d));
  }

  // -----------------------------------------------------------------------
  // Counting the closing quotes
  // -----------------------------------------------------------------------

  /** Number of text values equal to the closing quote in a list of trees. */
  function Fechamentos(ts: seq<Tag>): nat
    decreases ts
  {
    if |ts| == 0 then 0
    else FechamentosNo(ts[0], ts) + Fechamentos(ts[1..])
  }

  /** The count of one tree `t` of the list `ts`. */
  function FechamentosNo(t: Tag, ts: seq<Tag>): nat
    requires t in ts
    decreases ts, 0
  {
    match t
    case Valor(v) => if v == FechaAspas then 1 else 0
    case Elem(_, fs) => Fechamentos(fs)
  }

  /** Concatenated lists add their counts. */
  lemma {:induction false} FechamentosConcat(a: seq<Tag>, b: seq<Tag>)
    ensures Fechamentos(a + b) == Fechamentos(a) + Fechamentos(b)
    decreases a
  {
    if |a| > 0 {
      assert (a + b)[0] == a[0];
      assert (a + b)[1..] == a[1..] + b;
      FechamentosConcat(a[1..], b);
      assert FechamentosNo(a[0], a + b) == FechamentosNo(a[0], a);
    } else {
      assert a + b == b;
    }
  }

  /** Unless the quoted text is itself a closing quote, a quotation holds
      exactly one closing quote, whether or not the omission line is
      emitted. */
  lemma UmaSoAspaDeFechamento(d: Citado)
    requires d.textoParaCitacao != FechaAspas
    ensures Fechamentos(GetTexto(d)) == 1
  {
    var rot := AbreAspas + RotuloExibido(d);
    assert rot != FechaAspas by {
      assert rot[0] == '“';
    }
    var tagRotulo := Elem("Rotulo", [Valor(rot)]);
    assert Fechamentos([Valor(rot)]) == 0;
    assert Fechamentos([tagRotulo]) == 0;
    var corpo := [tagRotulo, Valor(d.textoParaCitacao)];
    FechamentosConcat([tagRotulo], [Valor(d.textoParaCitacao)]);
    assert corpo == [tagRotulo] + [Valor(d.textoParaCitacao)];
    assert Fechamentos(corpo) == 0;
    FechamentosConcat(corpo, [Valor(FechaAspas)]);
    var omissis := [Elem("Omissis", []), Valor(FechaAspas)];
    FechamentosConcat([Elem("Omissis", [])], [Valor(FechaAspas)]);
    assert omissis == [Elem("Omissis", [])] + [Valor(FechaAspas)];
    assert Fechamentos(omissis) == 1;
    FechamentosConcat([Elem("p", corpo)], [Elem("p", omissis)]);
    assert [Elem("p", corpo), Elem("p", omissis)] == [Elem("p", corpo)] + [Elem("p", omissis)];
  }
}
