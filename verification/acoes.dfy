/** The editor actions a provision may offer, and the post-processing every
    rule set applies to its list of offers: duplicates dropped (first
    occurrence kept), the two internal descriptions filtered out, the rest
    sorted by description. The action objects themselves are defined outside
    this model; a `Catalogo` gives each one its description and, for the
    conversion actions, its name. */
module Acoes {
  import opened Tipos
  import opened Texto

  /** The actions the paragraph and item (alínea) rule sets can offer. */
  datatype AcaoId =
    | MoverAbaixo
    | MoverAcima
    | Renumerar
    | IniciarBloco
    | FinalizarBloco
    | AdicionarAlinea
    | AdicionarItem
    | TransformarParagrafoEmIncisoCaput
    | TransformarParagrafoEmIncisoParagrafo
    | TransformarParagrafoEmArtigo
    | TransformarEmOmissisParagrafo
    | TransformarIncisoCaputEmParagrafo
    | TransformarIncisoParagrafoEmParagrafo
    | TransformarAlineaEmIncisoCaput
    | TransformarAlineaEmIncisoParagrafo
    | TransformaAlineaEmItem
    | TransformarEmOmissisAlinea

  /** Description of every action and, for conversion actions (instances of
      TransformarElemento with a name), that name. */
  datatype Catalogo = Catalogo(descricao: AcaoId -> string, nomeAcao: AcaoId -> Option<string>)

  /** Descriptions reserved for internal actions, never offered. */
  predicate Interna(cat: Catalogo, a: AcaoId) {
    cat.descricao(a) == "Adicionar" || cat.descricao(a) == "Atualizar dispositivo"
  }

  /** The name a conversion from kind `origem` to kind `destino` is looked
      up by. */
  function NomeTransformacao(origem: string, destino: string): string {
    "transformar" + origem + "Em" + destino
  }

  /** The run of guarded `push` calls: the actions of the table `rs`, in
      table order, whose guard holds (those in `ofertadas`). */
  function Empilha(rs: seq<AcaoId>, ofertadas: set<AcaoId>): (r: seq<AcaoId>)
    ensures |r| <= |rs|
  {
    if |rs| == 0 then []
    else (if rs[0] in ofertadas then [rs[0]] else []) + Empilha(rs[1..], ofertadas)
  }

  /** An action is pushed exactly when it is in the table and its guard
      holds. */
  lemma {:induction false} EmpilhaContem(rs: seq<AcaoId>, ofertadas: set<AcaoId>, a: AcaoId)
    ensures a in Empilha(rs, ofertadas) <==> a in rs && a in ofertadas
    decreases |rs|
  {
    if |rs| > 0 {
      EmpilhaContem(rs[1..], ofertadas, a);
      assert rs == [rs[0]] + rs[1..];
    }
  }

  /** The conversion names the rule sets synthesise and look up: each
      conversion action is named `transformar<origin>Em<destination>`. */
  function NomeCanonico(a: AcaoId): Option<string> {
    match a
    case TransformarParagrafoEmIncisoCaput => Some(NomeTransformacao(NomeTipo(Paragrafo), NomeTipo(IncisoCaput)))
    case TransformarParagrafoEmIncisoParagrafo => Some(NomeTransformacao(NomeTipo(Paragrafo), NomeTipo(IncisoParagrafo)))
    case TransformarParagrafoEmArtigo => Some(NomeTransformacao(NomeTipo(Paragrafo), NomeTipo(Artigo)))
    case TransformarIncisoCaputEmParagrafo => Some(NomeTransformacao(NomeTipo(IncisoCaput), NomeTipo(Paragrafo)))
    case TransformarIncisoParagrafoEmParagrafo => Some(NomeTransformacao(NomeTipo(IncisoParagrafo), NomeTipo(Paragrafo)))
    case TransformarAlineaEmIncisoCaput => Some(NomeTransformacao(NomeTipo(Alinea), NomeTipo(IncisoCaput)))
    case TransformarAlineaEmIncisoParagrafo => Some(NomeTransformacao(NomeTipo(Alinea), NomeTipo(IncisoParagrafo)))
    case TransformaAlineaEmItem => Some(NomeTransformacao(NomeTipo(Alinea), NomeTipo(Item)))
    case _ => None
  }

  /** A catalog whose conversions carry the names the lookups synthesise,
      and in which no two actions share a name. */
  predicate NomesCanonicos(cat: Catalogo) {
    && (forall a | NomeCanonico(a).Some? :: cat.nomeAcao(a) == NomeCanonico(a))
    && (forall a, b | cat.nomeAcao(a).Some? && cat.nomeAcao(a) == cat.nomeAcao(b) :: a == b)
  }

  predicate Distintos(s: seq<AcaoId>) {
    forall i, j | 0 <= i < j < |s| :: s[i] != s[j]
  }

  /** A list is without duplicates when its head is not in its tail and its
      tail is without duplicates. */
  lemma DistintosCauda(s: seq<AcaoId>)
    requires |s| > 0
    ensures Distintos(s) <==> s[0] !in s[1..] && Distintos(s[1..])
  {
    if Distintos(s) {
      forall j | 0 <= j < |s[1..]| ensures s[1..][j] != s[0] {
        assert s[1..][j] == s[j + 1];
      }
    }
    if s[0] !in s[1..] && Distintos(s[1..]) {
      forall i, j | 0 <= i < j < |s| ensures s[i] != s[j] {
        assert s[j] == s[1..][j - 1];
        if i > 0 {
          assert s[i] == s[1..][i - 1];
        }
      }
    }
  }

  /** The same, splitting off the last element. */
  lemma DistintosInicio(s: seq<AcaoId>)
    requires |s| > 0
    ensures Distintos(s) <==> s[|s| - 1] !in s[..|s| - 1] && Distintos(s[..|s| - 1])
  {
    var p := s[..|s| - 1];
    if Distintos(s) {
      forall i | 0 <= i < |p| ensures p[i] != s[|s| - 1] {
        assert p[i] == s[i];
      }
    }
  }

  /** `[...new Set(s)]`: each action of `s` once, its later repetitions
      dropped. */
  function Dedup(s: seq<AcaoId>): (r: seq<AcaoId>)
    ensures |r| <= |s|
  {
    if |s| == 0 then []
    else if s[|s| - 1] in s[..|s| - 1] then Dedup(s[..|s| - 1])
    else Dedup(s[..|s| - 1]) + [s[|s| - 1]]
  }

  /** Deduplication keeps every action and only those. */
  lemma {:induction false} DedupContem(s: seq<AcaoId>, a: AcaoId)
    ensures a in Dedup(s) <==> a in s
    decreases |s|
  {
    if |s| > 0 {
      DedupContem(s[..|s| - 1], a);
      assert s == s[..|s| - 1] + [s[|s| - 1]];
    }
  }

  /** Deduplication leaves no action twice. */
  lemma {:induction false} DedupDistintos(s: seq<AcaoId>)
    ensures Distintos(Dedup(s))
    decreases |s|
  {
    if |s| > 0 {
      var p := s[..|s| - 1];
      DedupDistintos(p);
      if s[|s| - 1] !in p {
        var r := Dedup(s);
        DedupContem(p, s[|s| - 1]);
        assert r == Dedup(p) + [s[|s| - 1]];
        assert r[..|r| - 1] == Dedup(p);
        DistintosInicio(r);
      }
    }
  }

  /** A list without duplicates is its own deduplication. */
  lemma {:induction false} DedupDeDistintos(s: seq<AcaoId>)
    requires Distintos(s)
    ensures Dedup(s) == s
    decreases |s|
  {
    if |s| > 0 {
      var p := s[..|s| - 1];
      DistintosInicio(s);
      DedupDeDistintos(p);
      assert s == p + [s[|s| - 1]];
    }
  }

  /** `.filter(a => descricao is not internal)`. */
  function Externas(cat: Catalogo, s: seq<AcaoId>): (r: seq<AcaoId>)
    ensures |r| <= |s|
  {
    if |s| == 0 then []
    else if Interna(cat, s[0]) then Externas(cat, s[1..])
    else [s[0]] + Externas(cat, s[1..])
  }

  /** The filter keeps exactly the actions whose description is not
      internal. */
  lemma {:induction false} ExternasContem(cat: Catalogo, s: seq<AcaoId>, a: AcaoId)
    ensures a in Externas(cat, s) <==> a in s && !Interna(cat, a)
    decreases |s|
  {
    if |s| > 0 {
      ExternasContem(cat, s[1..], a);
      assert s == [s[0]] + s[1..];
    }
  }

  /** Filtering adds no duplicate. */
  lemma {:induction false} ExternasDistintos(cat: Catalogo, s: seq<AcaoId>)
    requires Distintos(s)
    ensures Distintos(Externas(cat, s))
    decreases |s|
  {
    if |s| > 0 {
      DistintosCauda(s);
      ExternasDistintos(cat, s[1..]);
      if !Interna(cat, s[0]) {
        var r := Externas(cat, s);
        ExternasContem(cat, s[1..], s[0]);
        assert r[1..] == Externas(cat, s[1..]);
        DistintosCauda(r);
      }
    }
  }

  /** Sorted by description, in code-point order. */
  predicate Ordenado(cat: Catalogo, s: seq<AcaoId>) {
    forall i, j | 0 <= i < j < |s| :: Precede(cat.descricao(s[i]), cat.descricao(s[j]))
  }

  /** Inserts `a` before the first element whose description it precedes,
      so that `a` stays ahead of the elements with the same description. */
  function Insere(cat: Catalogo, a: AcaoId, s: seq<AcaoId>): (r: seq<AcaoId>)
    ensures multiset(r) == multiset(s) + multiset{a}
  {
    if |s| == 0 then [a]
    else if Precede(cat.descricao(a), cat.descricao(s[0])) then [a] + s
    else
      assert s == [s[0]] + s[1..];
      [s[0]] + Insere(cat, a, s[1..])
  }

  /** A sorted list stays sorted without its head. */
  lemma OrdenadoCauda(cat: Catalogo, s: seq<AcaoId>)
    requires Ordenado(cat, s) && |s| > 0
    ensures Ordenado(cat, s[1..])
  {
    forall i, j | 0 <= i < j < |s| - 1
      ensures Precede(cat.descricao(s[1..][i]), cat.descricao(s[1..][j]))
    {
      assert s[1..][i] == s[i + 1] && s[1..][j] == s[j + 1];
    }
  }

  /** In a sorted list the head precedes every later element. */
  lemma OrdenadoCabeca(cat: Catalogo, s: seq<AcaoId>, y: AcaoId)
    requires Ordenado(cat, s) && |s| > 0
    ensures y in s[1..] ==> Precede(cat.descricao(s[0]), cat.descricao(y))
  {
    if y in s[1..] {
      var k :| 0 <= k < |s[1..]| && s[1..][k] == y;
      assert s[k + 1] == y;
    }
  }

  /** A sorted list stays sorted with an element in front that precedes
      all of it. */
  lemma OrdenadoCons(cat: Catalogo, x: AcaoId, r: seq<AcaoId>)
    requires Ordenado(cat, r)
    requires forall y | y in r :: Precede(cat.descricao(x), cat.descricao(y))
    ensures Ordenado(cat, [x] + r)
  {
    forall i, j | 0 <= i < j < |r| + 1
      ensures Precede(cat.descricao(([x] + r)[i]), cat.descricao(([x] + r)[j]))
    {
      assert ([x] + r)[j] == r[j - 1];
      if i > 0 {
        assert ([x] + r)[i] == r[i - 1];
      } else {
        assert r[j - 1] in r;
      }
    }
  }

  /** Insertion adds `a` and nothing else. */
  lemma InsereElementos(cat: Catalogo, a: AcaoId, s: seq<AcaoId>, y: AcaoId)
    ensures y in Insere(cat, a, s) ==> y == a || y in s
  {
    if y in Insere(cat, a, s) {
      assert y in multiset(Insere(cat, a, s));
    }
  }

  /** Inserting into a sorted list keeps it sorted. */
  lemma {:induction false} InsereOrdenado(cat: Catalogo, a: AcaoId, s: seq<AcaoId>)
    requires Ordenado(cat, s)
    ensures Ordenado(cat, Insere(cat, a, s))
    decreases |s|
  {
    if |s| > 0 {
      if Precede(cat.descricao(a), cat.descricao(s[0])) {
        forall y | y in s
          ensures Precede(cat.descricao(a), cat.descricao(y))
        {
          assert s == [s[0]] + s[1..];
          OrdenadoCabeca(cat, s, y);
          if y != s[0] {
            PrecedeTransitivo(cat.descricao(a), cat.descricao(s[0]), cat.descricao(y));
          }
        }
        OrdenadoCons(cat, a, s);
      } else {
        PrecedeTotal(cat.descricao(a), cat.descricao(s[0]));
        OrdenadoCauda(cat, s);
        InsereOrdenado(cat, a, s[1..]);
        var resto := Insere(cat, a, s[1..]);
        forall y | y in resto
          ensures Precede(cat.descricao(s[0]), cat.descricao(y))
        {
          InsereElementos(cat, a, s[1..], y);
          OrdenadoCabeca(cat, s, y);
        }
        OrdenadoCons(cat, s[0], resto);
      }
    }
  }

  /** A sort by description (insertion sort). */
  function Ordena(cat: Catalogo, s: seq<AcaoId>): (r: seq<AcaoId>)
    ensures multiset(r) == multiset(s)
  {
    if |s| == 0 then []
    else
      assert s == [s[0]] + s[1..];
      Insere(cat, s[0], Ordena(cat, s[1..]))
  }

  /** The sort's result is sorted. */
  lemma {:induction false} OrdenaOrdenado(cat: Catalogo, s: seq<AcaoId>)
    ensures Ordenado(cat, Ordena(cat, s))
    decreases |s|
  {
    if |s| > 0 {
      OrdenaOrdenado(cat, s[1..]);
      InsereOrdenado(cat, s[0], Ordena(cat, s[1..]));
    }
  }

  /** A repeated element is counted at least twice. */
  lemma ContagemPar(r: seq<AcaoId>, i: nat, j: nat)
    requires i < j < |r|
    ensures r[i] == r[j] ==> multiset(r)[r[i]] >= 2
  {
    assert r == r[..j] + [r[j]] + r[j + 1..];
    assert r[..j][i] == r[i];
    assert multiset(r) == multiset(r[..j]) + multiset{r[j]} + multiset(r[j + 1..]);
  }

  /** In a list without duplicates every element is counted at most once. */
  lemma {:induction false} ContagemDistintos(s: seq<AcaoId>, x: AcaoId)
    requires Distintos(s)
    ensures multiset(s)[x] <= 1
    decreases |s|
  {
    if |s| > 0 {
      assert s == [s[0]] + s[1..];
      DistintosCauda(s);
      ContagemDistintos(s[1..], x);
    }
  }

  /** Sorting keeps the elements and their multiplicity, so a list without
      duplicates stays without duplicates. */
  lemma DistintosPorMultiset(s: seq<AcaoId>, r: seq<AcaoId>)
    requires multiset(r) == multiset(s) && Distintos(s)
    ensures Distintos(r)
  {
    forall i, j | 0 <= i < j < |r| ensures r[i] != r[j] {
      ContagemPar(r, i, j);
      ContagemDistintos(s, r[i]);
    }
  }

  /** What every rule set does with its list of offers before returning it. */
  function Finaliza(cat: Catalogo, s: seq<AcaoId>): (r: seq<AcaoId>)
    ensures multiset(r) == multiset(Externas(cat, Dedup(s)))
  {
    Ordena(cat, Externas(cat, Dedup(s)))
  }

  /** The offered list is sorted by description and has no duplicates. */
  lemma FinalizaOrdenado(cat: Catalogo, s: seq<AcaoId>)
    ensures Ordenado(cat, Finaliza(cat, s))
    ensures Distintos(Finaliza(cat, s))
  {
    var e := Externas(cat, Dedup(s));
    OrdenaOrdenado(cat, e);
    DedupDistintos(s);
    ExternasDistintos(cat, Dedup(s));
    DistintosPorMultiset(e, Ordena(cat, e));
  }

  /** An action is offered iff it was pushed and its description is not an
      internal one. */
  lemma FinalizaContem(cat: Catalogo, s: seq<AcaoId>, a: AcaoId)
    ensures a in Finaliza(cat, s) <==> a in s && !Interna(cat, a)
  {
    var e := Externas(cat, Dedup(s));
    DedupContem(s, a);
    ExternasContem(cat, Dedup(s), a);
    assert a in Ordena(cat, e) <==> a in multiset(Ordena(cat, e));
  }

  /** The lookup by name: the first action of `s` whose name is `nome`
      (`.filter(a => a.nomeAcao === nome)[0]`). */
  function Procura(cat: Catalogo, s: seq<AcaoId>, nome: string): (r: Option<AcaoId>)
    ensures r.Some? ==> r.value in s && cat.nomeAcao(r.value) == Some(nome)
  {
    if |s| == 0 then None
    else if cat.nomeAcao(s[0]) == Some(nome) then Some(s[0])
    else Procura(cat, s[1..], nome)
  }

  /** The lookup returns a listed action with the name, the first one in
      the list, and finds nothing only when no listed action has it. */
  lemma {:induction false} ProcuraCorreta(cat: Catalogo, s: seq<AcaoId>, nome: string)
    ensures Procura(cat, s, nome).Some? ==>
              Procura(cat, s, nome).value in s && cat.nomeAcao(Procura(cat, s, nome).value) == Some(nome)
    ensures Procura(cat, s, nome).Some? ==>
              exists i | 0 <= i < |s| :: s[i] == Procura(cat, s, nome).value &&
                forall j | 0 <= j < i :: cat.nomeAcao(s[j]) != Some(nome)
    ensures Procura(cat, s, nome).None? <==> forall a | a in s :: cat.nomeAcao(a) != Some(nome)
    decreases |s|
  {
    if |s| > 0 {
      ProcuraCorreta(cat, s[1..], nome);
      assert s == [s[0]] + s[1..];
      if cat.nomeAcao(s[0]) != Some(nome) && Procura(cat, s, nome).Some? {
        var t := s[1..];
        var i :| 0 <= i < |t| && t[i] == Procura(cat, t, nome).value &&
                 forall j | 0 <= j < i :: cat.nomeAcao(t[j]) != Some(nome);
        assert s[i + 1] == t[i];
        forall j | 0 <= j < i + 1
          ensures cat.nomeAcao(s[j]) != Some(nome)
        {
          if j > 0 {
            assert s[j] == t[j - 1];
          }
        }
      }
    }
  }

  /** In a list without duplicate names the lookup finds the one action with
      that name. */
  lemma {:induction false} ProcuraUnico(cat: Catalogo, s: seq<AcaoId>, nome: string, a: AcaoId)
    requires a in s && cat.nomeAcao(a) == Some(nome)
    requires forall b | b in s && cat.nomeAcao(b) == Some(nome) :: b == a
    ensures Procura(cat, s, nome) == Some(a)
    decreases |s|
  {
    if cat.nomeAcao(s[0]) != Some(nome) {
      assert a in s[1..] by {
        assert s == [s[0]] + s[1..];
      }
      ProcuraUnico(cat, s[1..], nome, a);
    }
  }
}
