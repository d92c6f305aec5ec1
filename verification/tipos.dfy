/** Shared vocabulary of the provision editor: provision kinds, lifecycle
    situations and validation messages. */
module Tipos {

  datatype Option<+T> = None | Some(value: T)

  /** Agglomerator levels: grouping kinds that hold articles but no text. */
  datatype NivelAgrupador = Parte | Livro | Titulo | Capitulo | Secao | Subsecao

  /** Provision kinds (TipoDispositivo). */
  datatype Tipo =
    | Articulacao
    | Agrupador(nivel: NivelAgrupador)
    | Artigo
    | Caput
    | Paragrafo
    | IncisoCaput
    | IncisoParagrafo
    | Alinea
    | Item
    | Omissis

  /** The `name` of each kind, the word conversion actions are named by
      (`transformar` + origin name + `Em` + destination name). */
  function NomeTipo(t: Tipo): string {
    match t
    case Articulacao => "Articulacao"
    case Agrupador(n) => (
      match n
      case Parte => "Parte"
      case Livro => "Livro"
      case Titulo => "Titulo"
      case Capitulo => "Capitulo"
      case Secao => "Secao"
      case Subsecao => "Subsecao")
    case Artigo => "Artigo"
    case Caput => "Caput"
    case Paragrafo => "Paragrafo"
    case IncisoCaput => "IncisoCaput"
    case IncisoParagrafo => "IncisoParagrafo"
    case Alinea => "Alinea"
    case Item => "Item"
    case Omissis => "Omissis"
  }

  /** The name shared by both inciso kinds' allowed-type entries. */
  const NomeInciso: string := "Inciso"

  /** Agglomerators and the articulation root take the restricted rule set. */
  predicate IsAgrupador(t: Tipo) {
    t.Articulacao? || t.Agrupador?
  }

  /** Lifecycle situation of a provision; only suppression is ever inspected. */
  datatype Situacao = Suprimido | NaoSuprimido(descricao: string)

  datatype TipoMensagem = Error | Warning

  /** One tag per validation rule; the Portuguese wording is not modelled. */
  datatype Regra =
    // restricted rule set (agglomerators)
    | AgrupadorSemTexto
    | AgrupadorComPontuacao
    | AgrupadorComFormatacao
    // full rule set, in source order
    | SemTexto
    | HtmlInvalido
    | TextoExtenso
    | DeveriaIniciarMinuscula
    | SemIndicadorSequencia
    | DeveriaIniciarMaiuscula
    | SemIndicadorDesdobramento
    | SemIndicadorFimSequencia
    | SemIndicadorContinuacao
    | ArtigoParagrafoSemIndicadorSequencia
    | ArtigoSemInicioAlteracao
    | ArtigoDesdobramentoSemFilhos
    | SemNormaAlterada
    | AlteracaoSemIndicadorDesdobramento
    | AlteracaoParagrafoSemIndicadorSequencia
    | SemFimAlteracao
    | AspasForaDoFimAlteracao
    | NRForaDoFimAlteracao
    | NenhumaAlteracao
    | AlteracaoSemIndicadorFimSequencia

  /** The severity each rule reports: only the length advisory and the
      lower-case advisory are warnings. */
  function Severidade(r: Regra): TipoMensagem {
    if r == TextoExtenso || r == DeveriaIniciarMinuscula then Warning else Error
  }

  datatype Mensagem = Mensagem(tipo: TipoMensagem, regra: Regra)

  /** The message a rule emits when its guard holds. */
  function MensagemDe(r: Regra): Mensagem {
    Mensagem(Severidade(r), r)
  }
}
