/** The reducer state of one document (src/redux/state.ts) and the state
    a freshly loaded document starts from
    (src/redux/elemento/reducer/loadArticulacao.ts). Nodes of the tree are
    identified by `NoId`; the tree itself lives outside the state record. */
module Estado {
  import opened Tipos

  /** Identity of a node of the provision tree. */
  type NoId = nat

  /** The seven kinds of state event. */
  datatype StateType =
    | DocumentoCarregado
    | ElementoModificado
    | ElementoIncluido
    | ElementoRemovido
    | ElementoRenumerado
    | ElementoValidado
    | ElementoSelecionado

  /** Every kind of state event, once each. */
  const TiposDeEvento: seq<StateType> := [
    DocumentoCarregado, ElementoModificado, ElementoIncluido, ElementoRemovido,
    ElementoRenumerado, ElementoValidado, ElementoSelecionado
  ]

  /** The read-model projection of a node the rendering surface receives:
      the node it shows, the messages attached to it and whether its action
      list was included. */
  datatype Elemento = Elemento(no: NoId, mensagens: seq<Mensagem>, comAcoes: bool)

  /** One entry of an event batch. */
  datatype StateEvent = StateEvent(
    stateType: StateType,
    referencia: Option<Elemento>,
    elementos: Option<seq<Elemento>>)

  /** An undo or redo history: a list of event batches, oldest first. */
  type Historico = seq<seq<StateEvent>>

  datatype Ui = Ui(events: seq<StateEvent>, message: Option<Mensagem>)

  /** The reducer state. The articulation is named by its root node. */
  datatype ElementoState = ElementoState(
    articulacao: Option<NoId>,
    tipoDocumento: Option<string>,
    past: Option<Historico>,
    present: seq<StateEvent>,
    future: Option<Historico>,
    ui: Option<Ui>)

  /** createState: the new state keeps the articulation of the old one and
      takes the histories, the present batch and the UI events from the
      arguments; nothing else of the old state survives. */
  function CreateState(state: ElementoState, events: seq<StateEvent>, past: Historico,
                       present: seq<StateEvent>, future: Historico): (r: ElementoState)
    ensures r.articulacao == state.articulacao
    ensures r.past == Some(past) && r.present == present && r.future == Some(future)
    ensures r.ui == Some(Ui(events, None))
    ensures r.tipoDocumento.None?
  {
    ElementoState(state.articulacao, None, Some(past), present, Some(future), Some(Ui(events, None)))
  }

  /** The single event announcing a loaded document with its elements. */
  function EventoDeCarga(elementos: seq<Elemento>): StateEvent {
    StateEvent(DocumentoCarregado, None, Some(elementos))
  }

  /** load: the articulation and the document type are kept, the histories
      and the present batch are empty, and the UI receives one event of kind
      DocumentoCarregado with the articulation's elements (`getElementos` is
      not part of this model: its answer is the parameter `elementos`). */
  function Load(articulacao: NoId, tipoDocumento: Option<string>, elementos: seq<Elemento>): (r: ElementoState)
    ensures r.articulacao == Some(articulacao) && r.tipoDocumento == tipoDocumento
    ensures r.past == Some([]) && r.present == [] && r.future == Some([])
    ensures r.ui.Some? && |r.ui.value.events| == 1 && r.ui.value.message.None?
    ensures r.ui.value.events[0].stateType == DocumentoCarregado
    ensures r.ui.value.events[0].elementos == Some(elementos)
  {
    ElementoState(Some(articulacao), tipoDocumento, Some([]), [], Some([]),
                  Some(Ui([EventoDeCarga(elementos)], None)))
  }

  // -----------------------------------------------------------------------
  // Properties
  // -----------------------------------------------------------------------

  /** The event kinds form a closed set of exactly seven. */
  lemma SeteTiposDeEvento(t: StateType)
    ensures t in TiposDeEvento
    ensures |TiposDeEvento| == 7
    ensures forall i, j | 0 <= i < j < |TiposDeEvento| :: TiposDeEvento[i] != TiposDeEvento[j]
  {
  }

  /** createState depends on the old state only through its articulation. */
  lemma CreateStateSoLeArticulacao(s1: ElementoState, s2: ElementoState, events: seq<StateEvent>,
                                   past: Historico, present: seq<StateEvent>, future: Historico)
    requires s1.articulacao == s2.articulacao
    ensures CreateState(s1, events, past, present, future) == CreateState(s2, events, past, present, future)
  {
  }

  /** Rebuilding the state of a loaded document with its own event and
      empty histories changes only the document type, which createState
      does not carry. */
  lemma LoadComoCreateState(articulacao: NoId, tipoDocumento: Option<string>, elementos: seq<Elemento>)
    ensures CreateState(Load(articulacao, tipoDocumento, elementos), [EventoDeCarga(elementos)], [], [], [])
            == Load(articulacao, tipoDocumento, elementos).(tipoDocumento := None)
  {
  }
}
