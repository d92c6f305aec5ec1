# lexml-eta editor core, modelled in Dafny

lexml-eta is an editor for Brazilian legislative texts. A document is a tree of
provisions (dispositivos): articles, paragraphs, incisos, alíneas, items,
omissions, and the agglomerators that group articles. This project models five
pieces of its core as pure functions over a snapshot of one provision. It then
proves what each piece promises.

- **Content validator** (`ConteudoValidator`, with the text recognisers in
  `Indicativos` and `Texto`). This is the table of independent rules that turn
  a provision's text and position into ERROR and WARNING messages.
  Agglomerators, including the articulation root, take the restricted rule
  set. Every other kind takes the full set.
- **Action rules of paragraphs and alíneas** (`RegrasParagrafo`,
  `RegrasAlinea`, with the shared post-processing in `Acoes`). This covers the
  list of actions the editor offers on a provision, deduplicated, filtered and
  sorted. It also covers the conversion that Tab and Shift+Tab pick from that
  list by synthesising its name.
- **Reducer helpers** (`ReducerUtil`):
  - the undo/redo history push;
  - the amendment predicates;
  - the choice of the nodes to re-validate after an edit (which threads the
    messages stored on the nodes);
  - the event batches for a removal and for a transformation.
- **State** (`Estado`). This is the shape of the reducer state, `createState`
  and `load`.
- **Citation** (`Citacao`). This is the quotation of one provision in an
  amendment command: its label, its text, an omission line for kept children,
  and the closing quote.

The hierarchy queries, the HTML and punctuation tests, the element factory,
the validator of whole provisions and the text indicators are not part of
this model. They are defined outside the files modelled. Their answers are
record fields (`Dispositivos.Dispositivo`, `ReducerUtil.Arvore`) or
parameters. So every rule that reads them is modelled exactly, and nothing is
assumed about how they are computed.

## Model

| member | source | states |
|---|---|---|
| ConteudoValidator.Analisa | src/model/lexml/conteudo/conteudoValidator.ts:58 | the blank-text flag holds exactly when every character of the text is white space, i.e. when `trim()` leaves nothing |
| ConteudoValidator.FiltraContem | src/model/lexml/conteudo/conteudoValidator.ts:52-307 | a rule's message is in the result exactly when the rule is in the table and its guard holds; no rule suppresses another |
| ConteudoValidator.FiltraEmOrdem | src/model/lexml/conteudo/conteudoValidator.ts:52-307 | the messages come out in the order of the rule table (source order) |
| ConteudoValidator.ValidaAgrupador | src/model/lexml/conteudo/conteudoValidator.ts:29-50 | at most three messages, in the order of the three agglomerator rules |
| ConteudoValidator.ValidaDispositivo | src/model/lexml/conteudo/conteudoValidator.ts:52-307 | at most twenty messages, in the order of the full rule table |
| ConteudoValidator.Reporta | src/model/lexml/conteudo/conteudoValidator.ts:310-312 | a message is reported exactly when its rule belongs to the rule set of the provision's kind (agglomerator set iff agglomerator), its guard holds, and it carries that rule's severity |
| ConteudoValidator.ValidaTexto | src/model/lexml/conteudo/conteudoValidator.ts:310-312 | validaTexto: the messages of a provision are those of the rule set of its kind whose guards hold on its own text; what that reports is stated by ReportaTexto and the per-rule lemmas below |
| ConteudoValidator.ReportaTexto | src/model/lexml/conteudo/conteudoValidator.ts:310-312 | the same, for the guards evaluated on the provision's own text |
| ConteudoValidator.ReportaRegraDeDispositivo | src/model/lexml/conteudo/conteudoValidator.ts:52-307 | a full-set rule reports exactly on a non-agglomerator whose guard holds |
| ConteudoValidator.SoDuasAdvertencias | src/model/lexml/conteudo/conteudoValidator.ts:52-307 | a reported message is a WARNING exactly when it is the length advisory or the lower-case advisory; every other one is an ERROR |
| ConteudoValidator.RaizSemMensagens | src/model/lexml/conteudo/conteudoValidator.ts:29-50 | the articulation root gets no message at all |
| ConteudoValidator.AgrupadorCumulativo | src/model/lexml/conteudo/conteudoValidator.ts:31-48 | an agglomerator gets the blank-text, trailing-punctuation and markup errors each exactly when its own condition holds, independently of the other two |
| ConteudoValidator.TextoExtensoAdverte | src/model/lexml/conteudo/conteudoValidator.ts:70-75 | the length warning fires exactly on a non-agglomerator with a non-empty text whose trimmed length exceeds 300 |
| ConteudoValidator.ArtigoParagrafoIniciaMaiuscula | src/model/lexml/conteudo/conteudoValidator.ts:110-115 | an article or paragraph is told to start with a capital exactly when its text is non-empty and starts with neither three dots nor a letter in A–Z or À–Ú |
| ConteudoValidator.CitacaoDispensaIndicadorSequencia | src/model/lexml/conteudo/conteudoValidator.ts:168-182 | a text ending in a quoted sentence after a colon never gets the missing-sequence-indicator error |
| ConteudoValidator.FechoDoBlocoDeAlteracao | src/model/lexml/conteudo/conteudoValidator.ts:251-256 | an amendment provision gets the missing `.” (NR)` error exactly when it is the last of the block and its text lacks the closing indicator |
| ConteudoValidator.NRSoNoFechoDoBloco | src/model/lexml/conteudo/conteudoValidator.ts:270-275 | an amendment provision gets the "only the last one" error exactly when it is not the last and its text has `(NR)` after a closing quote |
| ConteudoValidator.AspasSoNoFechoDoBloco | src/model/lexml/conteudo/conteudoValidator.ts:257-269 | an amendment provision gets the "only the last one may end in quotes" error exactly when it is not the last, its text ends in a quote, does not end in a quoted sentence, and has no `(NR)` token after a closing quote |
| ConteudoValidator.AspasForaComoEscritoCala | src/model/lexml/conteudo/conteudoValidator.ts:263 | `o termo ”x” do CNRS “y”` ends in a quote and holds no citation or `(NR)` token, yet the expression as written matches it |
| ConteudoValidator.AspasForaReportadaNoExemplo | src/model/lexml/conteudo/conteudoValidator.ts:257-269 | a non-last amendment provision with that text gets the quote error |
| ConteudoValidator.SemTextoSoEmBranco | src/model/lexml/conteudo/conteudoValidator.ts:58-63 | a non-agglomerator gets the missing-text error exactly when its text is empty or all white space |
| ConteudoValidator.CabecaSemAlteracao | src/model/lexml/conteudo/conteudoValidator.ts:276-287 | the "no amendment given" error fires exactly on a childless block head whose text is the placeholder or the omission text |
| ConteudoValidator.FimAlteracaoExemplos | src/redux/elemento-reducer-util.ts:109-111 | `Texto.”(NR)` closes an amendment block and `Texto.”` does not |
| Indicativos.HasCitacaoAoFinalFrase | src/model/lexml/conteudo/conteudoValidator.ts:25-27 | a recognised citation ends with a dot and a quote |
| Indicativos.CitacaoExemplo | src/model/lexml/conteudo/conteudoValidator.ts:25-27 | a colon, a space and a quoted sentence ending in `.”` is recognised |
| Indicativos.HasIndicativoFimAlteracao | src/redux/elemento-reducer-util.ts:109-111 | the closing indicator: somewhere in the text a dot, a closing quote, white space, the `(NR)` token, and only white space after it; FimAlteracaoDecidivel proves it equal to the right-to-left reading |
| Indicativos.HasIndicativoInicioAlteracao | src/redux/elemento-reducer-util.ts:84-91 | the opening indicator: one of the four phrases, as the spacing matcher spells it, followed only by white space; InicioAlteracaoLiteral characterises it for an exact matcher |
| Indicativos.ApenasNR | src/redux/elemento-reducer-util.ts:94 | the placeholder test of normalizaSeForOmissis: the text ends in `(NR)` and white space, and before that token there are only dots and white space with at most one quote |
| Indicativos.FimAlteracaoDecidivel | src/redux/elemento-reducer-util.ts:109-111 | the regular expression (a match somewhere) holds exactly when the text, read right to left, is white space, `(NR)`, white space, a closing quote and a dot |
| Indicativos.InicioAlteracaoTerminaTexto | src/redux/elemento-reducer-util.ts:84-91 | a phrase followed only by white space is what the text ends with once trailing white space is dropped |
| Indicativos.InicioAlteracaoLiteral | src/redux/elemento-reducer-util.ts:84-91 | with exact spacing, the opening indicator holds exactly when the trimmed text ends with one of the four fixed phrases |
| Indicativos.TerminaComNR | src/redux/elemento-reducer-util.ts:98 | every text that passes the placeholder test (dots, white space and at most one quote before a final `(NR)`) also passes the second, looser `(NR)` test |
| Indicativos.NormalizaSeForOmissis | src/redux/elemento-reducer-util.ts:93-107 | a text of dots, white space and at most one quote before a final `(NR)` becomes the placeholder; a text ending in `(NR)` gets its dangling opening quote replaced; a dots-only text becomes the omission text unless it is the placeholder; any other text is kept |
| Indicativos.SubstituiAspas | src/redux/elemento-reducer-util.ts:99 | only the leftmost opening or straight quote with no closing or straight quote after it on the same line becomes a closing quote; a text without such a quote is unchanged; the length is kept |
| Indicativos.NormalizaPreservaTextosFixos | src/redux/elemento-reducer-util.ts:102-104 | the omission text and the placeholder are returned unchanged |
| Indicativos.NormalizaIdempotenteEmPontos | src/redux/elemento-reducer-util.ts:102-106 | normalising a dots-only text twice gives the same as normalising it once |
| Indicativos.ContemAspasNRImplicaComoEscrito | src/model/lexml/conteudo/conteudoValidator.ts:270 | every text with the `(NR)` token after a closing quote is also caught by the expression as written |
| Indicativos.ComoEscritoAceitaSemParenteses | src/model/lexml/conteudo/conteudoValidator.ts:270 | the expression as written also catches `NR` without parentheses after a quote, which the intended token test rejects |
| Texto.TrimVazioSeEspacos | src/model/lexml/conteudo/conteudoValidator.ts:31 | trimming leaves nothing exactly when the text is all white space |
| Texto.PrecedeTotal | src/model/lexml/regras/regrasParagrafo.ts:77 | any two descriptions are comparable in the order the sort uses |
| Texto.PrecedeTransitivo | src/model/lexml/regras/regrasParagrafo.ts:77 | that order is transitive |
| Texto.PrecedeAntissimetrico | src/model/lexml/regras/regrasParagrafo.ts:77 | two descriptions that precede each other are equal |
| Acoes.Empilha | src/model/lexml/regras/regrasParagrafo.ts:42-70 | the guarded pushes: at most one action per table entry, so never more actions than the table; EmpilhaContem states which |
| Acoes.EmpilhaContem | src/model/lexml/regras/regrasParagrafo.ts:42-70 | an action is pushed exactly when it is in the rule table and its guard holds |
| Acoes.Dedup | src/model/lexml/regras/regrasParagrafo.ts:72 | `[...new Set()]`: never longer than its input; DedupContem and DedupDistintos state its contents |
| Acoes.DedupContem | src/model/lexml/regras/regrasParagrafo.ts:72 | deduplication keeps exactly the actions of the input |
| Acoes.DedupDistintos | src/model/lexml/regras/regrasParagrafo.ts:72 | the deduplicated list has no repeated action |
| Acoes.DedupDeDistintos | src/model/lexml/regras/regrasParagrafo.ts:72 | a list without repetitions is left as it is |
| Acoes.Externas | src/model/lexml/regras/regrasParagrafo.ts:76 | the filter of internal descriptions: never longer than its input; ExternasContem states which actions remain |
| Acoes.ExternasContem | src/model/lexml/regras/regrasParagrafo.ts:76 | the filter keeps exactly the actions whose description is neither `Adicionar` nor `Atualizar dispositivo` |
| Acoes.InsereOrdenado | src/model/lexml/regras/regrasParagrafo.ts:77 | inserting into a list sorted by description keeps it sorted |
| Acoes.Insere | src/model/lexml/regras/regrasParagrafo.ts:77 | insertion adds the one action and keeps the others |
| Acoes.Ordena | src/model/lexml/regras/regrasParagrafo.ts:77 | sorting is a permutation of its input |
| Acoes.OrdenaOrdenado | src/model/lexml/regras/regrasParagrafo.ts:77 | the sorted list is ordered by description |
| Acoes.DistintosPorMultiset | src/model/lexml/regras/regrasParagrafo.ts:72-77 | a permutation of a list without repetitions has none |
| Acoes.Finaliza | src/model/lexml/regras/regrasParagrafo.ts:72-77 | the post-processed list is a permutation of the deduplicated, filtered list |
| Acoes.FinalizaOrdenado | src/model/lexml/regras/regrasParagrafo.ts:72-77 | the offers are sorted by description and have no repetitions |
| Acoes.FinalizaContem | src/model/lexml/regras/regrasParagrafo.ts:72-77 | an action is offered exactly when it was pushed and is not internal |
| Acoes.Procura | src/model/lexml/regras/regrasParagrafo.ts:92-95 | `.filter(a => a.nomeAcao === nome)[0]`: a found action is one of the list and carries the name looked up; ProcuraCorreta adds that it is the first such |
| Acoes.ProcuraCorreta | src/model/lexml/regras/regrasParagrafo.ts:92-95 | the lookup by name returns the first action of the list carrying that name, and finds nothing exactly when no action of the list has it |
| Acoes.ProcuraUnico | src/model/lexml/regras/regrasParagrafo.ts:92-95 | in a catalog with canonical names, looking up an offered conversion's name returns that conversion |
| RegrasParagrafo.AcoesPossiveis | src/model/lexml/regras/regrasParagrafo.ts:38-40 | a provision that is not a paragraph gets no actions |
| RegrasParagrafo.AcoesOrdenadas | src/model/lexml/regras/regrasParagrafo.ts:72-77 | the offers are sorted by description and have no repetitions |
| RegrasParagrafo.Oferecida | src/model/lexml/regras/regrasParagrafo.ts:38-77 | an action is offered exactly on a paragraph where its guard holds and its description is not internal |
| RegrasParagrafo.MoverOferecido | src/model/lexml/regras/regrasParagrafo.ts:42-47 | move-down exactly when a later same-kind-or-omission sibling exists; move-up exactly when an earlier one does |
| RegrasParagrafo.RenumerarOferecido | src/model/lexml/regras/regrasParagrafo.ts:49-51 | renumbering is offered exactly on an amendment paragraph |
| RegrasParagrafo.IniciarBlocoOferecido | src/model/lexml/regras/regrasParagrafo.ts:52-53 | opening a block is offered exactly on the last provision of an amendment |
| RegrasParagrafo.FinalizarSoComIniciar | src/model/lexml/regras/regrasParagrafo.ts:52-57 | closing a block is offered only together with opening one |
| RegrasParagrafo.ParaIncisoCaputOferecido | src/model/lexml/regras/regrasParagrafo.ts:59-61 | conversion to a caput inciso exactly when first or sole |
| RegrasParagrafo.ParaIncisoParagrafoOferecido | src/model/lexml/regras/regrasParagrafo.ts:62-64 | conversion to a paragraph inciso exactly when not sole |
| RegrasParagrafo.ParaArtigoOferecido | src/model/lexml/regras/regrasParagrafo.ts:65-67 | conversion to an article exactly when last or sole |
| RegrasParagrafo.AcaoTab | src/model/lexml/regras/regrasParagrafo.ts:80-82 | Tab on a provision that is not a paragraph yields nothing |
| RegrasParagrafo.TabDoCatalogo | src/model/lexml/regras/regrasParagrafo.ts:84-96 | Tab yields nothing or an offered action named `transformar` + kind + `Em` + destination of the first allowed child kind |
| RegrasParagrafo.TabParaConversao | src/model/lexml/regras/regrasParagrafo.ts:84-96 | when the synthesised name is a conversion's canonical name and that conversion is offered, Tab returns it |
| RegrasParagrafo.TabParaInciso | src/model/lexml/regras/regrasParagrafo.ts:85-91 | with an inciso as first allowed child, Tab converts a sole paragraph to a caput inciso and any other to a paragraph inciso |
| RegrasParagrafo.AcaoShiftTab | src/model/lexml/regras/regrasParagrafo.ts:100-102 | Shift+Tab yields nothing when the allowed child kinds are absent |
| RegrasParagrafo.ShiftTabDoCatalogo | src/model/lexml/regras/regrasParagrafo.ts:116-123 | outside the shortcut kinds, Shift+Tab yields nothing or one of the provision's own actions named after the first allowed parent kind |
| RegrasParagrafo.ShiftTabAlinea | src/model/lexml/regras/regrasParagrafo.ts:112-114 | on a sole or last alínea, Shift+Tab picks the paragraph inciso exactly when the grandparent is a paragraph, the caput inciso exactly otherwise |
| RegrasAlinea.AcoesPossiveis | src/model/lexml/regras/regrasAlinea.ts:36-38 | a provision that is not an alínea gets no actions |
| RegrasAlinea.AcoesOrdenadas | src/model/lexml/regras/regrasAlinea.ts:73-78 | the offers are sorted by description and have no repetitions |
| RegrasAlinea.Oferecida | src/model/lexml/regras/regrasAlinea.ts:36-78 | an action is offered exactly on an alínea where its guard holds and its description is not internal |
| RegrasAlinea.RenumerarOferecido | src/model/lexml/regras/regrasAlinea.ts:47-49 | renumbering exactly on a non-generic amendment alínea |
| RegrasAlinea.AdicionarAlineaOferecido | src/model/lexml/regras/regrasAlinea.ts:57-59 | adding an alínea exactly when the text is empty or ends in the continuation indicator |
| RegrasAlinea.AdicionarItemOferecido | src/model/lexml/regras/regrasAlinea.ts:60-62 | adding an item exactly when the text is empty or ends in the expansion indicator |
| RegrasAlinea.ParaIncisoParagrafoOferecido | src/model/lexml/regras/regrasAlinea.ts:63-65 | conversion to a paragraph inciso exactly when sole or last and the grandparent is a paragraph |
| RegrasAlinea.ParaIncisoCaputOferecido | src/model/lexml/regras/regrasAlinea.ts:63-65 | conversion to a caput inciso exactly when sole or last and the grandparent is not a paragraph |
| RegrasAlinea.ParaItemOferecido | src/model/lexml/regras/regrasAlinea.ts:66-68 | demotion to an item exactly when not first of its kind, or when the previous provision is an omission |
| RegrasAlinea.AcaoTab | src/model/lexml/regras/regrasAlinea.ts:82-84 | Tab on a provision that is not an alínea yields nothing |
| RegrasAlinea.TabDoCatalogo | src/model/lexml/regras/regrasAlinea.ts:86-92 | Tab yields nothing or an offered action named `transformar` + kind + `Em` + first allowed child kind |
| RegrasAlinea.TabParaItem | src/model/lexml/regras/regrasAlinea.ts:86-92 | an alínea that is not first, with the item as first allowed child, is demoted by Tab |
| RegrasAlinea.AcaoShiftTab | src/model/lexml/regras/regrasAlinea.ts:96-98 | Shift+Tab on a provision that is not an alínea yields nothing |
| RegrasAlinea.ShiftTabNoCatalogo | src/model/lexml/regras/regrasAlinea.ts:100-102 | Shift+Tab on a sole or last alínea returns a conversion that the offers include |
| RegrasAlinea.ShiftTabDoCatalogo | src/model/lexml/regras/regrasAlinea.ts:104-111 | elsewhere Shift+Tab yields nothing or an offered action named after the first allowed parent kind |
| ReducerUtil.RegistraComoEscrito | src/redux/elemento-reducer-util.ts:26-40 | as written, the push appends the batch and keeps every earlier one |
| ReducerUtil.BuildPastComoEscrito | src/redux/elemento-reducer-util.ts:28-33 | buildPast as written: the past grows by the new batch and keeps every earlier one, whatever its length |
| ReducerUtil.BuildFutureComoEscrito | src/redux/elemento-reducer-util.ts:35-40 | buildFuture as written: the same on the future |
| ReducerUtil.HistoricoUltrapassaLimite | src/redux/elemento-reducer-util.ts:26-33 | as written, a history of 50 batches grows to 51 |
| ReducerUtil.HistoricoComoEscritoCresce | src/redux/elemento-reducer-util.ts:26-40 | as written, every push lengthens the history by one |
| ReducerUtil.Registra | src/redux/elemento-reducer-util.ts:28-33 | the bounded push ends with the new batch and keeps a suffix of the old history followed by it |
| ReducerUtil.BuildPast | src/redux/elemento-reducer-util.ts:28-33 | buildPast with the eviction the guard intends: the new batch is the latest, a past within 50 batches stays within 50, and below 50 nothing is dropped |
| ReducerUtil.BuildFuture | src/redux/elemento-reducer-util.ts:35-40 | buildFuture with the intended eviction: the same on the future |
| ReducerUtil.RegistraSoDescartaNoLimite | src/redux/elemento-reducer-util.ts:28-33 | below the bound nothing is dropped; at the bound only the oldest batch is |
| ReducerUtil.RegistraTodos | src/redux/elemento-reducer-util.ts:28-40 | after a run of pushes the history ends with the last batch pushed |
| ReducerUtil.HistoricoLimitado | src/redux/elemento-reducer-util.ts:28-40 | however many pushes, a history within 50 batches stays within 50 |
| ReducerUtil.IsArticulacaoAlteracao | src/redux/elemento-reducer-util.ts:121 | an articulation belongs to an amendment exactly when it has a parent |
| ReducerUtil.IsDispositivoAlteracao | src/redux/elemento-reducer-util.ts:113-125 | isDispositivoAlteracao: the node's own mark decides when set; otherwise the articulation's parent decides, and a failed lookup of the articulation answers no; AlteracaoValidaOProprio uses it |
| ReducerUtil.AlteracaoValidaOProprio | src/redux/elemento-reducer-util.ts:137-140 | an amendment provision with an omission child that has or had messages is the first element reported, without actions, whatever `incluiDispositivo` says |
| ReducerUtil.IsNovoDispositivoDesmembrandoAtual | src/redux/elemento-reducer-util.ts:174-176 | a split makes a new provision whenever the text left holds a character other than white space |
| ReducerUtil.DesmembraSoComTextoValido | src/redux/elemento-reducer-util.ts:174-176 | a split that makes no new provision leaves a text the validator rejects as blank; one that makes a provision leaves a text the validator rejects exactly when it is all white space; an absent text makes none |
| ReducerUtil.CriaElementoValidado | src/redux/elemento-reducer-util.ts:73-82 | an element is appended exactly when the fresh messages or the stored ones are non-empty; it carries the fresh messages; the node's stored messages become the fresh ones and no other node's change |
| ReducerUtil.CriaTodosSoDosListados | src/redux/elemento-reducer-util.ts:148-150 | the sibling loop adds elements of the listed nodes only, never of the skipped one |
| ReducerUtil.CriaTodosFrescos | src/redux/elemento-reducer-util.ts:148-150 | the loop keeps every element carrying its node's fresh messages |
| ReducerUtil.FilhosOmissisContem | src/redux/elemento-reducer-util.ts:137-139 | the selected children are exactly the omission children |
| ReducerUtil.ValidaSuperior | src/redux/elemento-reducer-util.ts:143-147 | the earlier elements are kept and at most two are added, all for the enclosing provision |
| ReducerUtil.ValidaDispositivosAfins | src/redux/elemento-reducer-util.ts:134-136 | no node given, nothing reported |
| ReducerUtil.ValidaAfinsFrescos | src/redux/elemento-reducer-util.ts:131-156 | every reported element carries the fresh messages of its node |
| ReducerUtil.SemOProprioDispositivo | src/redux/elemento-reducer-util.ts:142-150 | without `incluiDispositivo`, the node itself is never reported (outside the amendment-omission case) |
| ReducerUtil.DispositivoAvulso | src/redux/elemento-reducer-util.ts:151-153 | a plain node is reported alone exactly when it has fresh or stored messages |
| ReducerUtil.BuildEventoExclusaoElemento | src/redux/elemento-reducer-util.ts:248-256 | removed, renumbered, validated, in that order, each with the list given |
| ReducerUtil.ComMensagensContem | src/redux/elemento-reducer-util.ts:273 | the filter keeps exactly the elements that carry messages |
| ReducerUtil.ComMensagensDeTodos | src/redux/elemento-reducer-util.ts:273 | a list whose elements all carry messages is kept whole |
| ReducerUtil.BuildEventoTransformacaoElemento | src/redux/elemento-reducer-util.ts:258-277 | the reference, then included, removed, renumbered and validated entries in that order, the last with only the elements that carry messages |
| ReducerUtil.TransformacaoValidaComMensagens | src/redux/elemento-reducer-util.ts:271-274 | the validated entry holds exactly the given elements that carry messages |
| ReducerUtil.Retira | src/redux/elemento-reducer-util.ts:285 | detaching removes one occurrence of the node and keeps the other children |
| ReducerUtil.RemoveAndBuildEvents | src/redux/elemento-reducer-util.ts:279-299 | the batch is removed, renumbered, validated; the removed entry is the subtree's elements; the parent's children lose the node |
| ReducerUtil.RemocaoDesliga | src/redux/elemento-reducer-util.ts:284-286 | after removal the node is no longer among its parent's children, the siblings keep their multiplicities, and no other node's children change |
| ReducerUtil.RemocaoValidaNaArvoreNova | src/redux/elemento-reducer-util.ts:290-297 | the validated entry is the re-validation of the chosen node on the tree without the removed node, and carries fresh messages |
| Estado.CreateState | src/redux/state.ts:33-43 | the articulation is kept, histories, present batch and UI events come from the arguments, no UI message, no document type |
| Estado.CreateStateSoLeArticulacao | src/redux/state.ts:33-43 | two states with the same articulation give the same new state: nothing else of the old state survives |
| Estado.SeteTiposDeEvento | src/redux/state.ts:5-13 | the event kinds are exactly seven distinct values |
| Estado.Load | src/redux/elemento/reducer/loadArticulacao.ts:5-22 | empty histories and present batch, the articulation and document type kept, one DocumentoCarregado event carrying the articulation's elements |
| Estado.LoadComoCreateState | src/redux/elemento/reducer/loadArticulacao.ts:5-22 | rebuilding a loaded state through createState with its own event and empty histories changes only the document type |
| Citacao.NecessitaOmissis | src/emenda/citacao-cmd-simples.ts:29-31 | an omission line is needed exactly when some child is not suppressed and the provision is outside an amendment block |
| Citacao.TemFilhoNaoSuprimido | src/emenda/citacao-cmd-simples.ts:33-40 | the scan answers yes exactly when some child is not suppressed, so no for a childless provision |
| Citacao.GetTexto | src/emenda/citacao-cmd-simples.ts:10-27 | two paragraphs when an omission line is needed, one otherwise; the first starts with the label opened by `“` (the article's label for a caput) and then the text; the closing quote ends the last paragraph |
| Citacao.LeGetTexto | src/emenda/citacao-cmd-simples.ts:10-31 | the quotation reads back as the label shown, the quoted text, and whether kept children outside an amendment block are omitted |
| Citacao.FechamentosConcat | src/emenda/citacao-cmd-simples.ts:10-27 | closing quotes of concatenated fragments add up |
| Citacao.UmaSoAspaDeFechamento | src/emenda/citacao-cmd-simples.ts:17-24 | exactly one closing quote is emitted, after the omission line or after the text |

## Left out

- Message wording. A message is a severity and the tag of its rule. The Portuguese descriptions, which interpolate labels and indicators, are not modelled.
- Helpers defined outside the modelled files. Their answers are fields of `Dispositivos.Dispositivo`, `ReducerUtil.Arvore` or `Citacao.Citado`, or they are parameters. This covers:
  - the hierarchy queries (`isUnicoMesmoTipo`, `isUltimaAlteracao`, `getDispositivoCabecaAlteracao`, `irmaosMesmoTipo`, `getArticulacao`, …);
  - `isValidHTML`, `containsTags`, `endsWithPunctuation`;
  - the indicator tests of the content utilities;
  - `podeConverterEmOmissis`;
  - `validaDispositivo`, `getElementos`, `listaDispositivosRenumerados`;
  - `CmdEmdUtil.getTextoParaCitacao`.
- `addSpaceRegex` is the parameter `casaComEspacos`. The opening-indicator test is characterised only for an exact matcher (`Indicativos.InicioAlteracaoLiteral`).
- The validator imports `hasIndicativoInicioAlteracao` and `hasIndicativoFimAlteracao` from content utilities that are not part of this model. It is modelled with the definitions of the same names in `elemento-reducer-util.ts` (`Indicativos`).
- The values of `TEXTO_OMISSIS` and `TEXTO_DEFAULT_DISPOSITIVO_ALTERACAO` are fields of `Indicativos.Textos`, because they are defined elsewhere.
- `IsAgrupador` counts the articulation root as an agglomerator. The restricted rule set and the re-validation of an agglomerator parent use it. Every agglomerator rule excludes the root, so this choice decides only where the root is routed.
- Acoes.Ordena: sorts by code-point order of the descriptions, not by `localeCompare`. The properties proved (sorted, a permutation) hold for any total order. Locale collation itself is not modelled.
- The `.filter(a => a !== undefined)` step of the action lists is not modelled, because every pushed action is defined.
- Only Tab and Shift+Tab on alíneas look up the alínea's own offers. Paragraph Tab uses the paragraph's own offers. Paragraph Shift+Tab dispatches through the provision's `getAcoesPossiveis`, which may belong to any kind's rules, so there it is the parameter `proprias`.
- Shift+Tab in the paragraph rules looks at `tiposPermitidosFilhos` before anything else. The model follows that check as written.
- The `TransformarElemento` class test in the lookups is modelled by `Catalogo.nomeAcao`. Only conversions carry a name.
- `Eventos` (its `add`, `setReferencia` and `build`) is defined elsewhere. A batch is the list of `add` calls in order, so RemoveAndBuildEvents returns that list and not the result of `build()`.
- ReducerUtil.RemoveAndBuildEvents: `renumeraFilhos` changes labels and numbers only, which this model does not hold, so it is not modelled.
- `createElemento` is projected to the node, its stored messages and whether its actions are included. `ajustaReferencia` and `getElementos(novo)` are parameters of the transformation batch.
- `d.pai!` is a total parent function. The crash on a provision without a parent is not modelled.
- The histories are `seq` values, so the deep copy by `JSON.parse(JSON.stringify(…))` is a value copy. The in-place `push` on `state.past` (aliasing the old state) is not modelled.
- The source types the histories as `StateEvent[]`, but they hold batches, so the model types them as lists of batches. `load` returns a `State` that is not defined in `state.ts`, so it is modelled as the same record, which carries `tipoDocumento`.
- ReducerUtil.BuildPast: returns the bounded history the eviction guard intends, not what the code as written returns. On a past of 50 batches it returns 50 batches, where lines 28-33 return 51 (and the eviction branch, were it taken, would return a batch, not a list). The as-written push is ReducerUtil.BuildPastComoEscrito.
- ReducerUtil.BuildFuture: the same departure from lines 35-40; the as-written push is ReducerUtil.BuildFutureComoEscrito.
- ConteudoValidator.TextoExtensoAdverte: counts code points, while the source's `.length` at line 70 counts UTF-16 code units. A trimmed text of 151 to 300 characters with enough characters outside the Basic Multilingual Plane is warned by the source and not by the model.
- ConteudoValidator.Analisa: the quote rule at line 263 and the `(NR)` rule at line 270 use the corrected test for a `(NR)` token after a closing quote, not the expression as written (see Findings). For the text `o termo ”x” do CNRS “y”` on a non-last amendment provision the source reports nothing at line 263, while the model reports the quote error, and the source reports the `(NR)` error at line 270, while the model does not.
- `StateEvent` omits the optional `pai` and `posicao` fields of `state.ts` (lines 17-18). No modelled function sets them.
- `TagNode` serialisation to markup is not modelled. The citation is the tree of tags, with children in the order of `add`/`addValor`.
- ReducerUtil.SemOProprioDispositivo: requires that the provision is not its own superior and is not an amendment provision with omission children. In that case the source validates the node itself at line 138 whatever `incluiDispositivo` says.
- The other exports of `elemento-reducer-util.ts` are outside the modelled core:
  - `textoFoiModificado`, `isOrWasUnico`, `getArticulacaoFromElemento`;
  - `isElementoDispositivoAlteracao`, `ajustaReferencia`, `naoPodeCriarFilho`;
  - `getElementosDoDispositivo`, `copiaDispositivosParaAgrupadorPai`;
  - `buildEventoAdicionarElemento`, `buildEventoAtualizacaoElemento`, `buildUpdateEvent`;
  - `removeAgrupadorAndBuildEvents`.

  The last of these, and `copiaDispositivosParaAgrupadorPai`, do tree surgery through a factory that is not part of this model.

## Findings

| source | as written | input that shows it | evidently intended | confidence | as-written member | corrected member |
|---|---|---|---|---|---|---|
| src/model/lexml/conteudo/conteudoValidator.ts:270 | `/”.*(NR)/`: the parentheses form a group, so any `”` followed later by `NR` matches | `o termo ”x” do CNRS;` is flagged as carrying `(NR)` | `/”.*\(NR\)/`, the literal `(NR)` token after a closing quote | medium, not executed | Indicativos.ComoEscritoAceitaSemParenteses | ConteudoValidator.NRSoNoFechoDoBloco |
| src/model/lexml/conteudo/conteudoValidator.ts:263 | `!/”.*(NR)/` in the quote rule: the same grouping, so any `”` followed later by `NR` silences the rule | a non-last amendment provision with text `o termo ”x” do CNRS “y”` ends in a quote but gets no error | `!/”.*\(NR\)/`, silencing the rule only for the literal `(NR)` token after a closing quote | medium, not executed | ConteudoValidator.AspasForaComoEscritoCala | ConteudoValidator.AspasSoNoFechoDoBloco |
| src/redux/elemento-reducer-util.ts:26-40 | `count` is the constant 0, so `count > 50` never holds and the history is never trimmed. The branch would also return the evicted batch, not the list | a past of 50 batches becomes 51 after one more push, and keeps growing | drop the oldest batch once the history exceeds 50, so it never holds more than 50 | high, not executed | ReducerUtil.HistoricoUltrapassaLimite | ReducerUtil.HistoricoLimitado |

The validator's quote rule and `(NR)` rule both use the corrected test (`Indicativos.ContemAspasNR`). `ReducerUtil.BuildPast` and `ReducerUtil.BuildFuture` use the corrected push (`ReducerUtil.Registra`).
