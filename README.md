# Composable multi-hop questions

This project models the core of a MuSiQue-style pipeline that builds multi-hop questions out of single-hop question/answer pairs. The pipeline works in three steps:

1. An entity linker (named-entity recognition, or NER, followed by named-entity disambiguation, or NED) finds the entities in every question and in every joined answer list.
2. The linked pairs become a fact table. Each row is `(question, question_entity, answer_entity, passage)`, and `question` is the position of the entry in the corpus.
3. The composition engine joins the fact table with itself. Questions connect wherever one question's answer entity is another question's question entity.

The engine emits six kinds of chains:

- `2hop`: `0--->0`
- `2hop_with_adjacent_head`: `0--->0<---0`
- `3hop`: `0--->0--->0`
- `3hop_with_adjacent_head`: `0--->0<---0` with the shared node continuing `--->0`: head1 ---> mid <--- head2, then mid ---> tail
- `3hop_with_adjacent_head2`: `0--->0--->0<---0`: head ---> mid1 ---> tail <--- mid2
- `4hop`: `0--->0--->0--->0`

Each chain is finally restored to the corpus entries it is made of.

The modules are:

- `Tables`: nullable cells with the comparison semantics of pandas (`!=` on a null is true; merge keys match on equality), boolean-mask filters, inner joins and `drop_duplicates`.
- `Shapes`: the fact row and one datatype per chain shape. Each role (`head`, `mid`, `tail`, ...) is a field, and the duplicated roles that pandas suffixes with a copy digit are separate fields.
- `Columns`: the column names of every frame, and the three steps that work on names: `rename_mid_node`, the suffix discovery of the loop filter and the id-column selection of `restore_questions_info`.
- `ComposableQuestions`: the engine of `src/composable_questions.py`.
- `CompositionProperties`: what the chains guarantee, such as distinct questions, distinct passages and symmetry.
- `ComposableQuestionsRoot`: the older engine in the root `composable_questions.py`, and how it differs.
- `FactTable`: the batch loop of `src/main.py` that builds the fact table, the output-file prefix and the output paths.
- `EntityLinking`: `link_entities_in_docs` and the mention clean-up of `src/entity_linking/nel.py`. The NER and NED models are parameters.

Every frame is a sequence of rows, so a chain that a join can form twice appears twice, as in pandas. Each relational step is specified by an if-and-only-if membership condition. Each step written as a loop in the source is a method proved equal to a specification function.

## Model

| member | source | states |
|---|---|---|
| Tables.Filter | src/composable_questions.py:127-131 | A boolean-mask selection keeps exactly the rows satisfying the mask and never grows the frame |
| Tables.FilterTwice | src/composable_questions.py:124-131 | Applying a mask twice is applying it once |
| Tables.FilterThen | src/composable_questions.py:147-157 | Two masks in a row select the rows of their conjunction, which is what each pass of the loop filter relies on |
| Tables.FilterAgree | src/composable_questions.py:147-157 | Masks that agree on every row select the same rows |
| Tables.FilterKeepsAll | src/composable_questions.py:134-157 | A mask every row satisfies keeps the frame unchanged |
| Tables.FilterAppend | src/composable_questions.py:124-131 | A mask distributes over concatenated frames |
| Tables.Matches | src/composable_questions.py:80-89 | The rows one left row forms in an inner merge are exactly its matching right rows glued to it |
| Tables.Join | src/composable_questions.py:80-89 | An inner merge holds exactly the glued pairs of a left and a right row that satisfy the key condition |
| Tables.Dedup | src/composable_questions.py:187 | drop_duplicates keeps every value and makes the values pairwise distinct |
| Tables.IndexOf | src/composable_questions.py:187 | The first occurrence of a value: it holds the value and nothing before it does |
| Tables.IndexOfInit | src/composable_questions.py:187 | Dropping the last row does not move the first occurrence of a value that occurs before it |
| Tables.DedupOrder | src/composable_questions.py:187 | drop_duplicates keeps the rows in the order of their first occurrence |
| Tables.DedupOfDistinct | src/composable_questions.py:187 | drop_duplicates leaves a duplicate-free frame as it is |
| Tables.DedupIdempotent | src/composable_questions.py:187 | drop_duplicates is idempotent |
| Tables.DistinctCard | src/composable_questions.py:187 | A duplicate-free sequence has as many elements as its set of values |
| Tables.DedupCard | src/composable_questions.py:187 | After drop_duplicates there is exactly one row per distinct value |
| Columns.RenameMidNode | src/composable_questions.py:168-180 | Renaming keeps the number and order of the columns; the seven listed `*_mid` columns take the new suffix with attribute and copy digit kept, and every other column is unchanged |
| Columns.RenameThreeHopMid | src/composable_questions.py:250-251 | Renaming the 3hop middle to `_mid0` gives the leading columns of the 4hop frame |
| Columns.HeadEntityCopiesAppend | src/composable_questions.py:137-143 | The suffixes found in two column lists are the union of those found in each |
| Columns.HeadEntityCopiesOfGroup | src/composable_questions.py:137-143 | A role's own column group contributes the plain suffix only |
| Columns.HeadEntityCopiesOfCopy | src/composable_questions.py:137-143 | A duplicated role's columns contribute their copy digit only |
| Columns.FourHopMid0Copies | src/composable_questions.py:137-143 | In the 4hop layout the loop filter visits the `_mid0` and `2_mid0` entity columns and nothing else |
| Columns.QuestionIdColumnsMember | src/composable_questions.py:184-186 | A column is selected as an id column iff it is in the frame and is a `question*` column (it starts with "question" and is not an entity column) |
| Columns.IdColumnsOfGroup | src/composable_questions.py:184-186 | A role's column group has exactly one id column |
| Columns.IdColumnsOfCopy | src/composable_questions.py:184-186 | Duplicated role columns contribute no id column |
| Columns.IdColumnsAppend | src/composable_questions.py:184-186 | The id-column selection distributes over concatenated layouts |
| Columns.TwoHopIdColumns | src/composable_questions.py:184-186 | The 2hop id columns are `question_head`, `question_tail` |
| Columns.AdjacentHeadIdColumns | src/composable_questions.py:184-186 | The adjacent-head id columns are `question_head1`, `question_tail`, `question_head2` |
| Columns.ThreeHopIdColumns | src/composable_questions.py:184-186 | The 3hop id columns are head, mid, tail |
| Columns.ThreeHopAdjacentHeadIdColumns | src/composable_questions.py:184-186 | The 3hop-with-adjacent-head id columns are head1, mid, head2, tail |
| Columns.ThreeHopAdjacentHead2IdColumns | src/composable_questions.py:184-186 | The 3hop-with-adjacent-head2 id columns are head, mid, mid1, tail, mid2 |
| Columns.FourHopIdColumns | src/composable_questions.py:184-186 | The 4hop id columns are head, mid0, mid, tail |
| ComposableQuestions.FindInitTwoHopQuestions | src/composable_questions.py:13-49 | A row is in the result iff its head is a head row (tail row with `switch`), its tail is a tail row (head row with `switch`), and the head's answer entity is non-null and equal to the tail's question entity |
| ComposableQuestions.FilterCycle | src/composable_questions.py:124-131 | Exactly the rows whose head and tail are different questions, whose tail does not answer with the head's question entity and whose passages differ are kept |
| ComposableQuestions.FindAdjacentHead | src/composable_questions.py:100-121 | Exactly the pairs of 2hop rows with the same tail question, including a row paired with itself |
| ComposableQuestions.FilterIdenticalHeads | src/composable_questions.py:160-165 | Exactly the rows whose two heads differ in question, question entity and passage are kept |
| ComposableQuestions.FindMultiHopQuestions | src/composable_questions.py:52-97 | Exactly the glued pairs of a left and a right row whose joining fact ids are equal |
| ComposableQuestions.TwoHops | src/composable_questions.py:224-226 | A 2hop row is two fact rows linked through a non-null entity that pass the cycle filter |
| ComposableQuestions.AdjacentHeads | src/composable_questions.py:228-230 | An adjacent-head row is two 2hop rows into the same tail question whose heads pass filter_identical_heads |
| ComposableQuestions.ThreeHops | src/composable_questions.py:232-234 | A 3hop row is a 2hop row continued by a 2hop row from its tail question, with head and tail cycle-free |
| ComposableQuestions.ThreeHopAdjacentHeads | src/composable_questions.py:236-242 | An adjacent-head row continued by a 2hop row from its tail, with both heads cycle-free against the new tail |
| ComposableQuestions.ThreeHopAdjacentHead2s | src/composable_questions.py:246-248 | As written: a 2hop row continued into the first head of an adjacent-head row, with the head cycle-free against the shared tail |
| ComposableQuestions.ThreeHopAdjacentHead2sDistinct | src/composable_questions.py:246-248 | As intended: those rows minus the ones whose head is the same question as the second adjacent head |
| ComposableQuestions.FourHopCandidates | src/composable_questions.py:250-254 | A 3hop row renamed to `_mid0`, continued by a 2hop row from its tail, with head and tail cycle-free |
| ComposableQuestions.CycleLoopV | src/composable_questions.py:134-157 | Exactly the rows whose head question differs from the tail question and whose every listed head copy is clear of the tail are kept |
| ComposableQuestions.FilterCycleLoopV | src/composable_questions.py:134-157 | The loop over the discovered suffixes yields the rows of `CycleLoopV` for the suffixes found in the column layout |
| ComposableQuestions.ClearOfMid0Copies | src/composable_questions.py:255 | On a 4hop row, the loop filter's condition is that both copies of `mid0` are clear of the tail |
| ComposableQuestions.FourHops | src/composable_questions.py:250-257 | A 4hop row is a 4hop candidate whose `mid0` is a different question from the tail and whose two `mid0` copies are clear of the tail |
| ComposableQuestions.RecordAt | src/composable_questions.py:187-191 | A restored record has exactly the id columns as keys, and each holds the corpus entry of its id |
| ComposableQuestions.FillColumns | src/composable_questions.py:187-191 | The column loop yields, for every id tuple, the record mapping each id column to its corpus entry |
| ComposableQuestions.RestoreQuestionsInfo | src/composable_questions.py:183-192 | restore_questions_info returns one record per distinct id tuple, in the order `Tables.DedupOrder` proves (first occurrence), mapping every id column to its corpus entry |
| ComposableQuestions.RestoredAt | src/composable_questions.py:187-191 | The i-th record represents the i-th id tuple |
| ComposableQuestions.RestoreCount | src/composable_questions.py:183-192 | There are as many records as distinct id tuples in the frame |
| ComposableQuestions.RestoreCovers | src/composable_questions.py:183-192 | Every row of the frame is represented by some restored record |
| ComposableQuestions.RestoreSound | src/composable_questions.py:183-192 | Every restored record represents some row of the frame |
| ComposableQuestions.FramesRestorable | src/composable_questions.py:272-279 | Frames whose ids index the corpus can be restored with their own layouts |
| ComposableQuestions.TwoHopRestorable | src/composable_questions.py:273 | 2hop rows whose ids fit the corpus can be restored |
| ComposableQuestions.AdjacentHeadRestorable | src/composable_questions.py:274 | Adjacent-head rows whose ids fit the corpus can be restored |
| ComposableQuestions.ThreeHopRestorable | src/composable_questions.py:275 | 3hop rows whose ids fit the corpus can be restored |
| ComposableQuestions.ThreeHopAdjacentHeadRestorable | src/composable_questions.py:276 | 3hop-with-adjacent-head rows whose ids fit the corpus can be restored |
| ComposableQuestions.ThreeHopAdjacentHead2Restorable | src/composable_questions.py:277 | 3hop-with-adjacent-head2 rows whose ids fit the corpus can be restored |
| ComposableQuestions.FourHopRestorable | src/composable_questions.py:278 | 4hop rows whose ids fit the corpus can be restored |
| ComposableQuestions.ComposeFits | src/composable_questions.py:220-257 | Every node of every chain is a fact row, so its id indexes the corpus whenever the fact table's ids do |
| ComposableQuestions.TwoHopsFit | src/composable_questions.py:224-226 | The 2hop ids come from the fact table |
| ComposableQuestions.AdjacentHeadsFit | src/composable_questions.py:228-230 | The adjacent-head ids come from the 2hop frame |
| ComposableQuestions.ThreeHopsFit | src/composable_questions.py:232-234 | The 3hop ids come from the 2hop frame |
| ComposableQuestions.ThreeHopAdjacentHeadsFit | src/composable_questions.py:236-242 | The 3hop-with-adjacent-head ids come from its inputs |
| ComposableQuestions.ThreeHopAdjacentHead2sFit | src/composable_questions.py:246-248 | The 3hop-with-adjacent-head2 ids come from its inputs |
| ComposableQuestions.FourHopsFit | src/composable_questions.py:250-257 | The 4hop ids come from its inputs |
| ComposableQuestions.ComposeFrames | src/composable_questions.py:220-257 | An empty fact table raises KeyError on `answer_entity`; otherwise the stages build the frames of `Compose`, with the loop filter on the 4hop frame |
| ComposableQuestions.ComposableQuestions | src/composable_questions.py:200-279 | For a fact table whose ids index the corpus: an empty one raises KeyError, and otherwise the result is the six restored frames, as written, under their names |
| ComposableQuestions.ComposeIntended | src/composable_questions.py:220-257 | The intended frames are those of `Compose`, with `3hop_with_adjacent_head2` narrowed to the rows whose head differs from the second head |
| ComposableQuestions.ComposeIntendedFits | src/composable_questions.py:220-257 | The intended frames' ids index the corpus whenever the fact table's ids do |
| ComposableQuestions.RestoreNothing | src/composable_questions.py:183-192 | An empty frame restores to no records |
| ComposableQuestions.EmptyFactTableComposesNothing | src/composable_questions.py:220-257 | With no facts every stage is empty |
| ComposableQuestions.NothingToRestore | src/composable_questions.py:272-279 | With no facts every returned set is empty |
| ComposableQuestions.ComposableQuestionsIntended | src/composable_questions.py:200-279 | As intended, every run returns the six named sets, and an empty fact table gives six empty sets instead of a KeyError |
| CompositionProperties.TwoHopLinks | src/composable_questions.py:224-226 | Every 2hop row links two fact rows through a non-null shared entity and passes the cycle filter |
| CompositionProperties.TwoHopOf | src/composable_questions.py:224-226 | Two fact rows linked through a non-null entity that pass the cycle filter form a 2hop row |
| CompositionProperties.AdjacentHeadsSymmetric | src/composable_questions.py:100-121 | A pair of heads is in the adjacent-head frame iff the swapped pair is |
| CompositionProperties.AdjacentHeadIdsDistinct | src/composable_questions.py:228-230 | The two heads and the tail of an adjacent-head row are three different questions |
| CompositionProperties.ThreeHopIdsDistinct | src/composable_questions.py:232-234 | A 3hop row visits three different questions |
| CompositionProperties.ThreeHopPassagesDistinct | src/composable_questions.py:232-234 | When each question has one passage, the three questions of a 3hop row come from pairwise different passages |
| CompositionProperties.ThreeHopAdjacentHeadAsThreeHops | src/composable_questions.py:236-242 | A 3hop-with-adjacent-head row is two 3hop rows sharing their last two nodes whose heads pass filter_identical_heads |
| CompositionProperties.ThreeHopAdjacentHeadIdsDistinct | src/composable_questions.py:236-242 | The four questions of a 3hop-with-adjacent-head row are all different |
| CompositionProperties.ThreeHopAdjacentHead2AsThreeHop | src/composable_questions.py:246-248 | A 3hop-with-adjacent-head2 row is a 3hop row whose tail also has a second 2hop row from a different head |
| CompositionProperties.ThreeHopAdjacentHead2Ids | src/composable_questions.py:246-248 | As written, the chain head, mid1, tail is three different questions and mid2 differs from mid1 and from the tail |
| CompositionProperties.RepeatedHeadTwoHops | src/composable_questions.py:224-226 | The four-fact example table has the three 2hop rows the counterexample uses |
| CompositionProperties.ThreeHopAdjacentHead2RepeatsHead | src/composable_questions.py:246-248 | As written, the 3hop-with-adjacent-head2 frame can hold a row whose head and second head are the same question |
| CompositionProperties.ThreeHopAdjacentHead2DistinctIds | src/composable_questions.py:246-248 | With the correction, the four questions of the chain are all different |
| CompositionProperties.ComposeRepeatsHead | src/composable_questions.py:246-248 | On the four-fact example, composable_questions as written emits the chain that asks question 0 twice, and the intended frames do not |
| CompositionProperties.ComposeIntendedIdsDistinct | src/composable_questions.py:246-248 | Every row of the intended `3hop_with_adjacent_head2` frame asks four different questions |
| CompositionProperties.FourHopAsThreeHops | src/composable_questions.py:250-257 | A 4hop row is two 3hop rows overlapping in the middle hop whose ends pass the cycle filter and whose middle copies are clear of the tail |
| CompositionProperties.FourHopIdsDistinct | src/composable_questions.py:250-257 | A 4hop row visits four different questions |
| CompositionProperties.FourHopIdsOfThreeHops | src/composable_questions.py:250-257 | The distinctness of the 4hop ids follows from the two 3hop rows it is made of |
| CompositionProperties.FourHopPassagesDistinct | src/composable_questions.py:250-257 | When each question has one passage, the four questions of a 4hop row come from pairwise different passages |
| ComposableQuestionsRoot.FindComposableQuestions | composable_questions.py:8-32 | A row is in the result iff its head and tail are from the two frames and the head's answer entity equals the tail's question entity, null included |
| ComposableQuestionsRoot.TwoHopsRoot | composable_questions.py:140 | A root 2hop row is two fact rows with equal answer and question entities, null included, that pass the cycle filter |
| ComposableQuestionsRoot.TwoHopsRootAgrees | composable_questions.py:140 | A row is in the src 2hop frame iff it is in the root one and its shared entity is non-null |
| ComposableQuestionsRoot.NullJoinTwoHop | composable_questions.py:8-32 | A head with no answer entity and a tail with no question entity, from different questions and passages, form a root 2hop row that the src engine rejects |
| ComposableQuestionsRoot.TwoHopsRootJoinsNulls | composable_questions.py:140 | A concrete two-fact table on which the root 2hop frame joins through null |
| ComposableQuestionsRoot.RestoreQuestionsInfoRoot | composable_questions.py:125-131 | The root restore maps every row's ids to corpus entries without dropping duplicate tuples |
| ComposableQuestionsRoot.RestoreRootAgrees | composable_questions.py:125-131 | The root restore emits one record per row, and agrees with the src restore when no id tuple repeats |
| ComposableQuestionsRoot.ComposeRootFits | composable_questions.py:137-164 | Every root chain's ids index the corpus whenever the fact table's ids do |
| ComposableQuestionsRoot.ComposeFramesRoot | composable_questions.py:137-164 | An empty fact table raises KeyError at the first merge's `answer_entity` key; otherwise the root stages build the frames of `ComposeRoot`, with the loop filter on the 4hop frame |
| ComposableQuestionsRoot.ComposableQuestionsRoot | composable_questions.py:137-187 | For a fact table whose ids index the corpus: an empty one raises KeyError, and otherwise the root result is the six frames restored row by row under their names |
| FactTable.EntryFactsMembers | src/main.py:52-63 | A fact of one entry is exactly one question entity paired with one answer entity, with the entry's position and passage |
| FactTable.EntryFactsLength | src/main.py:60-61 | One entry gives one fact per pair of question and answer entity |
| FactTable.EntryFactAt | src/main.py:60-61 | The pair (x, y) sits at position x times the number of answer entities plus y, so question entities vary slowest |
| FactTable.ThenThen | src/main.py:52 | Extending the records twice is extending them by the concatenation |
| FactTable.AndThenThen | src/main.py:39-63 | Records gathered before a batch are kept in front of everything after it |
| FactTable.ExtendWithBatch | src/main.py:49-63 | The zip loop over one batch appends the batch's facts, or stops at the `data[j]` lookup that runs past the corpus |
| FactTable.BuildRecords | src/main.py:38-63 | The batch loop yields the fact table `Records`, including the `range` ValueError for a zero batch size and the empty loop for a negative one |
| FactTable.SoundAppend | src/main.py:52-63 | Two runs of records that each name corpus entries with their passages do so together |
| FactTable.EntryFactsSound | src/main.py:52-63 | Every fact of one entry names that entry and carries its passage |
| FactTable.SoundCons | src/main.py:52-63 | An entry's facts in front of sound facts stay sound |
| FactTable.ZipFromSound | src/main.py:49-63 | Every fact of a batch has an id that indexes the corpus and the passage of that entry |
| FactTable.BatchFromSound | src/main.py:39-63 | The same holds for every batch from position i on |
| FactTable.RecordsSound | src/main.py:38-63 | Every fact's question id indexes the corpus and carries that entry's passage, so each question has one passage |
| FactTable.BetweenSplit | src/main.py:38-63 | The facts of a run of entries split at any middle entry |
| FactTable.ZipFromPerDocument | src/main.py:49-63 | With a linker that links each document on its own, zipping a batch gives the facts of its entries |
| FactTable.ZipFromPerDocumentStep | src/main.py:49-63 | One slot of a per-document zip yields its entry's facts followed by the later entries' facts |
| FactTable.ZipOfBatch | src/main.py:40-51 | A batch's linked documents are the per-document links of its entries |
| FactTable.BatchFromPerDocument | src/main.py:39-63 | From position i on, the batches give the facts of the remaining entries |
| FactTable.BatchFromPerDocumentStep | src/main.py:39-63 | One batch of a per-document linker yields its entries' facts followed by the later batches' facts |
| FactTable.RecordsPerDocument | src/main.py:38-63 | With a positive batch size and a per-document linker, the fact table does not depend on the batch size: it is the facts of every entry in order |
| FactTable.Split | src/main.py:33 | `str.split` gives at least one piece and no piece contains the separator |
| FactTable.JoinSplit | src/main.py:33 | Joining the pieces of a split with the same separator gives back the string |
| FactTable.JoinSnoc | src/main.py:33 | Joining one more piece appends the separator and the piece |
| FactTable.SplitPieces | src/main.py:33 | A string splits into two or more pieces iff it contains the separator |
| FactTable.BaseNameIsLast | src/main.py:33 | The base name has no '/', is a suffix of the path, and is preceded by '/' unless it is the whole path |
| FactTable.OutputFilePrefixShape | src/main.py:33 | A base name without '.' gives the empty prefix; otherwise the base name is the prefix, '.', and an extension without '.' |
| FactTable.OutputPathInjective | src/main.py:72-76 | Different set names give different output paths |
| FactTable.OutputFiles | src/main.py:72-76 | Each set is written to its own path, and every written path comes from a set |
| EntityLinking.TokenLength | src/entity_linking/nel.py:22 | The leading token has no whitespace and ends at whitespace or at the end |
| EntityLinking.Words | src/entity_linking/nel.py:22 | `str.split()` gives non-empty words without whitespace |
| EntityLinking.WordsStripStart | src/entity_linking/nel.py:21-22 | Stripping leading whitespace does not change the words |
| EntityLinking.WordsSnocSpace | src/entity_linking/nel.py:21-22 | Trailing whitespace does not change the words |
| EntityLinking.TokenLengthExtend | src/entity_linking/nel.py:22 | A character appended after whitespace does not change the leading token |
| EntityLinking.WordsStripEnd | src/entity_linking/nel.py:21-22 | Stripping trailing whitespace does not change the words |
| EntityLinking.WordsConsWord | src/entity_linking/nel.py:22 | A word followed by whitespace splits off as the first word |
| EntityLinking.WordsOfJoin | src/entity_linking/nel.py:22 | Splitting words joined by single spaces gives the words back |
| EntityLinking.TokenOfSolid | src/entity_linking/nel.py:22 | The leading token of a word followed by whitespace is that word |
| EntityLinking.JoinWordsClean | src/entity_linking/nel.py:22 | Words joined by single spaces have no surrounding whitespace and no whitespace other than single spaces |
| EntityLinking.CleanMentionWords | src/entity_linking/nel.py:20-23 | Cleaning a mention keeps its words and leaves single spaces between them with nothing around |
| EntityLinking.CleanMentionIdempotent | src/entity_linking/nel.py:20-23 | Cleaning a clean mention changes nothing |
| EntityLinking.RegroupBounded | src/entity_linking/nel.py:45-49 | There is one group per document and no group is longer than its split |
| EntityLinking.RegroupAt | src/entity_linking/nel.py:45-49 | Slot e of group d is the result at the running start of group d plus e |
| EntityLinking.RegroupNothing | src/entity_linking/nel.py:40-49 | Without mentions every document gets an empty group |
| EntityLinking.Formatted | src/entity_linking/nel.py:51-60 | The overwrite keeps the shape of the groups and every slot holds a formatted entity |
| EntityLinking.Unformatted | src/entity_linking/nel.py:51-62 | Without mentions the groups are returned as they are, one per document, with no slot formatted |
| EntityLinking.LinkEntities | src/entity_linking/nel.py:25-62 | There is one result list per recognised document, no longer than its mentions, and every slot holds a formatted entity |
| EntityLinking.SplitsPrefix | src/entity_linking/nel.py:30-32 | The splits of a prefix of the documents are the prefix of the splits |
| EntityLinking.MentionsBatchCount | src/entity_linking/nel.py:28-38 | The mention batch has as many inputs as the splits add up to |
| EntityLinking.MentionsBatchAt | src/entity_linking/nel.py:28-38 | Mention e of document d sits at the sum of the earlier splits plus e, formatted from its cleaned text and the document's text |
| EntityLinking.SumPrefix | src/entity_linking/nel.py:45-49 | A prefix of the splits adds up to no more than all of them |
| EntityLinking.RegroupLengths | src/entity_linking/nel.py:45-49 | When the NED returns one result per input, group d has exactly `splits[d]` results |
| EntityLinking.RegroupFlattenPrefix | src/entity_linking/nel.py:45-49 | The first d groups, concatenated, are the results up to the running start of group d |
| EntityLinking.RegroupFlatten | src/entity_linking/nel.py:45-49 | Concatenating the groups gives the NED's results back in order |
| EntityLinking.SumZero | src/entity_linking/nel.py:40-43 | The splits add up to zero iff every split is zero |
| EntityLinking.LinkAligned | src/entity_linking/nel.py:25-62 | When the NED returns one result per input, slot e of document d is the formatted result of that mention's own input |
| EntityLinking.NoMentions | src/entity_linking/nel.py:40-62 | The mention batch is empty iff no document has a mention, and then every result list is empty |
| EntityLinking.CollectMentions | src/entity_linking/nel.py:28-38 | The mention loop yields the splits and the batch of formatted inputs |
| EntityLinking.RegroupResults | src/entity_linking/nel.py:45-49 | The regrouping loop yields the slices of the results at the running starts |
| EntityLinking.FormatResults | src/entity_linking/nel.py:51-60 | The overwrite loop replaces every slot with the formatted entity of its result and its mention |
| EntityLinking.LinkEntitiesInDocs | src/entity_linking/nel.py:25-62 | link_entities_in_docs yields `LinkEntities`: the regrouped, formatted NED results of every recognised mention |

Proof helpers have no row: they unfold one step of a definition (`ComposableQuestions.OutputIs`, `ComposableQuestionsRoot.OutputRootIs`, `ComposableQuestions.RecordStep`, `FactTable.BatchStep`, `FactTable.ZipFromCons`, `FactTable.BatchFromCons`, `FactTable.ThenBuilt`, `FactTable.AndThenBuilt`, `EntityLinking.SumStep`, `EntityLinking.LinkEntitiesAt`) or do index arithmetic (`FactTable.MulStep`, `FactTable.MulBound`).

## Left out

- Writing JSON lines (`from_jsonl`, `to_jsonl`, `save_debugging_info`) and the debug dumps of both engines: file I/O. The model goes as far as the dictionary of sets and the map from output path to set.
- The command-line drivers (`argparse`, `main`, `__main__` in `src/main.py` and `src/entity_linking/nel.py`) and the progress bar: I/O and process set-up only.
- The root `single_file_worker` and `main` in `composable_questions.py`: they call names the file never defines (`read_jsonl_file`, `recognize_and_link_multi_docs`). Their batch loop has the shape of the one modelled from `src/main.py`, but it reads the entity id as `q_entity["id"]` and the passage as `data[j]["passages"][0]["id"]` (composable_questions.py:200-205), and neither access is modelled.
- The NER and NED models (`src/entity_linking/supported_ner_ned.py`, `entity_recognition.py`): they are neural models. Their four operations are function parameters of `Models`, and GPU, CUDA and model loading are not part of this model.
- EntityLinking.LinkEntities: does not fix what happens when the NED returns fewer results than inputs. The lists are then shorter, as Python's clipped slices make them, and `LinkAligned` states the alignment only when the NED returns one result per input.
- FactTable: the linked entity id (`.id`) is taken to be what the linker returns for each mention, a `Cell`. A missing JSON key (a `KeyError`) is not modelled; entries always carry a question, answers and a passage id.
- Python's `str.isspace` is modelled by its listed ASCII and Unicode whitespace characters.
- pandas dtypes, index labels and the numeric columns' float conversion when a merge introduces NaN are not modelled. Column names are typed (`Columns.Column`) rather than strings, and column order is kept only where the engine depends on it (the id columns and the suffixes of the loop filter).
- `find_adjacent_head` drops rows with a null tail question first. Fact ids are positions in the corpus, so this step keeps every row and is not modelled separately.

## Findings

| source | as written | input that shows it | evidently intended | confidence | as-written member | corrected member |
|---|---|---|---|---|---|---|
| composable_questions.py:8-32 | the root first hop merges `answer_entity_head` with `question_entity_tail` without dropping nulls, and pandas matches null keys with each other | facts `(0, "x", null, "p0")` and `(1, null, "y", "p1")` form a 2hop row linked by no entity | link questions only through a linked entity, as `src/composable_questions.py:40-42` does | medium, not executed | ComposableQuestionsRoot.TwoHopsRootJoinsNulls | ComposableQuestions.TwoHops |
| src/composable_questions.py:246-248 | the 3hop_with_adjacent_head2 frame checks only the leading head against the shared tail, never against the second adjacent head | facts `(0,x,y,p0)`, `(0,x,z,p0)`, `(1,y,z,p1)`, `(2,z,w,p2)`: the chain 0 ---> 1 ---> 2 <--- 0 is emitted, and it asks question 0 twice | every question of the chain is a different question, as in the other five frames | medium, not executed | CompositionProperties.ThreeHopAdjacentHead2RepeatsHead | ComposableQuestions.ThreeHopAdjacentHead2sDistinct |
| src/composable_questions.py:222 | an empty fact table builds a data frame with no columns, and the first stage's read of `heads_df["answer_entity"]` raises KeyError; the root engine fails the same way at its first merge | no facts at all, as from a corpus in which no entry has a linked entity in both its question and its answers | a run without chains is not an error: six empty sets, as for any other input without chains | medium, not executed | ComposableQuestions.ComposableQuestions | ComposableQuestions.ComposableQuestionsIntended |
