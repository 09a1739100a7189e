# SDG classification of long texts: a Dafny model

This project models the core of the eur-sdg tooling. The tooling assigns
documents to the 17 UN Sustainable Development Goals (SDGs). It works in
four stages:

- A long text is cut into chunks of about 400 words. A chunk can exceed
  that limit by the words of its first line.
- Each chunk is scored by a neural model, one probability per goal.
- The scores of a document's chunks are smoothed with a trailing moving
  average.
- The smoothed scores are thresholded and counted into one score per
  goal, together with a top goal and a number of valid chunks.

The batch driver runs these stages for a mapping of document ids to texts
and produces one record per document.

The modules follow the source:

| module | file | models |
|---|---|---|
| `PyStr` | `pystr.dfy` | the Python string operations the chunker uses: `split`, `replace(pat, "")`, `strip` |
| `Chunker` | `chunker.dfy` | `split_to_chunks` |
| `ChunkFrame` | `chunk_frame.dfy` | `process_text` |
| `Goals` | `goals.dfy` | `SDG_GOALS`, `SDG_COLS` |
| `Tokens` | `tokens.dfy` | `process_data` |
| `Dataset` | `dataset.dfy` | `SDGDataset` of the web service |
| `Smoother` | `smoother.dfy` | `smoothen_sdg_values` |
| `Aggregator` | `aggregator.dfy` | `aggregated_sdg_score` |
| `Pipeline` | `pipeline.dfy` | the batch driver at the end of `basic_usage.py` |

How the code is modelled:

- **The chunking loop.** It is an imperative method, `Chunker.SplitToChunks`. It mirrors the source statement by statement.
  - It is proved equal to a specification function `Chunker.Chunks`.
  - `Chunks` is defined as a fold, `Group`, over the lines. The fold records which cleaned lines each chunk buffer held.
  - The properties of the chunks are proved about that fold.
- **The batch driver.** It is a method over a sequence of documents.
  - `df` is a sequence of scored rows.
  - `df_agg` is a map keyed by the group-by columns `(id, error)`.
  - The driver's three blocks are the method `ChunkDocuments` (chunking), the function `Score` (inference) and the method `AggregateDocuments` (aggregation). The method `RunBatch` composes them.
- **The scorer and the tokenizer.** Both are function parameters.
- **Undefined cells.** Scores are mathematical reals. A cell that pandas would hold as NaN is `None`. This covers the first rows of a rolling window and the scores of a document with no valid chunk.

Two behaviours of the code are worth stating on their own:

- **Errored documents are scored.** A document without usable chunks is not short-circuited to zero scores and the label "unknown". Its placeholder chunk "ERROR IN READING FILE" is scored like any other chunk. The result is the aggregate of that one unsmoothed row of scores (`Pipeline.ErroredDocumentIsScored`). Such a document therefore has one valid chunk and a real top goal whenever the scorer rates the placeholder at 0.5 or more for some goal.
- **No valid chunk.** The scores are 0 divided by 0, which is NaN in every goal, and the top index is the sentinel 17. The model gives undefined scores and the label "unknown".

## Model

| member | source | states |
|---|---|---|
| `PyStr.Split` | sdg-large-text-corpora/sdg_util.py:80 | `str.split(sep)` yields one piece more than there are separators, and no piece contains the separator |
| `PyStr.JoinSplit` | sdg-large-text-corpora/sdg_util.py:80 | joining the pieces of a split with the separator gives back the text, so splitting loses no character |
| `PyStr.SplitJoin` | sdg-large-text-corpora/sdg_util.py:80 | splitting a join of separator-free pieces gives back the pieces |
| `PyStr.DeleteAll` | sdg-large-text-corpora/sdg_util.py:84 | `replace(pat, "")` never lengthens the text and introduces no character |
| `PyStr.DeleteAbsent` | sdg-large-text-corpora/sdg_util.py:84 | a text in which `pat` does not occur comes back unchanged |
| `PyStr.DeleteLeading` | sdg-large-text-corpora/sdg_util.py:84 | an occurrence of `pat` at the start is deleted and the scan resumes right after it |
| `PyStr.DeleteFirstOccurrence` | sdg-large-text-corpora/sdg_util.py:84 | when `pat` first occurs after the prefix `a`, the result is `a` unchanged followed by the deletion applied to the text after that occurrence; with DeleteAbsent this fixes the result for every text |
| `PyStr.DeleteRemovesWholeCopies` | sdg-large-text-corpora/sdg_util.py:84 | the text shrinks by exactly `|pat|` for each deleted occurrence, so only whole copies of `pat` are removed |
| `PyStr.Strip` | sdg-large-text-corpora/sdg_util.py:89 | `strip()` leaves no leading or trailing whitespace, introduces no character, and is empty exactly when the text is all whitespace |
| `Chunker.MaskSymbols` | sdg-large-text-corpora/sdg_util.py:83 | the regex substitution keeps the length, keeps every character of the class, and turns every other character into a space |
| `Chunker.Clean` | sdg-large-text-corpora/sdg_util.py:83-84 | a cleaned line holds only characters of the class and spaces, and is no longer than the raw line |
| `Chunker.WordCount` | sdg-large-text-corpora/sdg_util.py:85 | `len(t.split(" "))` is the number of spaces plus one; runs of spaces are not collapsed |
| `Chunker.KeepNonEmpty` | sdg-large-text-corpora/sdg_util.py:96 | the final filter keeps exactly the non-empty texts and adds none |
| `Chunker.KeepNonEmptyAppend` | sdg-large-text-corpora/sdg_util.py:96 | filtering a concatenation is filtering each part, so the kept texts keep their order and their repetitions |
| `Chunker.KeepNonEmptySingle` | sdg-large-text-corpora/sdg_util.py:96 | one text is kept exactly when it is non-empty |
| `Chunker.KeepNonEmptyKeepsAll` | sdg-large-text-corpora/sdg_util.py:96 | a list of non-empty texts passes the filter unchanged |
| `Chunker.SplitToChunks` | sdg-large-text-corpora/sdg_util.py:70-96 | the loop over the lines, with its buffer, counter, flushes and final filter, returns exactly `Chunks(text, maxWords, minLetters)` |
| `Chunker.GroupPartition` | sdg-large-text-corpora/sdg_util.py:80-91 | the flushed groups followed by the buffer are the cleaned lines longer than `min_letters`, in order, each exactly once |
| `Chunker.GroupWellGrouped` | sdg-large-text-corpora/sdg_util.py:85-91 | after every line the counter is the words the buffer accounts for, at most `max_words`; every flushed group stayed within the limit and was flushed because the next line would have overflowed it |
| `Chunker.ChunkWordBound` | sdg-large-text-corpora/sdg_util.py:85-91 | the first group (flushed or still open) has at most `max_words` words, and any later group exceeds `max_words` by at most the words of its first line; the first group can be an empty flush, so this is a bound on groups, not on the first output chunk |
| `Chunker.FirstLineCanOverflow` | sdg-large-text-corpora/sdg_util.py:85-91 | with a limit of 0 words, a first line of one word flushes the empty buffer, whose text is empty and is dropped by the final filter, and then opens a group of 1 word |
| `Chunker.CounterResetLetsChunkOverflow` | sdg-large-text-corpora/sdg_util.py:91 | because the counter restarts at 0, lines "ab", "cd", "ef" with a limit of 1 word and a `min_letters` of 0 give a second chunk of 2 words |
| `Chunker.ChunksWellFormed` | sdg-large-text-corpora/sdg_util.py:83-96 | every chunk is non-empty, has no leading or trailing whitespace, and holds only characters of the class and spaces |
| `Chunker.ChunksFollowGroups` | sdg-large-text-corpora/sdg_util.py:86-96 | the chunks are the non-empty texts of the flushed groups in flush order, followed by the last buffer's text when it is not blank |
| `Chunker.ChunksOfAllGroups` | sdg-large-text-corpora/sdg_util.py:93-96 | the `len(this_text) > 1` test skips only a blank buffer: the chunks are the non-blank stripped texts of all groups, the last buffer included |
| `Chunker.ShortLinesYieldNoChunks` | sdg-large-text-corpora/sdg_util.py:82 | a text whose lines are all at most `min_letters` long yields no chunk |
| `Chunker.ShortTextYieldsNoChunks` | sdg-large-text-corpora/sdg_util.py:82 | a text no longer than `min_letters`, such as "a\nb\nc" with the defaults, yields no chunk |
| `Goals.GoalTable` | sdg-large-text-corpora/sdg_util.py:46-67 | there are 18 labels ending in the sentinel "unknown", which no goal label equals, and 17 score columns |
| `ChunkFrame.ProcessText` | sdg-large-text-corpora/sdg_util.py:100-115 | the frame has at least one row; rows are numbered 0, 1, … and share one error flag; the flag is set exactly when there is no chunk, and then the frame is the single placeholder row; otherwise the row texts are the chunks in order |
| `ChunkFrame.RowTextsWellFormed` | sdg-large-text-corpora/sdg_util.py:104-106 | every row text, the placeholder included, is a well-formed chunk |
| `Tokens.ProcessData` | sdg-large-text-corpora/sdg_util.py:118-148 | ids, mask and segment ids have one length: `max_len` when the input fits, else the input length cut at 512; the ids are the input followed by zeros; mask and segment ids are equal, 1 on real tokens and 0 on padding |
| `Tokens.InputIsPrefix` | sdg-large-text-corpora/sdg_util.py:131-141 | the input ids survive as a prefix whenever they fit in `max_len` or in 512 |
| `Dataset.ExactLengthUnchanged` | sdg-webservice/sdg_model.py:50-60 | an input of exactly `max_len` ids is returned unchanged with an all-ones mask |
| `Dataset.TruncationIgnoresMaxLen` | sdg-webservice/sdg_model.py:57-60 | the truncation cuts at the literal 512, so an input longer than `max_len` but within 512 is returned longer than `max_len` |
| `Dataset.ServiceWidthIsFixed` | sdg-webservice/sdg_model.py:50-60 | with the service's `MAX_LEN` of 512 every encoding has exactly 512 ids, mask bits and segment ids |
| `Dataset.SdgDataset.GetItem` | sdg-webservice/sdg_model.py:80-91 | every item has 512 ids, mask bits and segment ids |
| `Dataset.ItemsFollowAbstracts` | sdg-webservice/sdg_model.py:77-85 | the dataset has one item per abstract, item `k` encodes abstract `k`, and index `k - len` is the same item, so negative indices count from the end |
| `Smoother.Smoothen` | sdg-large-text-corpora/sdg_util.py:197-214 | the shape is kept; row `i` is defined exactly when a full window ends at it, and each defined cell is the mean of its column over that window |
| `Smoother.ShortDocumentAverage` | sdg-large-text-corpora/sdg_util.py:208-209 | a document of fewer than 5 rows has only its last row defined, and that row is the column mean of the whole document |
| `Smoother.SmoothingKeepsBounds` | sdg-large-text-corpora/sdg_util.py:212 | every defined smoothed cell lies within the bounds of the input, so probabilities stay in [0, 1] |
| `Smoother.ColumnKeepsBounds` | sdg-large-text-corpora/sdg_util.py:212 | each column's defined smoothed cells lie within that column's bounds |
| `Smoother.ConstantColumnIsFixed` | sdg-large-text-corpora/sdg_util.py:212 | a constant column is left unchanged wherever it is defined |
| `Smoother.SingleRowUnchanged` | sdg-large-text-corpora/sdg_util.py:208-212 | a one-row document comes back unchanged and fully defined |
| `Smoother.DefinedRows` | sdg-large-text-corpora/sdg_util.py:212 | a row is defined in every column or in none, and a window no wider than the document defines the last row |
| `Aggregator.Binarize` | sdg-large-text-corpora/sdg_util.py:227-229 | the two masks give 0 or 1; with a positive confidence, 1 exactly when the value reaches it; with a confidence of 0 or less, always 1 |
| `Aggregator.FirstArgMax` | sdg-large-text-corpora/sdg_util.py:242 | `np.argmax` returns an index holding the maximum, and every earlier index holds less |
| `Aggregator.AggregatedScore` | sdg-large-text-corpora/sdg_util.py:217-246 | 17 scores and the number of valid rows; with no valid row, every score is undefined and the top index is 17; otherwise each score is the goal's count over the valid rows, and the top index is the first goal with the highest score |
| `Aggregator.CountsWithinValid` | sdg-large-text-corpora/sdg_util.py:232-235 | no goal is counted in more rows than are valid, and no more rows are valid than are defined |
| `Aggregator.CountsCoverValid` | sdg-large-text-corpora/sdg_util.py:232-235 | the goal counts together are at least the number of valid rows |
| `Aggregator.ValidTableHasHit` | sdg-large-text-corpora/sdg_util.py:235-241 | with a valid row some goal has a positive count, so the sentinel is never chosen then |
| `Aggregator.ScoresAreFractions` | sdg-large-text-corpora/sdg_util.py:238 | with a valid row every score is defined and lies in [0, 1] |
| `Aggregator.UndefinedRowCounts` | sdg-large-text-corpora/sdg_util.py:228-235 | a wholly undefined row, at any position, adds to no goal count, no valid count and no defined count |
| `Aggregator.UndefinedRowIgnored` | sdg-large-text-corpora/sdg_util.py:228-244 | inserting a wholly undefined row at any position changes no score, top index or valid count |
| `Aggregator.LeadingUndefinedRowsIgnored` | sdg-large-text-corpora/sdg_util.py:228-244 | wholly undefined rows at the head of a table leave its aggregate unchanged |
| `Aggregator.UndefinedPrefixIgnored` | sdg-large-text-corpora/sdg_util.py:228-244 | when the first k rows of a table are wholly undefined, the table aggregates to the same result as its rows from k on |
| `Aggregator.NonPositiveConfidenceSetsAll` | sdg-large-text-corpora/sdg_util.py:228-229 | with a confidence of 0 or less every defined row is valid |
| `Aggregator.GoalInEveryDefinedRow` | sdg-large-text-corpora/sdg_util.py:232-235 | a goal set in every defined row is counted in every valid row, and every defined row is valid |
| `Aggregator.DominantGoal` | sdg-large-text-corpora/sdg_util.py:238-244 | a goal set in every defined row of a table with a defined row scores 1, and no later goal becomes the top goal |
| `Pipeline.ChunkDocuments` | sdg-large-text-corpora/basic_usage.py:413-419 | the chunking block yields every document's chunk rows, tagged with its id, concatenated in input order |
| `Pipeline.ScoreAllTagged` | sdg-large-text-corpora/basic_usage.py:423-426 | scoring the concatenated rows is scoring each document's rows in turn |
| `Pipeline.GroupCountsOfDoc` | sdg-large-text-corpora/basic_usage.py:428-436 | a document's rows, appended after rows whose groups do not include its key, add exactly one group: its key with its number of chunk rows |
| `Pipeline.GroupCountsOfDocs` | sdg-large-text-corpora/basic_usage.py:428-436 | the group-by makes one group per document, keyed by its id and error flag, counting its chunk rows |
| `Pipeline.InitialRecordsOfDocs` | sdg-large-text-corpora/basic_usage.py:428-441 | after the group-by each document has one record with its chunk count, no valid chunk, an empty label and zero scores |
| `Pipeline.UniqueIdsOfDocs` | sdg-large-text-corpora/basic_usage.py:443 | `df.id.unique()` lists the document ids in input order |
| `Pipeline.RowsOfDocument` | sdg-large-text-corpora/basic_usage.py:444 | `df[df.id == uuid]` is exactly that document's scored rows |
| `Pipeline.AssignByIdStep` | sdg-large-text-corpora/basic_usage.py:446-448 | storing one document's results completes its record and leaves every other record alone |
| `Pipeline.AggregateDocuments` | sdg-large-text-corpora/basic_usage.py:428-448 | the result has one record per `(id, error)` group, and each is the document's smoothed, aggregated record |
| `Pipeline.RunBatch` | sdg-large-text-corpora/basic_usage.py:413-448 | the scored table is every document's chunk rows scored in order, and the result maps each document's `(id, error)` key to its record |
| `Pipeline.RecordCounts` | sdg-large-text-corpora/basic_usage.py:428-436 | a record counts the document's chunk rows; its error flag is set exactly when there is no chunk, and then the count is 1; no more chunks are valid than there are rows |
| `Pipeline.RecordScores` | sdg-large-text-corpora/basic_usage.py:445-448 | the top label is "unknown" exactly when no chunk is valid; then every score is undefined, otherwise every score lies in [0, 1] |
| `Pipeline.ErroredDocumentIsScored` | sdg-large-text-corpora/basic_usage.py:443-448 | a document without chunks is not skipped: its record is the aggregate of the scorer's output for the placeholder text, unsmoothed |
| `Pipeline.SmoothedHeadIgnored` | sdg-large-text-corpora/basic_usage.py:444-445 | the rows a full window has not yet reached when smoothing a document do not count: its aggregate is that of the rows from the first full window on |
| `Pipeline.FirstColumnDominates` | sdg-large-text-corpora/sdg_util.py:197-244 | a table whose first column lies in [0.5, 1] is smoothed and aggregated to goal 1 with score 1 and at least one valid chunk |
| `Pipeline.FirstGoalDominates` | sdg-large-text-corpora/basic_usage.py:444-447 | when each of the document's chunks scores goal 1 between 0.5 and 1, goal 1 scores 1 and is the top goal, even against ties |

## Left out

- The neural scorer is a function parameter that returns 17 reals per text. This stands for `process_list_of_text` and `SDGModel`. Their sigmoid, the rounding to four decimals, batching and the device are not modelled.
- The WordPiece tokenizer is a function parameter from text to ids. Its output is the input of `Tokens.ProcessData`.
- `SDGDataset.__getitem__` returns lists of integers, not tensors.
- The batch copy of `SDGDataset` in `sdg_util.py` differs from the service's only in taking the tokenizer as an argument. It is modelled once.
- Scores are reals, not floating point. NaN appears only as an undefined cell (`None`).
- `Smoother.Smoothen`: requires a positive window on a document of five or more rows. There pandas raises on a negative window and returns an all-NaN frame for a window of 0; neither case is modelled, because the driver always passes 5.
- `Smoother.Smoothen`: an empty frame is not modelled. `process_text` never returns one.
- `Pipeline.RunBatch`: the result is a map keyed by `(id, error)`. The sorted row order of the group-by's output frame is not modelled.
- `Pipeline.RunBatch`: the intermediate `sdg` list column and the `id_copy` column are folded into the scored rows.
- `Pipeline.RunBatch`: the input mapping is a sequence with distinct ids, standing for the keys of a Python dict in insertion order.
- The sample texts, model loading, printing and the CSV export of `basic_usage.py` are I/O and are not modelled.
- The web service (`main.py`, `example_request.py`, `config.py`) and the model classes are not part of this model.
- Characters are single code points. The character class of the cleaning regex is a predicate on characters. `isspace` is its set of Unicode whitespace characters.
