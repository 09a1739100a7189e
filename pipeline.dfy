/**
 * The batch driver: every document is chunked, the chunk rows of all
 * documents are scored in one pass, and each document's rows are
 * smoothed and aggregated into one record of the result table.
 */
module Pipeline {
  import opened Wrappers
  import opened Goals
  import opened Chunker
  import opened ChunkFrame
  import opened Smoother
  import opened Aggregator

  /** One entry of the input mapping: a document id and its raw text. */
  datatype Document = Document(id: string, text: string)

  /** The scorer: a chunk text to one probability per goal. */
  type Scorer = string -> seq<real>

  ghost predicate IsScorer(scorer: Scorer) {
    forall t :: |scorer(t)| == NumGoals
  }

  /** The input mapping has one entry per id. */
  predicate DistinctIds(docs: seq<Document>) {
    forall a, b :: 0 <= a < b < |docs| ==> docs[a].id != docs[b].id
  }

  /** The window and confidence the driver passes. */
  const SmoothingWindow: int := 5

  /** A row of `df` before scoring: a chunk row tagged with its document id. */
  datatype TaggedRow = TaggedRow(id: string, chunk: ChunkRow)

  /** A row of `df` after scoring; `sdg[g]` is column `sdg_(g+1)`. */
  datatype ScoredRow = ScoredRow(id: string, chunk: ChunkRow, sdg: seq<real>)

  /** A row of `df_agg`. Score cells are `None` where the source holds NaN. */
  datatype AggRecord = AggRecord(
    id: string, parsingError: bool, numChunks: nat,
    numValidChunks: nat, documentTopSdg: string, sdg: seq<Option<real>>)

  // ---------------------------------------------------------------------
  // The result, document by document

  /** A document after `process_text`: its id and its chunk rows. */
  datatype Chunked = Chunked(id: string, rows: seq<ChunkRow>)

  function ChunkDocument(d: Document): Chunked {
    Chunked(d.id, ProcessText(d.text))
  }

  function ChunkAll(docs: seq<Document>): seq<Chunked> {
    seq(|docs|, k requires 0 <= k < |docs| => ChunkDocument(docs[k]))
  }

  /** What `process_text` guarantees of its rows: at least one, all with the same error flag. */
  ghost predicate WellChunked(c: Chunked) {
    |c.rows| >= 1 && forall k :: 0 <= k < |c.rows| ==> c.rows[k].error == c.rows[0].error
  }

  /** `df_this_text['id'] = id`. */
  function Tag(c: Chunked): seq<TaggedRow> {
    seq(|c.rows|, k requires 0 <= k < |c.rows| => TaggedRow(c.id, c.rows[k]))
  }

  /** The tagged rows of all documents, in input order. */
  function AllTagged(cs: seq<Chunked>): seq<TaggedRow>
    decreases |cs|
  {
    if cs == [] then [] else AllTagged(cs[..|cs| - 1]) + Tag(cs[|cs| - 1])
  }

  /** The scorer applied once per row, in row order. */
  function Score(rows: seq<TaggedRow>, scorer: Scorer): seq<ScoredRow> {
    seq(|rows|, k requires 0 <= k < |rows| => ScoredRow(rows[k].id, rows[k].chunk, scorer(rows[k].chunk.text)))
  }

  /** The scored rows of one document. */
  function DocScored(c: Chunked, scorer: Scorer): seq<ScoredRow> {
    Score(Tag(c), scorer)
  }

  /** The scored rows of all documents, in input order. */
  function AllScored(cs: seq<Chunked>, scorer: Scorer): seq<ScoredRow>
    decreases |cs|
  {
    if cs == [] then [] else AllScored(cs[..|cs| - 1], scorer) + DocScored(cs[|cs| - 1], scorer)
  }

  /** `df[SDG_COLS]` of some rows. */
  function SdgTable(rows: seq<ScoredRow>): seq<seq<real>> {
    seq(|rows|, k requires 0 <= k < |rows| => rows[k].sdg)
  }

  /** The group key of a document's rows: its id and its rows' common error flag. */
  function Key(c: Chunked): (string, bool) {
    (c.id, c.rows != [] && c.rows[0].error)
  }

  function DocKeys(cs: seq<Chunked>): set<(string, bool)> {
    set i | 0 <= i < |cs| :: Key(cs[i])
  }

  function DocIds(cs: seq<Chunked>): seq<string> {
    seq(|cs|, k requires 0 <= k < |cs| => cs[k].id)
  }

  predicate DistinctChunked(cs: seq<Chunked>) {
    forall a, b :: 0 <= a < b < |cs| ==> cs[a].id != cs[b].id
  }

  /** The record of one chunked document after the driver's last loop. */
  function Record(c: Chunked, scorer: Scorer): AggRecord
    requires IsScorer(scorer) && c.rows != []
  {
    var rows := DocScored(c, scorer);
    ScoredWidth(Tag(c), scorer);
    var a := Summarize(rows);
    AggRecord(c.id, Key(c).1, |rows|, a.numValidChunks, SdgGoals[a.topIndex], a.scores)
  }

  /** One document's rows smoothed with the driver's window and aggregated at its confidence. */
  function Summarize(rows: seq<ScoredRow>): Aggregate
    requires rows != [] && forall i :: 0 <= i < |rows| ==> |rows[i].sdg| == NumGoals
  {
    assert forall i :: 0 <= i < |rows| ==> |SdgTable(rows)[i]| == NumGoals;
    AggregatedScore(Smoothen(SdgTable(rows), SmoothingWindow), DefaultConfidence)
  }

  /** Every scored row has one score per goal. */
  lemma ScoredWidth(rows: seq<TaggedRow>, scorer: Scorer)
    requires IsScorer(scorer)
    ensures forall i :: 0 <= i < |rows| ==> |Score(rows, scorer)[i].sdg| == NumGoals
  {
    forall i | 0 <= i < |rows|
      ensures |Score(rows, scorer)[i].sdg| == NumGoals
    {
      assert Score(rows, scorer)[i].sdg == scorer(rows[i].chunk.text);
    }
  }

  /** The record the driver produces for one document. */
  function DocumentRecord(d: Document, scorer: Scorer): AggRecord
    requires IsScorer(scorer)
  {
    Record(ChunkDocument(d), scorer)
  }

  /** The record of one document as the group-by creates it, before the last loop. */
  function InitialRecord(c: Chunked): AggRecord {
    AggRecord(c.id, Key(c).1, |c.rows|, 0, "", seq(NumGoals, _ => Some(0.0)))
  }

  // ---------------------------------------------------------------------
  // The table operations the driver uses

  function RowKey(r: ScoredRow): (string, bool) {
    (r.id, r.chunk.error)
  }

  /** `df.groupby(['id', 'error'])["id_copy"].count()`. */
  function GroupCounts(rows: seq<ScoredRow>): map<(string, bool), nat>
    decreases |rows|
  {
    if rows == [] then map[]
    else
      var counts := GroupCounts(rows[..|rows| - 1]);
      var key := RowKey(rows[|rows| - 1]);
      counts[key := (if key in counts then counts[key] else 0) + 1]
  }

  /** `df.id.unique()`: ids in order of first appearance. */
  function UniqueIds(rows: seq<ScoredRow>): seq<string>
    decreases |rows|
  {
    if rows == [] then []
    else
      var ids := UniqueIds(rows[..|rows| - 1]);
      var id := rows[|rows| - 1].id;
      if id in ids then ids else ids + [id]
  }

  /** `df[df.id == id]`. */
  function RowsWithId(rows: seq<ScoredRow>, id: string): seq<ScoredRow>
    decreases |rows|
  {
    if rows == [] then []
    else
      var init := RowsWithId(rows[..|rows| - 1], id);
      if rows[|rows| - 1].id == id then init + [rows[|rows| - 1]] else init
  }

  /** The `.loc[df_agg.id == id, ...]` assignments of one document's results. */
  function Assign(rec: AggRecord, a: Aggregate): AggRecord
    requires a.topIndex < |SdgGoals|
  {
    rec.(sdg := a.scores, documentTopSdg := SdgGoals[a.topIndex], numValidChunks := a.numValidChunks)
  }

  /** The records the group-by creates: counts filled in, results zeroed. */
  function GroupRecords(counts: map<(string, bool), nat>): map<(string, bool), AggRecord> {
    map k | k in counts :: AggRecord(k.0, k.1, counts[k], 0, "", seq(NumGoals, _ => Some(0.0)))
  }

  /** `df_agg.loc[df_agg.id == id, ...] = ...`: the results `a` stored in the records of `id`. */
  function AssignById(m: map<(string, bool), AggRecord>, id: string, a: Aggregate): map<(string, bool), AggRecord>
    requires a.topIndex < |SdgGoals|
  {
    map k | k in m :: if k.0 == id then Assign(m[k], a) else m[k]
  }

  // ---------------------------------------------------------------------
  // Lemmas about the table operations

  lemma GroupCountsSnoc(rows: seq<ScoredRow>, row: ScoredRow)
    ensures var counts := GroupCounts(rows);
      GroupCounts(rows + [row]) ==
        counts[RowKey(row) := (if RowKey(row) in counts then counts[RowKey(row)] else 0) + 1]
  {
    assert (rows + [row])[..|rows|] == rows;
  }

  lemma {:induction false} GroupCountsAppend(a: seq<ScoredRow>, r: seq<ScoredRow>, key: (string, bool))
    requires |r| >= 1
    requires forall i :: 0 <= i < |r| ==> RowKey(r[i]) == key
    requires key !in GroupCounts(a)
    ensures GroupCounts(a + r) == GroupCounts(a)[key := |r|]
    decreases |r|
  {
    var init := r[..|r| - 1];
    var last := r[|r| - 1];
    assert a + r == (a + init) + [last];
    assert RowKey(last) == key;
    GroupCountsSnoc(a + init, last);
    var counts := GroupCounts(a);
    if |r| == 1 {
      assert a + init == a;
    } else {
      GroupCountsAppend(a, init, key);
      var before: map<(string, bool), nat> := counts[key := |init|];
      assert before[key := |r|] == counts[key := |r|];
    }
  }

  lemma UniqueIdsAppend(a: seq<ScoredRow>, r: seq<ScoredRow>, id: string)
    requires |r| >= 1
    requires forall i :: 0 <= i < |r| ==> r[i].id == id
    requires id !in UniqueIds(a)
    ensures UniqueIds(a + r) == UniqueIds(a) + [id]
    decreases |r|
  {
    var ar := a + r;
    assert ar[..|ar| - 1] == a + r[..|r| - 1];
    assert ar[|ar| - 1] == r[|r| - 1];
    if |r| == 1 {
      assert a + r[..0] == a;
    } else {
      UniqueIdsAppend(a, r[..|r| - 1], id);
    }
  }

  lemma {:induction false} RowsWithIdAppend(a: seq<ScoredRow>, b: seq<ScoredRow>, id: string)
    ensures RowsWithId(a + b, id) == RowsWithId(a, id) + RowsWithId(b, id)
    decreases |b|
  {
    if b == [] {
      assert a + b == a;
    } else {
      var ab := a + b;
      assert ab[..|ab| - 1] == a + b[..|b| - 1];
      assert ab[|ab| - 1] == b[|b| - 1];
      RowsWithIdAppend(a, b[..|b| - 1], id);
    }
  }

  lemma {:induction false} RowsWithIdAll(r: seq<ScoredRow>, id: string)
    requires forall i :: 0 <= i < |r| ==> r[i].id == id
    ensures RowsWithId(r, id) == r
    decreases |r|
  {
    if r != [] {
      RowsWithIdAll(r[..|r| - 1], id);
      assert r[..|r| - 1] + [r[|r| - 1]] == r;
    }
  }

  lemma {:induction false} RowsWithIdNone(r: seq<ScoredRow>, id: string)
    requires forall i :: 0 <= i < |r| ==> r[i].id != id
    ensures RowsWithId(r, id) == []
    decreases |r|
  {
    if r != [] {
      RowsWithIdNone(r[..|r| - 1], id);
    }
  }

  // ---------------------------------------------------------------------
  // Lemmas about the documents' rows

  /** `process_text` gives every document well-formed chunk rows. */
  lemma ChunkAllWellChunked(docs: seq<Document>)
    ensures |ChunkAll(docs)| == |docs|
    ensures forall i :: 0 <= i < |docs| ==> WellChunked(ChunkAll(docs)[i])
    ensures DistinctIds(docs) ==> ValidBatch(ChunkAll(docs))
  {
    forall i | 0 <= i < |docs|
      ensures WellChunked(ChunkAll(docs)[i])
    {
      var rows := ProcessText(docs[i].text);
      assert ChunkAll(docs)[i].rows == rows;
    }
  }

  lemma {:induction false} ScoreAppend(a: seq<TaggedRow>, b: seq<TaggedRow>, scorer: Scorer)
    ensures Score(a + b, scorer) == Score(a, scorer) + Score(b, scorer)
  {
    var l := Score(a + b, scorer);
    var rr := Score(a, scorer) + Score(b, scorer);
    assert |l| == |rr|;
    forall k | 0 <= k < |l|
      ensures l[k] == rr[k]
    {
      if k < |a| {
        assert (a + b)[k] == a[k];
      } else {
        assert (a + b)[k] == b[k - |a|];
      }
    }
  }

  /** Scoring the concatenated rows is scoring each document's rows. */
  lemma {:induction false} ScoreAllTagged(cs: seq<Chunked>, scorer: Scorer)
    ensures Score(AllTagged(cs), scorer) == AllScored(cs, scorer)
    decreases |cs|
  {
    if cs != [] {
      ScoreAllTagged(cs[..|cs| - 1], scorer);
      ScoreAppend(AllTagged(cs[..|cs| - 1]), Tag(cs[|cs| - 1]), scorer);
    }
  }

  /** Every row of a document carries the document's id and group key. */
  lemma DocRowsKeyed(c: Chunked, scorer: Scorer)
    requires WellChunked(c)
    ensures |DocScored(c, scorer)| == |c.rows| >= 1
    ensures forall i :: 0 <= i < |DocScored(c, scorer)| ==>
      DocScored(c, scorer)[i].id == c.id && RowKey(DocScored(c, scorer)[i]) == Key(c)
  {
  }

  /** The input of the driver's loops: distinct ids and well-formed chunk rows. */
  ghost predicate ValidBatch(cs: seq<Chunked>) {
    DistinctChunked(cs) && forall i :: 0 <= i < |cs| ==> WellChunked(cs[i])
  }

  lemma BatchPrefix(cs: seq<Chunked>)
    requires cs != [] && ValidBatch(cs)
    ensures ValidBatch(cs[..|cs| - 1]) && WellChunked(cs[|cs| - 1])
    ensures forall i :: 0 <= i < |cs| - 1 ==> cs[i].id != cs[|cs| - 1].id
  {
  }

  lemma DocKeysSnoc(cs: seq<Chunked>)
    requires cs != []
    ensures DocKeys(cs) == DocKeys(cs[..|cs| - 1]) + {Key(cs[|cs| - 1])}
  {
    var p := cs[..|cs| - 1];
    forall k | k in DocKeys(cs)
      ensures k in DocKeys(p) + {Key(cs[|cs| - 1])}
    {
      var i :| 0 <= i < |cs| && Key(cs[i]) == k;
      if i < |p| {
        assert Key(p[i]) == k;
      }
    }
    forall k | k in DocKeys(p)
      ensures k in DocKeys(cs)
    {
      var i :| 0 <= i < |p| && Key(p[i]) == k;
      assert Key(cs[i]) == k;
    }
  }

  /**
   * The group-by yields one group per document, keyed by the document's id
   * and error flag, counting the document's chunk rows.
   */
  lemma {:induction false} GroupCountsOfDocs(cs: seq<Chunked>, scorer: Scorer)
    requires ValidBatch(cs)
    ensures GroupCounts(AllScored(cs, scorer)).Keys == DocKeys(cs)
    ensures forall i :: 0 <= i < |cs| ==> GroupCounts(AllScored(cs, scorer))[Key(cs[i])] == |cs[i].rows|
    decreases |cs|
  {
    if cs != [] {
      var p := cs[..|cs| - 1];
      var c := cs[|cs| - 1];
      var a := AllScored(p, scorer);
      assert AllScored(cs, scorer) == a + DocScored(c, scorer);
      BatchPrefix(cs);
      GroupCountsOfDocs(p, scorer);
      assert Key(c) !in GroupCounts(a) by {
        NewKey(cs);
      }
      GroupCountsOfDoc(a, c, scorer);
      GroupCountsStep(GroupCounts(a), cs);
    }
  }

  /** A document's rows, appended after rows of other groups, form one new group. */
  lemma GroupCountsOfDoc(a: seq<ScoredRow>, c: Chunked, scorer: Scorer)
    requires WellChunked(c) && Key(c) !in GroupCounts(a)
    ensures GroupCounts(a + DocScored(c, scorer)) == GroupCounts(a)[Key(c) := |c.rows|]
  {
    DocRowsKeyed(c, scorer);
    GroupCountsAppend(a, DocScored(c, scorer), Key(c));
  }

  /** The last document's key is new to the documents before it. */
  lemma NewKey(cs: seq<Chunked>)
    requires cs != [] && DistinctChunked(cs)
    ensures Key(cs[|cs| - 1]) !in DocKeys(cs[..|cs| - 1])
    ensures cs[|cs| - 1].id !in DocIds(cs[..|cs| - 1])
  {
    var p := cs[..|cs| - 1];
    forall i | 0 <= i < |p|
      ensures p[i].id != cs[|cs| - 1].id
    {
      assert p[i] == cs[i];
    }
  }

  /** Adding the last document's count to the counts of the others. */
  lemma GroupCountsStep(m: map<(string, bool), nat>, cs: seq<Chunked>)
    requires cs != []
    requires m.Keys == DocKeys(cs[..|cs| - 1])
    requires var p := cs[..|cs| - 1]; forall i :: 0 <= i < |p| ==> m[Key(p[i])] == |p[i].rows|
    requires Key(cs[|cs| - 1]) !in m
    ensures var m' := m[Key(cs[|cs| - 1]) := |cs[|cs| - 1].rows|];
      m'.Keys == DocKeys(cs) && forall i :: 0 <= i < |cs| ==> m'[Key(cs[i])] == |cs[i].rows|
  {
    DocKeysSnoc(cs);
    var c := cs[|cs| - 1];
    var m' := m[Key(c) := |c.rows|];
    forall i | 0 <= i < |cs|
      ensures m'[Key(cs[i])] == |cs[i].rows|
    {
      if i < |cs| - 1 {
        assert cs[..|cs| - 1][i] == cs[i];
        assert Key(cs[i]) in m;
      }
    }
  }

  /** The group-by creates exactly one initial record per document. */
  lemma InitialRecordsOfDocs(cs: seq<Chunked>, scorer: Scorer)
    requires ValidBatch(cs)
    ensures GroupRecords(GroupCounts(AllScored(cs, scorer))).Keys == DocKeys(cs)
    ensures forall i :: 0 <= i < |cs| ==>
      GroupRecords(GroupCounts(AllScored(cs, scorer)))[Key(cs[i])] == InitialRecord(cs[i])
  {
    GroupCountsOfDocs(cs, scorer);
  }

  /** The unique ids of the scored rows are the document ids, in input order. */
  lemma {:induction false} UniqueIdsOfDocs(cs: seq<Chunked>, scorer: Scorer)
    requires ValidBatch(cs)
    ensures UniqueIds(AllScored(cs, scorer)) == DocIds(cs)
    decreases |cs|
  {
    if cs != [] {
      var p := cs[..|cs| - 1];
      var c := cs[|cs| - 1];
      BatchPrefix(cs);
      UniqueIdsOfDocs(p, scorer);
      DocRowsKeyed(c, scorer);
      NewKey(cs);
      assert AllScored(cs, scorer) == AllScored(p, scorer) + DocScored(c, scorer);
      UniqueIdsAppend(AllScored(p, scorer), DocScored(c, scorer), c.id);
      DocIdsSnoc(cs);
    }
  }

  lemma DocIdsSnoc(cs: seq<Chunked>)
    requires cs != []
    ensures DocIds(cs) == DocIds(cs[..|cs| - 1]) + [cs[|cs| - 1].id]
  {
  }

  /** No scored row carries an id that no document has. */
  lemma {:induction false} RowsOfAbsentId(cs: seq<Chunked>, id: string, scorer: Scorer)
    requires forall i :: 0 <= i < |cs| ==> cs[i].id != id
    ensures RowsWithId(AllScored(cs, scorer), id) == []
    decreases |cs|
  {
    if cs != [] {
      var p := cs[..|cs| - 1];
      var c := cs[|cs| - 1];
      RowsOfAbsentId(p, id, scorer);
      RowsWithIdAppend(AllScored(p, scorer), DocScored(c, scorer), id);
      RowsWithIdNone(DocScored(c, scorer), id);
    }
  }

  /** Selecting one document's id from the scored rows yields exactly that document's rows. */
  lemma {:induction false} RowsOfDocument(cs: seq<Chunked>, j: int, scorer: Scorer)
    requires ValidBatch(cs) && 0 <= j < |cs|
    ensures RowsWithId(AllScored(cs, scorer), cs[j].id) == DocScored(cs[j], scorer)
    decreases |cs|
  {
    var p := cs[..|cs| - 1];
    var c := cs[|cs| - 1];
    BatchPrefix(cs);
    RowsWithIdAppend(AllScored(p, scorer), DocScored(c, scorer), cs[j].id);
    if j == |cs| - 1 {
      RowsOfAbsentId(p, c.id, scorer);
      RowsWithIdAll(DocScored(c, scorer), c.id);
    } else {
      assert cs[j] == p[j];
      RowsOfDocument(p, j, scorer);
      RowsWithIdNone(DocScored(c, scorer), cs[j].id);
    }
  }

  /** Every document's record, in input order. */
  function Records(cs: seq<Chunked>, scorer: Scorer): (recs: seq<AggRecord>)
    requires ValidBatch(cs) && IsScorer(scorer)
    ensures |recs| == |cs| && forall i :: 0 <= i < |cs| ==> recs[i] == Record(cs[i], scorer)
  {
    seq(|cs|, i requires 0 <= i < |cs| && cs[i].rows != [] => Record(cs[i], scorer))
  }

  /**
   * The result table after the driver's last loop has handled the first
   * `j` documents: one record per document, the first `j` holding their
   * expected records `recs`, the rest as the group-by created them.
   */
  ghost predicate FilledUpTo(cs: seq<Chunked>, recs: seq<AggRecord>, m: map<(string, bool), AggRecord>, j: int)
    requires |recs| == |cs|
  {
    && m.Keys == DocKeys(cs)
    && (forall k :: 0 <= k < j && k < |cs| ==> m[Key(cs[k])] == recs[k])
    && (forall k :: 0 <= k < |cs| && j <= k ==> m[Key(cs[k])] == InitialRecord(cs[k]))
  }

  /**
   * One step of the driver's last loop: storing document `j`'s results
   * completes its record and leaves every other document's record alone.
   */
  lemma AssignByIdStep(cs: seq<Chunked>, recs: seq<AggRecord>, j: int, m: map<(string, bool), AggRecord>, a: Aggregate)
    requires DistinctChunked(cs) && |recs| == |cs| && 0 <= j < |cs|
    requires FilledUpTo(cs, recs, m, j)
    requires a.topIndex < |SdgGoals| && Assign(InitialRecord(cs[j]), a) == recs[j]
    ensures FilledUpTo(cs, recs, AssignById(m, cs[j].id, a), j + 1)
  {
    var m' := AssignById(m, cs[j].id, a);
    forall k | 0 <= k < |cs| && k != j
      ensures m'[Key(cs[k])] == m[Key(cs[k])]
    {
      assert Key(cs[k]).0 != cs[j].id;
    }
  }

  /**
   * The loop body on document `j`: its rows, selected by id, are non-empty
   * and rectangular, and storing their summary completes its record.
   */
  lemma DocumentStep(cs: seq<Chunked>, recs: seq<AggRecord>, j: int, scorer: Scorer, m: map<(string, bool), AggRecord>)
    requires ValidBatch(cs) && IsScorer(scorer) && 0 <= j < |cs|
    requires |recs| == |cs| && recs[j] == Record(cs[j], scorer)
    requires FilledUpTo(cs, recs, m, j)
    ensures var rows := RowsWithId(AllScored(cs, scorer), cs[j].id);
      && rows != []
      && (forall i :: 0 <= i < |rows| ==> |rows[i].sdg| == NumGoals)
      && FilledUpTo(cs, recs, AssignById(m, cs[j].id, Summarize(rows)), j + 1)
  {
    RowsOfDocument(cs, j, scorer);
    var rows := RowsWithId(AllScored(cs, scorer), cs[j].id);
    ScoredWidth(Tag(cs[j]), scorer);
    var a := Summarize(rows);
    assert Assign(InitialRecord(cs[j]), a) == recs[j];
    AssignByIdStep(cs, recs, j, m, a);
  }

  // ---------------------------------------------------------------------
  // The driver

  /** The chunking stage: every document's chunk rows, tagged with its id, concatenated. */
  method ChunkDocuments(docs: seq<Document>) returns (tagged: seq<TaggedRow>)
    ensures tagged == AllTagged(ChunkAll(docs))
  {
    ghost var cs := ChunkAll(docs);
    assert |cs| == |docs|;
    tagged := [];
    for i := 0 to |docs|
      invariant tagged == AllTagged(cs[..i])
    {
      var rows := ProcessText(docs[i].text);
      AllTaggedStep(cs, i, Chunked(docs[i].id, rows));
      tagged := tagged + Tag(Chunked(docs[i].id, rows));
    }
    assert cs[..|cs|] == cs;
  }

  lemma AllTaggedStep(cs: seq<Chunked>, i: int, c: Chunked)
    requires 0 <= i < |cs| && cs[i] == c
    ensures AllTagged(cs[..i + 1]) == AllTagged(cs[..i]) + Tag(c)
  {
    assert cs[..i + 1][..i] == cs[..i];
  }

  /**
   * The aggregation stage on the scored rows `df` of the chunked documents
   * `cs`: one record per `(id, error)` group, then each document's rows
   * smoothed and aggregated into its record, in order of first appearance.
   */
  method AggregateDocuments(df: seq<ScoredRow>, ghost cs: seq<Chunked>, scorer: Scorer)
    returns (dfAgg: map<(string, bool), AggRecord>)
    requires ValidBatch(cs) && IsScorer(scorer) && df == AllScored(cs, scorer)
    ensures dfAgg.Keys == DocKeys(cs)
    ensures forall i :: 0 <= i < |cs| ==> dfAgg[Key(cs[i])] == Record(cs[i], scorer)
  {
    ghost var recs := Records(cs, scorer);
    var counts := GroupCounts(df);
    InitialRecordsOfDocs(cs, scorer);
    dfAgg := GroupRecords(counts);

    var ids := UniqueIds(df);
    UniqueIdsOfDocs(cs, scorer);
    for j := 0 to |ids|
      invariant FilledUpTo(cs, recs, dfAgg, j)
    {
      var uuid := ids[j];
      DocumentStep(cs, recs, j, scorer, dfAgg);
      var rows := RowsWithId(df, uuid);
      var a := Summarize(rows);
      dfAgg := AssignById(dfAgg, uuid, a);
    }
  }

  /**
   * The batch driver: chunk every document, score all chunk rows in one
   * pass, then aggregate. `df` is the scored row table and `dfAgg` the
   * result table, keyed by its `(id, error)` columns.
   */
  method RunBatch(docs: seq<Document>, scorer: Scorer)
    returns (df: seq<ScoredRow>, dfAgg: map<(string, bool), AggRecord>)
    requires DistinctIds(docs) && IsScorer(scorer)
    ensures ValidBatch(ChunkAll(docs))
    ensures df == AllScored(ChunkAll(docs), scorer)
    ensures dfAgg.Keys == DocKeys(ChunkAll(docs))
    ensures forall i :: 0 <= i < |docs| ==>
      dfAgg[Key(ChunkAll(docs)[i])] == Record(ChunkAll(docs)[i], scorer)
  {
    ChunkAllWellChunked(docs);
    var tagged := ChunkDocuments(docs);
    df := Score(tagged, scorer);
    ScoreAllTagged(ChunkAll(docs), scorer);
    dfAgg := AggregateDocuments(df, ChunkAll(docs), scorer);
  }

  // ---------------------------------------------------------------------
  // Properties of a document's record

  /**
   * The record counts the document's chunk rows, an errored document has
   * exactly its one placeholder row, no more chunks are valid than there
   * are rows, and there is one score per goal.
   */
  lemma RecordCounts(d: Document, scorer: Scorer)
    requires IsScorer(scorer)
    ensures var r := DocumentRecord(d, scorer);
      r.id == d.id && r.numChunks == |ProcessText(d.text)| &&
      (r.parsingError <==> Chunks(d.text, DefaultMaxWords, DefaultMinLetters) == []) &&
      (r.parsingError ==> r.numChunks == 1) &&
      r.numValidChunks <= r.numChunks && |r.sdg| == NumGoals
  {
    var c := ChunkDocument(d);
    var rows := DocScored(c, scorer);
    ScoredWidth(Tag(c), scorer);
    CountsWithinValid(Smoothen(SdgTable(rows), SmoothingWindow), DefaultConfidence);
  }

  /**
   * The top label is the sentinel exactly when no chunk is valid; then
   * every score is undefined, otherwise every score is a fraction in [0, 1].
   */
  lemma RecordScores(c: Chunked, scorer: Scorer)
    requires IsScorer(scorer) && c.rows != []
    ensures var r := Record(c, scorer);
      (r.documentTopSdg == "unknown" <==> r.numValidChunks == 0) &&
      (r.numValidChunks == 0 ==> forall g :: 0 <= g < NumGoals ==> r.sdg[g] == None) &&
      (r.numValidChunks > 0 ==> forall g :: 0 <= g < NumGoals ==>
        r.sdg[g].Some? && 0.0 <= r.sdg[g].value <= 1.0)
  {
    var rows := DocScored(c, scorer);
    ScoredWidth(Tag(c), scorer);
    GoalTable();
    ScoresAreFractions(Smoothen(SdgTable(rows), SmoothingWindow), DefaultConfidence);
  }

  /**
   * A document with no usable chunk is not skipped: its placeholder row is
   * scored like any chunk, and its record is the aggregate of that single
   * row of scores, unsmoothed.
   */
  lemma ErroredDocumentIsScored(d: Document, scorer: Scorer)
    requires IsScorer(scorer)
    requires Chunks(d.text, DefaultMaxWords, DefaultMinLetters) == []
    ensures var r := DocumentRecord(d, scorer);
      var p := scorer(ErrorPlaceholder);
      var a := AggregatedScore([seq(NumGoals, g requires 0 <= g < NumGoals => Some(p[g]))], DefaultConfidence);
      r.parsingError && r.numChunks == 1 &&
      r.numValidChunks == a.numValidChunks && r.sdg == a.scores && r.documentTopSdg == SdgGoals[a.topIndex]
  {
    var c := ChunkDocument(d);
    var p := scorer(ErrorPlaceholder);
    assert c.rows == [ChunkRow(ErrorPlaceholder, 0, true)];
    var rows := DocScored(c, scorer);
    assert rows == [ScoredRow(d.id, ChunkRow(ErrorPlaceholder, 0, true), p)];
    assert SdgTable(rows) == [p];
    SingleRowUnchanged(p, SmoothingWindow);
  }

  /**
   * The rows smoothing leaves undefined at the head of a document's table
   * do not count: the aggregate is that of the rows from the first full
   * window on.
   */
  lemma SmoothedHeadIgnored(table: seq<seq<real>>, windowSize: int, confidence: real)
    requires |table| >= 1 && IsRectangular(table) && |table[0]| == NumGoals
    requires |table| < ShortDocumentRows || windowSize >= 1
    ensures IsScoreTable(Smoothen(table, windowSize))
    ensures var r := Smoothen(table, windowSize);
      var w := EffectiveWindow(|table|, windowSize);
      w <= |table| ==> AggregatedScore(r, confidence) == AggregatedScore(r[w - 1..], confidence)
  {
    var r := Smoothen(table, windowSize);
    var w := EffectiveWindow(|table|, windowSize);
    SmoothedHeadUndefined(table, windowSize);
    if w <= |table| {
      UndefinedPrefixIgnored(r, w - 1, confidence);
    }
  }

  /** The smoothed table has one score per goal, and its rows before the first full window are undefined. */
  lemma SmoothedHeadUndefined(table: seq<seq<real>>, windowSize: int)
    requires |table| >= 1 && IsRectangular(table) && |table[0]| == NumGoals
    requires |table| < ShortDocumentRows || windowSize >= 1
    ensures var r := Smoothen(table, windowSize);
      IsScoreTable(r) && forall i :: 0 <= i < |r| && i < EffectiveWindow(|table|, windowSize) - 1 ==> IsUndefinedRow(r[i])
  {
  }

  /**
   * When each of the document's chunks has a first score of at least the
   * confidence (and at most 1), goal 1 is
   * set in every defined row: it scores 1 and is the document's top goal,
   * the first of the ties.
   */
  lemma FirstGoalDominates(c: Chunked, scorer: Scorer)
    requires IsScorer(scorer) && c.rows != []
    requires forall k :: 0 <= k < |c.rows| ==> DefaultConfidence <= scorer(c.rows[k].text)[0] <= 1.0
    ensures var r := Record(c, scorer);
      r.numValidChunks >= 1 && r.sdg[0] == Some(1.0) && r.documentTopSdg == SdgGoals[0]
  {
    var rows := DocScored(c, scorer);
    ScoredWidth(Tag(c), scorer);
    var table := SdgTable(rows);
    forall i | 0 <= i < |table|
      ensures DefaultConfidence <= table[i][0] <= 1.0
    {
      assert table[i] == scorer(c.rows[i].text);
    }
    FirstColumnDominates(table);
  }

  /** A score table whose first column lies in [confidence, 1] aggregates to goal 1 with score 1. */
  lemma FirstColumnDominates(table: seq<seq<real>>)
    requires |table| >= 1 && forall i :: 0 <= i < |table| ==> |table[i]| == NumGoals
    requires forall i :: 0 <= i < |table| ==> DefaultConfidence <= table[i][0] <= 1.0
    ensures var a := AggregatedScore(Smoothen(table, SmoothingWindow), DefaultConfidence);
      a.numValidChunks >= 1 && a.scores[0] == Some(1.0) && a.topIndex == 0
  {
    var m := Smoothen(table, SmoothingWindow);
    ColumnKeepsBounds(table, SmoothingWindow, 0, DefaultConfidence, 1.0);
    DefinedRows(table, SmoothingWindow);
    forall i | 0 <= i < |m| && IsDefinedRow(m[i])
      ensures Hit(m[i][0], DefaultConfidence)
    {
      var k :| 0 <= k < |m[i]| && m[i][k].Some?;
      assert m[i][0].Some?;
    }
    assert IsDefinedRow(m[|m| - 1]) by {
      assert m[|m| - 1][0].Some?;
    }
    DominantGoal(m, 0, DefaultConfidence, |m| - 1);
  }
}
