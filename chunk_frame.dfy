/** `process_text`: the chunk table of one document. */
module ChunkFrame {
  import opened Chunker

  /** One row of the table: the columns `text`, `chunk_order` and `error`. */
  datatype ChunkRow = ChunkRow(text: string, chunkOrder: nat, error: bool)

  /** The text that stands in for a document without chunks. */
  const ErrorPlaceholder: string := "ERROR IN READING FILE"

  /**
   * At least one row; `chunk_order` is 0..n-1; one `error` flag for the
   * whole document, set exactly when the chunker found nothing, and then
   * the single row holds the placeholder; otherwise the rows hold the
   * chunks in order.
   */
  function ProcessText(text: string): (rows: seq<ChunkRow>)
    ensures |rows| >= 1
    ensures forall k :: 0 <= k < |rows| ==> rows[k].chunkOrder == k && rows[k].error == rows[0].error
    ensures rows[0].error <==> Chunks(text, DefaultMaxWords, DefaultMinLetters) == []
    ensures rows[0].error ==> rows == [ChunkRow(ErrorPlaceholder, 0, true)]
    ensures !rows[0].error ==>
      var chunks := Chunks(text, DefaultMaxWords, DefaultMinLetters);
      |rows| == |chunks| && forall k :: 0 <= k < |rows| ==> rows[k].text == chunks[k]
  {
    var textList := Chunks(text, DefaultMaxWords, DefaultMinLetters);
    var error := textList == [];
    var texts := if error then [ErrorPlaceholder] else textList;
    seq(|texts|, k requires 0 <= k < |texts| => ChunkRow(texts[k], k, error))
  }

  /** The placeholder is itself a well-formed chunk. */
  lemma PlaceholderIsChunk()
    ensures IsChunk(ErrorPlaceholder)
  {
    var p := ErrorPlaceholder;
    assert forall k :: 0 <= k < |p| ==> IsKept(p[k]) || p[k] == ' ';
  }

  /** Every row's text, the placeholder included, is a well-formed chunk. */
  lemma RowTextsWellFormed(text: string)
    ensures forall k :: 0 <= k < |ProcessText(text)| ==> IsChunk(ProcessText(text)[k].text)
  {
    var rows := ProcessText(text);
    var chunks := Chunks(text, DefaultMaxWords, DefaultMinLetters);
    if rows[0].error {
      PlaceholderIsChunk();
      assert rows == [ChunkRow(ErrorPlaceholder, 0, true)];
    } else {
      ChunksWellFormed(text, DefaultMaxWords, DefaultMinLetters);
      forall k | 0 <= k < |rows| ensures IsChunk(rows[k].text) {
        assert rows[k].text == chunks[k] && chunks[k] in chunks;
      }
    }
  }
}
