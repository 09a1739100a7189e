/**
 * The web service's model input: `SDGDataset` and the `process_data` it
 * calls. The service's `process_data` is the same as the batch one, so
 * both are `Tokens.ProcessData`; the lemmas here state what the service
 * relies on.
 */
module Dataset {
  import opened Tokens

  /** `SDGconfig.MAX_LEN`. */
  const MaxLen: int := 512

  /** An input of exactly `max_len` ids is returned unchanged, all of it real tokens. */
  lemma ExactLengthUnchanged(inputIds: seq<int>, maxLen: int)
    requires |inputIds| == maxLen
    ensures ProcessData(inputIds, maxLen).ids == inputIds
    ensures ProcessData(inputIds, maxLen).mask == Repeat(1, maxLen)
  {
    var e := ProcessData(inputIds, maxLen);
    assert forall k :: 0 <= k < |e.ids| ==> e.ids[k] == inputIds[k];
  }

  /**
   * The truncating branch cuts to the literal 512, not to `max_len`: an
   * input longer than `max_len` but not longer than 512 is neither padded
   * nor cut.
   */
  lemma TruncationIgnoresMaxLen(inputIds: seq<int>, maxLen: int)
    requires maxLen < |inputIds| <= TruncationLength
    ensures ProcessData(inputIds, maxLen).ids == inputIds
    ensures |ProcessData(inputIds, maxLen).mask| == |inputIds| > maxLen
  {
    var e := ProcessData(inputIds, maxLen);
    assert forall k :: 0 <= k < |e.ids| ==> e.ids[k] == inputIds[k];
  }

  /** With `max_len` 512 every item has exactly 512 ids, mask bits and segment ids. */
  lemma ServiceWidthIsFixed(inputIds: seq<int>)
    ensures var e := ProcessData(inputIds, MaxLen);
      |e.ids| == |e.mask| == |e.tokenTypeIds| == 512
  {
  }

  /** `SDGDataset(abstract)`: the abstracts and the tokenizer as a function from text to ids. */
  datatype SdgDataset = SdgDataset(abstracts: seq<string>, encode: string -> seq<int>) {

    /** `__len__`. */
    function Len(): nat {
      |abstracts|
    }

    /** `__getitem__`: Python indexing, so a negative index counts from the end. */
    function GetItem(item: int): (e: Encoding)
      requires -|abstracts| <= item < |abstracts|
      ensures |e.ids| == |e.mask| == |e.tokenTypeIds| == 512
    {
      var k := if item < 0 then item + |abstracts| else item;
      ServiceWidthIsFixed(encode(abstracts[k]));
      ProcessData(encode(abstracts[k]), MaxLen)
    }
  }

  /** The dataset has one item per abstract and item `k` is built from abstract `k`. */
  lemma ItemsFollowAbstracts(d: SdgDataset)
    ensures d.Len() == |d.abstracts|
    ensures forall k :: 0 <= k < d.Len() ==>
      d.GetItem(k) == ProcessData(d.encode(d.abstracts[k]), MaxLen) &&
      d.GetItem(k - d.Len()) == d.GetItem(k)
  {
  }
}
