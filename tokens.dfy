/**
 * `process_data`: a token-id sequence padded or truncated for the model,
 * with its attention mask and segment ids. The tokenizer is not part of
 * this model; its output is the input here.
 */
module Tokens {

  /** The literal the truncating branch cuts to, whatever `max_len` is. */
  const TruncationLength: nat := 512

  /** The three lists returned: `ids`, `mask` and `token_type_ids`. */
  datatype Encoding = Encoding(ids: seq<int>, mask: seq<int>, tokenTypeIds: seq<int>)

  /** Python's `[x] * n`. */
  function Repeat(x: int, n: int): (r: seq<int>)
    ensures |r| == if n > 0 then n else 0
    ensures forall k :: 0 <= k < |r| ==> r[k] == x
  {
    if n <= 0 then [] else seq(n, _ => x)
  }

  /** Python's `s[:n]` for `n >= 0`. */
  function Take(s: seq<int>, n: nat): seq<int> {
    if |s| <= n then s else s[..n]
  }

  function Min(a: int, b: int): int { if a <= b then a else b }

  /**
   * All three lists have one length: `max_len` when the input fits in it,
   * otherwise `min(len, 512)`. The ids start with the input ids and are
   * 0 after them; mask and segment ids are equal, 1 on real tokens and 0
   * on padding.
   */
  function ProcessData(inputIds: seq<int>, maxLen: int): (e: Encoding)
    ensures |e.ids| == |e.mask| == |e.tokenTypeIds|
    ensures |e.ids| == if |inputIds| <= maxLen then maxLen else Min(|inputIds|, TruncationLength)
    ensures e.mask == e.tokenTypeIds
    ensures forall k :: 0 <= k < |e.ids| ==> e.ids[k] == if k < |inputIds| then inputIds[k] else 0
    ensures forall k :: 0 <= k < |e.mask| ==> e.mask[k] == if k < |inputIds| then 1 else 0
  {
    var tokenTypeIds := Repeat(1, |inputIds|);
    var mask := Repeat(1, |tokenTypeIds|);
    var paddingLength := maxLen - |inputIds|;
    if paddingLength > 0 then
      Encoding(inputIds + Repeat(0, paddingLength), mask + Repeat(0, paddingLength),
               tokenTypeIds + Repeat(0, paddingLength))
    else if paddingLength < 0 then
      Encoding(Take(inputIds, TruncationLength), Take(mask, TruncationLength),
               Take(tokenTypeIds, TruncationLength))
    else
      Encoding(inputIds, mask, tokenTypeIds)
  }

  /** The input ids are kept as a prefix whenever they fit in 512 or in `max_len`. */
  lemma InputIsPrefix(inputIds: seq<int>, maxLen: int)
    requires |inputIds| <= maxLen || |inputIds| <= TruncationLength
    ensures ProcessData(inputIds, maxLen).ids[..|inputIds|] == inputIds
  {
    var e := ProcessData(inputIds, maxLen);
    assert |e.ids| >= |inputIds|;
    assert forall k :: 0 <= k < |inputIds| ==> e.ids[..|inputIds|][k] == inputIds[k];
  }
}
