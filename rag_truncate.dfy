/** Token counting and truncate_to_token_limit: a text over the token
    budget is cut by binary search to the longest prefix the counter
    accepts, followed by a truncation marker.  The tokenizer is a
    parameter. */
module RagTruncate {

  const Marker: string := "\n\n[Content truncated due to length...]"

  /** count_tokens when the tokenizer raises: four characters per token,
      rounded down. */
  function FallbackCount(text: string): (n: nat)
    ensures 4 * n <= |text| < 4 * n + 4
  {
    |text| / 4
  }

  /** The counter never gives a prefix more tokens than a longer prefix. */
  ghost predicate MonotoneOn(count: string -> nat, text: string) {
    forall i, j :: 0 <= i <= j <= |text| ==> count(text[..i]) <= count(text[..j])
  }

  lemma FallbackCountMonotone(text: string)
    ensures MonotoneOn(FallbackCount, text)
  {
    forall i, j | 0 <= i <= j <= |text|
      ensures FallbackCount(text[..i]) <= FallbackCount(text[..j])
    {
      assert |text[..i]| == i && |text[..j]| == j;
    }
  }

  /** The binary search of truncate_to_token_limit, one probe per call:
      the midpoint rounds up, a fitting prefix moves start up to it, a
      prefix over budget moves end below it. */
  function Search(text: string, maxTokens: int, count: string -> nat, start: nat, end: nat): (k: nat)
    requires start <= end <= |text|
    ensures start <= k <= end
    decreases end - start
  {
    if start < end then
      var mid := (start + end + 1) / 2;
      if count(text[..mid]) <= maxTokens then Search(text, maxTokens, count, mid, end)
      else Search(text, maxTokens, count, start, mid - 1)
    else start
  }

  /** What truncate_to_token_limit returns. */
  function Truncated(text: string, maxTokens: int, count: string -> nat): string {
    if count(text) <= maxTokens then text
    else text[..Search(text, maxTokens, count, 0, |text|)] + Marker
  }

  /** Prefix length k fits (or is 0) and the next longer prefix does not. */
  predicate Boundary(text: string, maxTokens: int, count: string -> nat, k: nat) {
    && k <= |text|
    && (k == 0 || count(text[..k]) <= maxTokens)
    && (k < |text| ==> count(text[..k + 1]) > maxTokens)
  }

  /** One probe of the search: the bounds it moves to. */
  function Probe(text: string, maxTokens: int, count: string -> nat, start: nat, end: nat): (bounds: (nat, nat))
    requires start < end <= |text|
    ensures start <= bounds.0 <= bounds.1 <= end && bounds.1 - bounds.0 < end - start
    ensures Search(text, maxTokens, count, start, end) == Search(text, maxTokens, count, bounds.0, bounds.1)
    ensures bounds.0 == start || count(text[..bounds.0]) <= maxTokens
    ensures bounds.1 == end || count(text[..bounds.1 + 1]) > maxTokens
  {
    var mid := (start + end + 1) / 2;
    if count(text[..mid]) <= maxTokens then (mid, end) else (start, mid - 1)
  }

  /** The search keeps its two bounds: start is 0 or a fitting length, and
      the length one past end does not fit.  It ends on a length that fits
      (or 0) whose successor does not. */
  lemma {:induction false} SearchFinds(text: string, maxTokens: int, count: string -> nat, start: nat, end: nat)
    requires start <= end <= |text|
    requires start == 0 || count(text[..start]) <= maxTokens
    requires end < |text| ==> count(text[..end + 1]) > maxTokens
    ensures Boundary(text, maxTokens, count, Search(text, maxTokens, count, start, end))
    decreases end - start
  {
    if start == end {
      assert Search(text, maxTokens, count, start, end) == start;
    } else {
      var bounds := Probe(text, maxTokens, count, start, end);
      SearchFinds(text, maxTokens, count, bounds.0, bounds.1);
    }
  }

  /** A fitting prefix length whose successor does not fit is, for a
      monotone counter, the longest prefix length that fits. */
  lemma LongestFit(text: string, maxTokens: int, count: string -> nat, k: nat)
    requires Boundary(text, maxTokens, count, k) && MonotoneOn(count, text)
    ensures forall j :: k < j <= |text| ==> count(text[..j]) > maxTokens
  {
    forall j | k < j <= |text| ensures count(text[..j]) > maxTokens {
      assert count(text[..k + 1]) <= count(text[..j]);
    }
  }

  /** What truncate_to_token_limit promises.  A text within budget is
      returned as it is.  Otherwise the result is a prefix followed by the
      marker; that prefix fits (or is empty), the next longer one does not,
      and for a monotone counter it is the longest that fits. */
  lemma TruncatedMeaning(text: string, maxTokens: int, count: string -> nat)
    ensures count(text) <= maxTokens ==> Truncated(text, maxTokens, count) == text
    ensures count(text) > maxTokens ==> exists k: nat ::
      && Boundary(text, maxTokens, count, k)
      && Truncated(text, maxTokens, count) == text[..k] + Marker
      && (MonotoneOn(count, text) ==> forall j :: k < j <= |text| ==> count(text[..j]) > maxTokens)
  {
    if count(text) > maxTokens {
      var k := Search(text, maxTokens, count, 0, |text|);
      SearchFinds(text, maxTokens, count, 0, |text|);
      if MonotoneOn(count, text) {
        LongestFit(text, maxTokens, count, k);
      }
      assert Truncated(text, maxTokens, count) == text[..k] + Marker;
    }
  }

  /** truncate_to_token_limit: the binary search over prefix lengths. */
  method TruncateToTokenLimit(text: string, maxTokens: int, count: string -> nat) returns (r: string)
    ensures r == Truncated(text, maxTokens, count)
  {
    var currentTokens := count(text);
    if currentTokens <= maxTokens {
      return text;
    }
    var start: nat, end: nat := 0, |text|;
    while start < end
      invariant start <= end <= |text|
      invariant Search(text, maxTokens, count, start, end) == Search(text, maxTokens, count, 0, |text|)
      decreases end - start
    {
      var mid := (start + end + 1) / 2;
      var testText := text[..mid];
      if count(testText) <= maxTokens {
        start := mid;
      } else {
        end := mid - 1;
      }
    }
    r := text[..start] + Marker;
    assert Search(text, maxTokens, count, start, end) == start;
  }
}
