/** Hierarchical summarisation: up to three chunks that fit the content
    budget are summarised together; otherwise the chunks are summarised
    three at a time and the group summaries are summarised again.  The
    chat model and the tokenizer are parameters; the progress callback is
    modelled as the list of values it receives. */
module RagSummary {
  import opened PyStr
  import opened RagTruncate
  import opened Slicing
  import opened Progress

  const NoContent: string := "No content to summarize."
  const GroupPrompt: string :=
    "Summarize the following newspaper content, focusing on key economic and business news:"
  const GroupSize: nat := 3
  const Paragraph: string := "\n\n"

  /** chunks[i:i + 3] for i in range(0, len(chunks), 3). */
  function Groups(chunks: seq<string>): (gs: seq<seq<string>>)
    ensures |chunks| <= GroupSize * |gs|
    ensures gs != [] ==> GroupSize * (|gs| - 1) < |chunks|
  {
    Slices(chunks, GroupSize)
  }

  // ---------------------------------------------------------------- progress

  /** int(50 + (g + 1) / total_groups * 40), in exact arithmetic. */
  function GroupProgress(g: nat, total: nat): int
    requires total > 0
  {
    50 + (g + 1) * 40 / total
  }

  /** Group progress stays within 50..90, never goes back, and reaches 90
      with the last group. */
  lemma GroupProgressBounds(g: nat, h: nat, total: nat)
    requires g <= h < total
    ensures 50 <= GroupProgress(g, total) <= GroupProgress(h, total) <= 90
    ensures h == total - 1 ==> GroupProgress(h, total) == 90
  {
    DivMonotone((g + 1) * 40, (h + 1) * 40, total);
    DivBounds((h + 1) * 40, total, 40);
    if h == total - 1 {
      DivBounds(total * 40, total, 40);
    }
  }

  /** The values reported while the groups are summarised. */
  function GroupProgressList(total: nat): (r: seq<int>)
    requires total > 0
    ensures |r| == total
  {
    seq(total, g requires 0 <= g < total => GroupProgress(g, total))
  }

  // ---------------------------------------------------------------- summary

  /** Up to three chunks whose joined text fits the budget are summarised
      in one call. */
  predicate Shortcut(chunks: seq<string>, count: string -> nat, maxContent: int) {
    |chunks| <= GroupSize && count(JoinWith(Paragraph, chunks)) <= maxContent
  }

  /** The summary of each group: its chunks joined by blank lines, cut to
      the budget, summarised with the group prompt (GroupPrompt in
      HierarchicalSummary). */
  function GroupSummaries(groups: seq<seq<string>>, count: string -> nat, maxContent: int,
                          summarize: (string, string) -> string, groupPrompt: string): (r: seq<string>)
    ensures |r| == |groups|
  {
    seq(|groups|, g requires 0 <= g < |groups| =>
      summarize(Truncated(JoinWith(Paragraph, groups[g]), maxContent, count), groupPrompt))
  }

  /** What generate_summary_hierarchical returns. */
  function HierarchicalSummary(chunks: seq<string>, systemPrompt: string, count: string -> nat,
                               maxContent: int, summarize: (string, string) -> string): string
  {
    if chunks == [] then NoContent
    else if Shortcut(chunks, count, maxContent) then summarize(JoinWith(Paragraph, chunks), systemPrompt)
    else
      var summaries := GroupSummaries(Groups(chunks), count, maxContent, summarize, GroupPrompt);
      summarize(Truncated(JoinWith(Paragraph, summaries), maxContent, count), systemPrompt)
  }

  /** The progress values generate_summary_hierarchical reports. */
  function HierarchicalProgress(chunks: seq<string>, count: string -> nat, maxContent: int): seq<int> {
    if chunks == [] then []
    else if Shortcut(chunks, count, maxContent) then [60]
    else GroupProgressList(|Groups(chunks)|) + [92]
  }

  /** Reported progress never goes back and stays within 50..92. */
  lemma ProgressOrdered(chunks: seq<string>, count: string -> nat, maxContent: int)
    ensures Ordered(HierarchicalProgress(chunks, count, maxContent), 50, 92)
  {
    var p := HierarchicalProgress(chunks, count, maxContent);
    if chunks != [] && !Shortcut(chunks, count, maxContent) {
      var total := |Groups(chunks)|;
      forall i, j | 0 <= i <= j < |p| ensures 50 <= p[i] <= p[j] <= 92 {
        if j < total {
          GroupProgressBounds(i, j, total);
        } else if i < total {
          GroupProgressBounds(i, i, total);
        }
      }
    }
  }

  /** One round of the group loop: group k starts at chunk 3 * k, and
      appending its summary and its progress value, the one for
      (3 * k) // 3, to those of the groups before it gives those of the
      first k + 1 groups. */
  lemma GroupStep(chunks: seq<string>, count: string -> nat, maxContent: int,
                  summarize: (string, string) -> string, groupPrompt: string, k: nat, start: nat,
                  done: seq<string>, reported: seq<int>)
    requires k < |Groups(chunks)| && start == GroupSize * k
    requires done == GroupSummaries(Groups(chunks), count, maxContent, summarize, groupPrompt)[..k]
    requires reported == GroupProgressList(|Groups(chunks)|)[..k]
    ensures start < |chunks|
    ensures start + GroupSize < |chunks| <==> k + 1 < |Groups(chunks)|
    ensures done + [summarize(Truncated(JoinWith(Paragraph, chunks[start..Min(start + GroupSize, |chunks|)]),
                                        maxContent, count), groupPrompt)]
      == GroupSummaries(Groups(chunks), count, maxContent, summarize, groupPrompt)[..k + 1]
    ensures reported + [50 + (start / GroupSize + 1) * 40 / |Groups(chunks)|]
      == GroupProgressList(|Groups(chunks)|)[..k + 1]
  {
    SliceAt(chunks, GroupSize, k);
    assert start / GroupSize == k;
    TakeStep(GroupSummaries(Groups(chunks), count, maxContent, summarize, groupPrompt), k);
    TakeStep(GroupProgressList(|Groups(chunks)|), k);
  }

  /** The first pass of generate_summary_hierarchical: each group of three
      chunks is joined, cut to the budget and summarised with the group
      prompt (passed in by SummarizeHierarchical), and progress is reported
      after each group. */
  method SummarizeGroups(chunks: seq<string>, count: string -> nat, maxContent: int,
                         summarize: (string, string) -> string, groupPrompt: string)
    returns (chunkSummaries: seq<string>, progress: seq<int>)
    requires chunks != []
    ensures chunkSummaries == GroupSummaries(Groups(chunks), count, maxContent, summarize, groupPrompt)
    ensures progress == GroupProgressList(|Groups(chunks)|)
  {
    chunkSummaries := [];
    progress := [];
    var groupSize := GroupSize;
    var totalGroups := (|chunks| + groupSize - 1) / groupSize;
    assert totalGroups == |Groups(chunks)|;
    var i := 0;
    ghost var k := 0;
    while i < |chunks|
      invariant i == GroupSize * k && k <= totalGroups
      invariant i < |chunks| <==> k < totalGroups
      invariant chunkSummaries == GroupSummaries(Groups(chunks), count, maxContent, summarize, groupPrompt)[..k]
      invariant progress == GroupProgressList(totalGroups)[..k]
    {
      GroupStep(chunks, count, maxContent, summarize, groupPrompt, k, i, chunkSummaries, progress);
      var group := chunks[i..Min(i + groupSize, |chunks|)];
      var groupText := JoinWith(Paragraph, group);
      groupText := TruncateToTokenLimit(groupText, maxContent, count);
      var groupSummary := summarize(groupText, groupPrompt);
      chunkSummaries := chunkSummaries + [groupSummary];
      var pct := 50 + (i / groupSize + 1) * 40 / totalGroups;
      progress := progress + [pct];
      i := i + groupSize;
      k := k + 1;
    }
  }

  /** generate_summary_hierarchical.  No chunks give the fixed message; up
      to three chunks that fit are summarised at once; otherwise every group
      of three is cut to the budget and summarised, with progress 50..90,
      and the joined group summaries are cut and summarised once more after
      progress 92. */
  method SummarizeHierarchical(chunks: seq<string>, systemPrompt: string, count: string -> nat,
                               maxContent: int, summarize: (string, string) -> string)
    returns (summary: string, progress: seq<int>)
    ensures summary == HierarchicalSummary(chunks, systemPrompt, count, maxContent, summarize)
    ensures progress == HierarchicalProgress(chunks, count, maxContent)
    ensures chunks == [] ==> summary == NoContent && progress == []
    ensures Ordered(progress, 50, 92)
  {
    ProgressOrdered(chunks, count, maxContent);
    if chunks == [] {
      return NoContent, [];
    }
    if |chunks| <= 3 {
      var combinedText := JoinWith(Paragraph, chunks);
      if count(combinedText) <= maxContent {
        return summarize(combinedText, systemPrompt), [60];
      }
    }
    var chunkSummaries;
    chunkSummaries, progress := SummarizeGroups(chunks, count, maxContent, summarize, GroupPrompt);
    var finalText := JoinWith(Paragraph, chunkSummaries);
    finalText := TruncateToTokenLimit(finalText, maxContent, count);
    progress := progress + [92];
    summary := summarize(finalText, systemPrompt);
  }
}
