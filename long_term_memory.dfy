/** The `recall` tool of the long-term-memory experiment: it searches the
    memory service and turns the entries found into a list of text snippets. */
module LongTermMemory {
  import opened Wrappers

  /** A part of a genai content. Parts that are not text carry an empty text. */
  datatype Part = Part(text: string)

  datatype Content = Content(parts: seq<Part>)

  /** An entry of a memory search response; `content` is None for a nil Content. */
  datatype MemoryEntry = MemoryEntry(content: Option<Content>)

  /** What the memory search answers: the entries found, or the error it
      reported (as `%v` prints it). */
  datatype SearchResponse = Found(memories: seq<MemoryEntry>) | SearchFailed(err: string)

  datatype RecallArgs = RecallArgs(query: string)

  datatype RecallResult = RecallResult(memories: seq<string>)

  const ErrorPrefix: string := "Error searching memory: "
  const NoMemoriesFound: string := "No relevant memories found."

  /** The in-order concatenation of the texts of `parts`; defined from the
      right, the way `text += p.Text` builds it. */
  function JoinParts(parts: seq<Part>): string
  {
    if parts == [] then "" else JoinParts(parts[..|parts| - 1]) + parts[|parts| - 1].text
  }

  /** An entry the filter drops: no content, or content whose texts are all empty. */
  predicate Dropped(e: MemoryEntry)
  {
    e.content.None? || JoinParts(e.content.value.parts) == ""
  }

  /** What one entry contributes to the recalled list. */
  function Survivor(e: MemoryEntry): seq<string>
  {
    if Dropped(e) then [] else [JoinParts(e.content.value.parts)]
  }

  /** The texts that survive filtering, in response order. */
  function Kept(entries: seq<MemoryEntry>): (r: seq<string>)
    ensures |r| <= |entries|
    ensures forall k :: 0 <= k < |r| ==> r[k] != ""
  {
    if entries == [] then [] else Kept(entries[..|entries| - 1]) + Survivor(entries[|entries| - 1])
  }

  /** The list `recall` returns for a given search answer. */
  function Recalled(resp: SearchResponse): (r: seq<string>)
    ensures |r| >= 1
    ensures resp.SearchFailed? ==> |r| == 1 && ErrorPrefix <= r[0]
  {
    match resp
    case SearchFailed(err) => [ErrorPrefix + err]
    case Found(entries) =>
      var kept := Kept(entries);
      if kept == [] then [NoMemoriesFound] else kept
  }

  /** The tool handler. The memory search is an oracle from query to answer. */
  method Recall(args: RecallArgs, search: string -> SearchResponse) returns (result: RecallResult)
    ensures result.memories == Recalled(search(args.query))
  {
    var resp := search(args.query);
    if resp.SearchFailed? {
      return RecallResult([ErrorPrefix + resp.err]);
    }
    var entries := resp.memories;
    var memories: seq<string> := [];
    var i := 0;
    while i < |entries|
      invariant 0 <= i <= |entries|
      invariant memories == Kept(entries[..i])
    {
      var m := entries[i];
      assert entries[..i + 1][..i] == entries[..i];
      if m.content.Some? {
        var parts := m.content.value.parts;
        var text := "";
        var j := 0;
        while j < |parts|
          invariant 0 <= j <= |parts|
          invariant text == JoinParts(parts[..j])
        {
          assert parts[..j + 1][..j] == parts[..j];
          text := text + parts[j].text;
          j := j + 1;
        }
        assert parts[..j] == parts;
        if text != "" {
          memories := memories + [text];
        }
      }
      i := i + 1;
    }
    assert entries[..i] == entries;
    if |memories| == 0 {
      return RecallResult([NoMemoriesFound]);
    }
    return RecallResult(memories);
  }

  /** For a successful search the result is the fallback exactly when no text
      survives, and the surviving texts otherwise. */
  lemma RecalledFound(entries: seq<MemoryEntry>)
    ensures Kept(entries) == [] ==> Recalled(Found(entries)) == [NoMemoriesFound]
    ensures Kept(entries) != [] ==> Recalled(Found(entries)) == Kept(entries)
  {
  }

  lemma {:induction false} JoinPartsAppend(a: seq<Part>, b: seq<Part>)
    ensures JoinParts(a + b) == JoinParts(a) + JoinParts(b)
  {
    if b == [] {
      assert a + b == a;
    } else {
      assert (a + b)[..|a + b| - 1] == a + b[..|b| - 1];
      JoinPartsAppend(a, b[..|b| - 1]);
    }
  }

  /** The concatenated text is empty exactly when every part's text is. */
  lemma {:induction false} JoinPartsEmptyIff(parts: seq<Part>)
    ensures JoinParts(parts) == "" <==> forall k :: 0 <= k < |parts| ==> parts[k].text == ""
  {
    if parts != [] {
      var init := parts[..|parts| - 1];
      JoinPartsEmptyIff(init);
      assert forall k :: 0 <= k < |init| ==> init[k] == parts[k];
    }
  }

  /** An entry is dropped exactly when it has no content or all its part
      texts are empty. */
  lemma DroppedIff(e: MemoryEntry)
    ensures Dropped(e) <==>
      e.content.None? || forall k :: 0 <= k < |e.content.value.parts| ==> e.content.value.parts[k].text == ""
  {
    if e.content.Some? {
      JoinPartsEmptyIff(e.content.value.parts);
    }
  }

  /** Filtering distributes over concatenation of responses. */
  lemma {:induction false} KeptAppend(a: seq<MemoryEntry>, b: seq<MemoryEntry>)
    ensures Kept(a + b) == Kept(a) + Kept(b)
  {
    if b == [] {
      assert a + b == a;
    } else {
      assert (a + b)[..|a + b| - 1] == a + b[..|b| - 1];
      KeptAppend(a, b[..|b| - 1]);
    }
  }

  lemma KeptSingle(e: MemoryEntry)
    ensures Kept([e]) == Survivor(e)
  {
    assert [e][..0] == [];
  }

  /** An entry with nil content, or with only empty texts, contributes nothing
      wherever it stands in the response. */
  lemma DroppedContributesNothing(before: seq<MemoryEntry>, e: MemoryEntry, after: seq<MemoryEntry>)
    requires Dropped(e)
    ensures Kept(before + [e] + after) == Kept(before + after)
  {
    KeptAppend(before + [e], after);
    KeptAppend(before, [e]);
    KeptAppend(before, after);
    KeptSingle(e);
  }

  /** An entry that is not dropped contributes exactly its concatenated text,
      between what the entries before it and after it contribute. */
  lemma SurvivorContributesItsText(before: seq<MemoryEntry>, e: MemoryEntry, after: seq<MemoryEntry>)
    requires !Dropped(e)
    ensures Kept(before + [e] + after) == Kept(before) + [JoinParts(e.content.value.parts)] + Kept(after)
  {
    KeptAppend(before + [e], after);
    KeptAppend(before, [e]);
    KeptSingle(e);
  }

  /** The response positions of the entries that survive filtering. */
  function KeptPositions(entries: seq<MemoryEntry>): seq<nat>
  {
    if entries == [] then []
    else KeptPositions(entries[..|entries| - 1])
         + (if Dropped(entries[|entries| - 1]) then [] else [|entries| - 1])
  }

  /** The recalled texts are, in order, those of the surviving entries and
      of no others: the k-th kept text comes from a strictly later entry than
      the (k-1)-th, and every entry that is not dropped is represented. */
  lemma {:induction false} KeptPositionsCorrect(entries: seq<MemoryEntry>)
    ensures |KeptPositions(entries)| == |Kept(entries)|
    ensures forall k :: 0 <= k < |KeptPositions(entries)| ==>
      KeptPositions(entries)[k] < |entries| && !Dropped(entries[KeptPositions(entries)[k]]) &&
      Kept(entries)[k] == JoinParts(entries[KeptPositions(entries)[k]].content.value.parts)
    ensures forall k, l :: 0 <= k < l < |KeptPositions(entries)| ==>
      KeptPositions(entries)[k] < KeptPositions(entries)[l]
    ensures forall j :: 0 <= j < |entries| && !Dropped(entries[j]) ==> j in KeptPositions(entries)
  {
    if entries != [] {
      var n := |entries| - 1;
      var init := entries[..n];
      KeptPositionsCorrect(init);
      assert forall j :: 0 <= j < n ==> init[j] == entries[j];
    }
  }
}
