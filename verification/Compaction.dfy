/**
 Compaction rewrites a conversation as protected head, summary and protected tail, and then
 repairs the tool calls whose other half went away with the summarised middle.
 */
module Compaction {
  import opened Wrappers

  datatype Block =
    | Text(text: string)
    | ToolUse(id: string)
    | ToolResult(toolUseId: string, content: string)
    | OtherBlock(payload: string)

  datatype Role = User | Assistant

  datatype Message = Message(role: Role, content: seq<Block>, contextSummary: bool)

  const SYNTHETIC_CONTENT := "[result included in context summary]"

  function SyntheticResult(id: string): Message {
    Message(User, [ToolResult(id, SYNTHETIC_CONTENT)], false)
  }

  function ContextSummary(summary: string): Message {
    Message(User, [Text("[Context Summary]\n\n" + summary)], true)
  }

  // ------------------------------------------------------------------------
  // Uses and results of a call
  // ------------------------------------------------------------------------

  function UsesIn(blocks: seq<Block>, id: string): nat {
    if blocks == [] then 0 else UsesIn(blocks[1..], id) + if blocks[0] == ToolUse(id) then 1 else 0
  }

  function ResultsIn(blocks: seq<Block>, id: string): nat {
    if blocks == [] then 0
    else ResultsIn(blocks[1..], id) + if blocks[0].ToolResult? && blocks[0].toolUseId == id then 1 else 0
  }

  function Uses(messages: seq<Message>, id: string): nat {
    if messages == [] then 0 else UsesIn(messages[0].content, id) + Uses(messages[1..], id)
  }

  function Results(messages: seq<Message>, id: string): nat {
    if messages == [] then 0 else ResultsIn(messages[0].content, id) + Results(messages[1..], id)
  }

  /** No message after, or equal to, one with a result of the call uses the call. */
  ghost predicate ResultsAfterUses(messages: seq<Message>, id: string) {
    messages == [] ||
    (&& (ResultsIn(messages[0].content, id) > 0 ==> Uses(messages, id) == 0)
     && ResultsAfterUses(messages[1..], id))
  }

  /** Every use has exactly one result, which comes in a later message, and every result has its use. */
  ghost predicate Paired(messages: seq<Message>) {
    forall id :: PairedCall(messages, id)
  }

  ghost predicate PairedCall(messages: seq<Message>, id: string) {
    Uses(messages, id) == Results(messages, id) <= 1 && ResultsAfterUses(messages, id)
  }

  lemma {:induction false} CountsOfConcatenation(a: seq<Message>, b: seq<Message>, id: string)
    ensures Uses(a + b, id) == Uses(a, id) + Uses(b, id)
    ensures Results(a + b, id) == Results(a, id) + Results(b, id)
    decreases |a|
  {
    if a == [] {
      assert a + b == b;
    } else {
      assert (a + b)[1..] == a[1..] + b;
      CountsOfConcatenation(a[1..], b, id);
    }
  }

  lemma {:induction false} OrderOfConcatenation(a: seq<Message>, b: seq<Message>, id: string)
    ensures ResultsAfterUses(a + b, id) <==>
            && ResultsAfterUses(a, id) && ResultsAfterUses(b, id)
            && (Results(a, id) > 0 ==> Uses(b, id) == 0)
    decreases |a|
  {
    if a == [] {
      assert a + b == b;
    } else {
      assert (a + b)[1..] == a[1..] + b;
      OrderOfConcatenation(a[1..], b, id);
      CountsOfConcatenation(a, b, id);
    }
  }

  lemma {:induction false} CountAtPosition(messages: seq<Message>, p: nat, id: string)
    requires p < |messages|
    ensures UsesIn(messages[p].content, id) <= Uses(messages, id)
    ensures ResultsIn(messages[p].content, id) <= Results(messages, id)
    decreases p
  {
    if p > 0 {
      CountAtPosition(messages[1..], p - 1, id);
    }
  }

  lemma {:induction false} PositionOfResult(messages: seq<Message>, id: string) returns (q: nat)
    requires Results(messages, id) > 0
    ensures q < |messages| && ResultsIn(messages[q].content, id) > 0
    decreases |messages|
  {
    if ResultsIn(messages[0].content, id) > 0 {
      q := 0;
    } else {
      q := PositionOfResult(messages[1..], id);
      q := q + 1;
    }
  }

  /** Pairing in terms of positions: one later message answers each use, and no other message does. */
  lemma PairedMeansAnsweredLater(messages: seq<Message>, p: nat, id: string)
    requires Paired(messages) && p < |messages| && UsesIn(messages[p].content, id) > 0
    ensures exists q :: p < q < |messages| && ResultsIn(messages[q].content, id) == 1
    ensures forall q | 0 <= q < |messages| && ResultsIn(messages[q].content, id) > 0 :: q > p
  {
    CountAtPosition(messages, p, id);
    assert PairedCall(messages, id);
    var q := PositionOfResult(messages, id);
    CountAtPosition(messages, q, id);
    forall x | 0 <= x < |messages| && ResultsIn(messages[x].content, id) > 0
      ensures x > p
    {
      UseBeforeResult(messages, p, x, id);
    }
    assert ResultsIn(messages[q].content, id) == 1;
  }

  lemma {:induction false} UseBeforeResult(messages: seq<Message>, p: nat, q: nat, id: string)
    requires p < |messages| && q < |messages|
    requires ResultsAfterUses(messages, id)
    requires UsesIn(messages[p].content, id) > 0 && ResultsIn(messages[q].content, id) > 0
    ensures p < q
    decreases q
  {
    CountAtPosition(messages, p, id);
    if q > 0 && p > 0 {
      UseBeforeResult(messages[1..], p - 1, q - 1, id);
    }
  }

  // ------------------------------------------------------------------------
  // The repair, as a function of where the synthetic results go
  // ------------------------------------------------------------------------

  ghost predicate OrphanedUse(messages: seq<Message>, id: string) {
    Uses(messages, id) > 0 && Results(messages, id) == 0
  }

  ghost predicate OrphanedResult(messages: seq<Message>, id: string) {
    Results(messages, id) > 0 && Uses(messages, id) == 0
  }

  /** A message of nothing but orphaned results; an empty message is one too. */
  ghost predicate Dropped(messages: seq<Message>, m: Message) {
    forall k | 0 <= k < |m.content| :: m.content[k].ToolResult? && OrphanedResult(messages, m.content[k].toolUseId)
  }

  /** Position `p` holds the last use of the call. */
  ghost predicate LastUseAt(messages: seq<Message>, p: nat, id: string) {
    && p < |messages|
    && UsesIn(messages[p].content, id) > 0
    && Uses(messages[p + 1..], id) == 0
  }

  /** For every message the orphaned uses whose last use it holds, each once, in some order. */
  ghost predicate OrphanGroups(messages: seq<Message>, groups: seq<seq<string>>) {
    && |groups| == |messages|
    && (forall p, id | 0 <= p < |groups| ::
          id in groups[p] <==> OrphanedUse(messages, id) && LastUseAt(messages, p, id))
    && (forall p, i, j | 0 <= p < |groups| && 0 <= i < j < |groups[p]| :: groups[p][i] != groups[p][j])
  }

  function Synthetic(ids: seq<string>): seq<Message> {
    if ids == [] then [] else [SyntheticResult(ids[0])] + Synthetic(ids[1..])
  }

  ghost function Keep(messages: seq<Message>, m: Message): seq<Message> {
    if Dropped(messages, m) then [] else [m]
  }

  /** The repaired conversation from position `p` on. */
  ghost function Repaired(messages: seq<Message>, groups: seq<seq<string>>, p: nat): seq<Message>
    requires |groups| == |messages| && p <= |messages|
    decreases |messages| - p
  {
    if p == |messages| then []
    else Keep(messages, messages[p]) + Synthetic(groups[p]) + Repaired(messages, groups, p + 1)
  }

  /** Without the synthetic results the repair only drops messages that were orphaned through and through. */
  ghost function KeptMessages(messages: seq<Message>, p: nat): seq<Message>
    requires p <= |messages|
    decreases |messages| - p
  {
    if p == |messages| then [] else Keep(messages, messages[p]) + KeptMessages(messages, p + 1)
  }

  lemma {:induction false} RepairedWithoutGroups(messages: seq<Message>, groups: seq<seq<string>>, p: nat)
    requires |groups| == |messages| && p <= |messages|
    requires forall q | p <= q < |groups| :: groups[q] == []
    ensures Repaired(messages, groups, p) == KeptMessages(messages, p)
    decreases |messages| - p
  {
    hide Keep, Synthetic;
    if p < |messages| {
      NothingInserted(groups[p], Keep(messages, messages[p]));
      RepairedWithoutGroups(messages, groups, p + 1);
    }
  }

  lemma NothingInserted(ids: seq<string>, kept: seq<Message>)
    requires ids == []
    ensures kept + Synthetic(ids) == kept
  {
  }

  // ------------------------------------------------------------------------
  // When the repair pairs everything
  // ------------------------------------------------------------------------

  /** Each used call once and answered at most once, later; a result without a use in a message of such results only. */
  ghost predicate RepairableCall(messages: seq<Message>, id: string) {
    if Uses(messages, id) > 0 then
      Uses(messages, id) == 1 && Results(messages, id) <= 1 && ResultsAfterUses(messages, id)
    else
      forall p | 0 <= p < |messages| && ResultsIn(messages[p].content, id) > 0 :: Dropped(messages, messages[p])
  }

  lemma {:induction false} BlockOfCount(blocks: seq<Block>, id: string)
    ensures UsesIn(blocks, id) > 0 <==> exists k :: 0 <= k < |blocks| && blocks[k] == ToolUse(id)
    ensures ResultsIn(blocks, id) > 0 <==>
            exists k :: 0 <= k < |blocks| && blocks[k].ToolResult? && blocks[k].toolUseId == id
    decreases |blocks|
  {
    if blocks != [] {
      BlockOfCount(blocks[1..], id);
      assert forall k | 0 < k < |blocks| :: blocks[k] == blocks[1..][k - 1];
      if UsesIn(blocks[1..], id) > 0 {
        var k :| 0 <= k < |blocks[1..]| && blocks[1..][k] == ToolUse(id);
        assert blocks[k + 1] == ToolUse(id);
      }
      if ResultsIn(blocks[1..], id) > 0 {
        var k :| 0 <= k < |blocks[1..]| && blocks[1..][k].ToolResult? && blocks[1..][k].toolUseId == id;
        assert blocks[k + 1].ToolResult? && blocks[k + 1].toolUseId == id;
      }
    }
  }

  lemma OneBlockCounts(b: Block, id: string)
    ensures UsesIn([b], id) == if b == ToolUse(id) then 1 else 0
    ensures ResultsIn([b], id) == if b.ToolResult? && b.toolUseId == id then 1 else 0
  {
    assert [b][1..] == [];
  }

  lemma SuffixUnfolds(messages: seq<Message>, p: nat, id: string)
    requires p < |messages|
    ensures Uses(messages[p..], id) == UsesIn(messages[p].content, id) + Uses(messages[p + 1..], id)
    ensures Results(messages[p..], id) == ResultsIn(messages[p].content, id) + Results(messages[p + 1..], id)
    ensures ResultsAfterUses(messages[p..], id) <==>
            && (ResultsIn(messages[p].content, id) > 0 ==> Uses(messages[p..], id) == 0)
            && ResultsAfterUses(messages[p + 1..], id)
  {
    assert messages[p..][1..] == messages[p + 1..];
  }

  /** A dropped message uses nothing and answers only orphaned calls. */
  lemma DroppedCounts(messages: seq<Message>, m: Message, id: string)
    requires Dropped(messages, m)
    ensures UsesIn(m.content, id) == 0
    ensures Uses(messages, id) > 0 ==> ResultsIn(m.content, id) == 0
  {
    BlockOfCount(m.content, id);
  }

  lemma KeepCounts(messages: seq<Message>, m: Message, id: string)
    ensures Uses(Keep(messages, m), id) == UsesIn(m.content, id)
    ensures Results(Keep(messages, m), id) == if Dropped(messages, m) then 0 else ResultsIn(m.content, id)
    ensures ResultsAfterUses([m], id) ==> ResultsAfterUses(Keep(messages, m), id)
  {
    if Dropped(messages, m) {
      DroppedCounts(messages, m, id);
    } else {
      assert [m][1..] == [];
    }
  }

  lemma {:induction false} SyntheticCounts(ids: seq<string>, id: string)
    ensures Uses(Synthetic(ids), id) == 0
    ensures Results(Synthetic(ids), id) == multiset(ids)[id]
    ensures ResultsAfterUses(Synthetic(ids), id)
    decreases |ids|
  {
    if ids != [] {
      SyntheticCounts(ids[1..], id);
      assert Synthetic(ids)[1..] == Synthetic(ids[1..]);
      OneBlockCounts(ToolResult(ids[0], SYNTHETIC_CONTENT), id);
      assert ids == [ids[0]] + ids[1..];
    }
  }

  lemma {:induction false} DistinctCount(ids: seq<string>, id: string)
    requires forall i, j | 0 <= i < j < |ids| :: ids[i] != ids[j]
    ensures multiset(ids)[id] == if id in ids then 1 else 0
    decreases |ids|
  {
    if ids != [] {
      DistinctCount(ids[1..], id);
      assert ids == [ids[0]] + ids[1..];
      assert id in ids <==> id == ids[0] || id in ids[1..];
    }
  }

  /** The counts of one piece of the repaired conversation. */
  lemma PieceCounts(messages: seq<Message>, groups: seq<seq<string>>, p: nat, id: string)
    requires OrphanGroups(messages, groups) && p < |messages|
    ensures var piece := Keep(messages, messages[p]) + Synthetic(groups[p]);
            && Uses(piece, id) == UsesIn(messages[p].content, id)
            && Results(piece, id) == (if Dropped(messages, messages[p]) then 0 else ResultsIn(messages[p].content, id))
                                     + (if id in groups[p] then 1 else 0)
            && Repaired(messages, groups, p) == piece + Repaired(messages, groups, p + 1)
            && (ResultsAfterUses(piece, id) <==> ResultsAfterUses(Keep(messages, messages[p]), id))
  {
    KeepCounts(messages, messages[p], id);
    SyntheticCounts(groups[p], id);
    DistinctCount(groups[p], id);
    CountsOfConcatenation(Keep(messages, messages[p]), Synthetic(groups[p]), id);
    OrderOfConcatenation(Keep(messages, messages[p]), Synthetic(groups[p]), id);
  }

  /** A message that uses or answers a used call stays, with a synthetic result exactly after an orphaned last use. */
  lemma PieceOfUsedCall(messages: seq<Message>, groups: seq<seq<string>>, p: nat, id: string)
    requires OrphanGroups(messages, groups) && p < |messages| && Uses(messages, id) > 0
    ensures var m, rest := messages[p], Repaired(messages, groups, p + 1);
            var all := Repaired(messages, groups, p);
            var added: nat := if OrphanedUse(messages, id) && LastUseAt(messages, p, id) then 1 else 0;
            && Uses(all, id) == UsesIn(m.content, id) + Uses(rest, id)
            && Results(all, id) == ResultsIn(m.content, id) + added + Results(rest, id)
            && (ResultsAfterUses(all, id) <==>
                && (ResultsIn(m.content, id) > 0 ==> UsesIn(m.content, id) == 0)
                && ResultsAfterUses(rest, id)
                && (ResultsIn(m.content, id) + added > 0 ==> Uses(rest, id) == 0))
  {
    var m, rest := messages[p], Repaired(messages, groups, p + 1);
    var piece := Keep(messages, m) + Synthetic(groups[p]);
    PieceCounts(messages, groups, p, id);
    CountsOfConcatenation(piece, rest, id);
    OrderOfConcatenation(piece, rest, id);
    assert [m][1..] == [];
    assert Uses([m], id) == UsesIn(m.content, id);
    assert ResultsAfterUses([m], id) <==> (ResultsIn(m.content, id) > 0 ==> UsesIn(m.content, id) == 0);
    if Dropped(messages, m) {
      DroppedCounts(messages, m, id);
    }
  }

  /** A used call keeps its results, and gets one synthetic result exactly if it had none. */
  lemma {:induction false} UsedCallCounts(messages: seq<Message>, groups: seq<seq<string>>, p: nat, id: string)
    requires OrphanGroups(messages, groups) && p <= |messages| && Uses(messages, id) > 0
    ensures var rest := Repaired(messages, groups, p);
            && Uses(rest, id) == Uses(messages[p..], id)
            && Results(rest, id) == Results(messages[p..], id)
                                    + (if OrphanedUse(messages, id) && Uses(messages[p..], id) > 0 then 1 else 0)
    decreases |messages| - p
  {
    if p < |messages| {
      UsedCallCounts(messages, groups, p + 1, id);
      PieceOfUsedCall(messages, groups, p, id);
      SuffixUnfolds(messages, p, id);
    }
  }

  lemma {:induction false} UsedCallOrder(messages: seq<Message>, groups: seq<seq<string>>, p: nat, id: string)
    requires OrphanGroups(messages, groups) && p <= |messages| && Uses(messages, id) > 0
    ensures ResultsAfterUses(Repaired(messages, groups, p), id) <==> ResultsAfterUses(messages[p..], id)
    decreases |messages| - p
  {
    if p < |messages| {
      UsedCallOrder(messages, groups, p + 1, id);
      UsedCallCounts(messages, groups, p + 1, id);
      PieceOfUsedCall(messages, groups, p, id);
      SuffixUnfolds(messages, p, id);
      CountAtSuffix(messages, p, id);
    }
  }

  lemma CountAtSuffix(messages: seq<Message>, p: nat, id: string)
    requires p <= |messages|
    ensures Results(messages[p..], id) <= Results(messages, id)
    ensures Uses(messages[p..], id) <= Uses(messages, id)
  {
    assert messages == messages[..p] + messages[p..];
    CountsOfConcatenation(messages[..p], messages[p..], id);
  }

  ghost function KeptResults(messages: seq<Message>, p: nat, id: string): nat
    requires p <= |messages|
    decreases |messages| - p
  {
    if p == |messages| then 0
    else (if Dropped(messages, messages[p]) then 0 else ResultsIn(messages[p].content, id))
         + KeptResults(messages, p + 1, id)
  }

  lemma {:induction false} NoKeptResult(messages: seq<Message>, p: nat, id: string)
    requires p <= |messages|
    ensures KeptResults(messages, p, id) == 0 <==>
            forall q | p <= q < |messages| && ResultsIn(messages[q].content, id) > 0 :: Dropped(messages, messages[q])
    decreases |messages| - p
  {
    if p < |messages| {
      NoKeptResult(messages, p + 1, id);
    }
  }

  /** A call that is not used keeps exactly the results in messages that stay. */
  lemma {:induction false} UnusedCallCounts(messages: seq<Message>, groups: seq<seq<string>>, p: nat, id: string)
    requires OrphanGroups(messages, groups) && p <= |messages| && Uses(messages, id) == 0
    ensures Uses(Repaired(messages, groups, p), id) == 0
    ensures Results(Repaired(messages, groups, p), id) == KeptResults(messages, p, id)
    decreases |messages| - p
  {
    assert |groups| == |messages|;
    hide OrphanGroups, Dropped, UsesIn, ResultsIn, Keep, Synthetic;
    if p == |messages| {
      assert Repaired(messages, groups, p) == [];
    } else {
      hide Uses, Results, Repaired;
      UnusedCallCounts(messages, groups, p + 1, id);
      PieceCounts(messages, groups, p, id);
      var piece := Keep(messages, messages[p]) + Synthetic(groups[p]);
      CountsOfConcatenation(piece, Repaired(messages, groups, p + 1), id);
      CountAtPosition(messages, p, id);
      GroupOfUnused(messages, groups, p, id);
    }
  }

  lemma GroupOfUnused(messages: seq<Message>, groups: seq<seq<string>>, p: nat, id: string)
    requires OrphanGroups(messages, groups) && p < |messages| && Uses(messages, id) == 0
    ensures id !in groups[p]
  {
    assert !OrphanedUse(messages, id);
  }

  lemma {:induction false} NoUseNoOrder(messages: seq<Message>, id: string)
    ensures Uses(messages, id) == 0 ==> ResultsAfterUses(messages, id)
    decreases |messages|
  {
    if messages != [] {
      NoUseNoOrder(messages[1..], id);
    }
  }

  /** The repair pairs every use with one later result exactly when every call is repairable. */
  lemma RepairPairsExactly(messages: seq<Message>, groups: seq<seq<string>>)
    requires OrphanGroups(messages, groups)
    ensures Paired(Repaired(messages, groups, 0)) <==> forall id :: RepairableCall(messages, id)
  {
    forall id
      ensures PairedCall(Repaired(messages, groups, 0), id) <==> RepairableCall(messages, id)
    {
      assert messages[0..] == messages;
      if Uses(messages, id) > 0 {
        UsedCallCounts(messages, groups, 0, id);
        UsedCallOrder(messages, groups, 0, id);
      } else {
        UnusedCallCounts(messages, groups, 0, id);
        NoKeptResult(messages, 0, id);
        NoUseNoOrder(Repaired(messages, groups, 0), id);
      }
    }
  }

  // ------------------------------------------------------------------------
  // Reassembly
  // ------------------------------------------------------------------------

  function WithoutSummaries(messages: seq<Message>): seq<Message> {
    if messages == [] then []
    else (if messages[0].contextSummary then [] else [messages[0]]) + WithoutSummaries(messages[1..])
  }

  function Reassembled(history: seq<Message>, headEnd: nat, tailStart: nat, summary: string): seq<Message>
    requires headEnd <= tailStart <= |history|
  {
    WithoutSummaries(history[..headEnd]) + [ContextSummary(summary)] + history[tailStart..]
  }

  /** An agent's own history: ids used once, each answered at most once, later, in a message of its own. */
  ghost predicate WellFormedHistory(history: seq<Message>) {
    && (forall id ::
          && Uses(history, id) <= 1 && Results(history, id) <= Uses(history, id)
          && ResultsAfterUses(history, id))
    && (forall m | m in history :: SingleResult(m))
  }

  ghost predicate SingleResult(m: Message) {
    (exists k :: 0 <= k < |m.content| && m.content[k].ToolResult?) ==> |m.content| == 1
  }

  lemma {:induction false} WithoutSummariesShrinks(messages: seq<Message>, id: string)
    ensures Uses(WithoutSummaries(messages), id) <= Uses(messages, id)
    ensures Results(WithoutSummaries(messages), id) <= Results(messages, id)
    ensures ResultsAfterUses(messages, id) ==> ResultsAfterUses(WithoutSummaries(messages), id)
    ensures forall m | m in WithoutSummaries(messages) :: m in messages && !m.contextSummary
    decreases |messages|
  {
    if messages != [] {
      var m, rest := messages[0], messages[1..];
      WithoutSummariesShrinks(rest, id);
      var first: seq<Message> := if m.contextSummary then [] else [m];
      assert [m][1..] == [];
      CountsOfConcatenation(first, WithoutSummaries(rest), id);
      OrderOfConcatenation(first, WithoutSummaries(rest), id);
    }
  }

  /** After reassembly every call is repairable. */
  lemma ReassembledIsRepairable(history: seq<Message>, headEnd: nat, tailStart: nat, summary: string, id: string)
    requires headEnd <= tailStart <= |history| && WellFormedHistory(history)
    ensures RepairableCall(Reassembled(history, headEnd, tailStart, summary), id)
  {
    var messages := Reassembled(history, headEnd, tailStart, summary);
    ReassembledCounts(history, headEnd, tailStart, summary, id);
    if Uses(messages, id) == 0 {
      forall p | 0 <= p < |messages| && ResultsIn(messages[p].content, id) > 0
        ensures Dropped(messages, messages[p])
      {
        CountAtPosition(messages, p, id);
        BlockOfCount(messages[p].content, id);
        ReassembledMember(history, headEnd, tailStart, summary, p);
      }
    }
  }

  lemma ReassembledMember(history: seq<Message>, headEnd: nat, tailStart: nat, summary: string, p: nat)
    requires headEnd <= tailStart <= |history|
    requires p < |Reassembled(history, headEnd, tailStart, summary)|
    ensures var m := Reassembled(history, headEnd, tailStart, summary)[p];
            m in history || m == ContextSummary(summary)
  {
    var head := WithoutSummaries(history[..headEnd]);
    var m := Reassembled(history, headEnd, tailStart, summary)[p];
    WithoutSummariesShrinks(history[..headEnd], "");
    if p < |head| {
      assert m in head;
    } else if p > |head| {
      assert m == history[tailStart..][p - |head| - 1];
    }
  }

  lemma ReassembledCounts(history: seq<Message>, headEnd: nat, tailStart: nat, summary: string, id: string)
    requires headEnd <= tailStart <= |history|
    ensures var messages := Reassembled(history, headEnd, tailStart, summary);
            && Uses(messages, id) <= Uses(history, id)
            && Results(messages, id) <= Results(history, id)
            && (ResultsAfterUses(history, id) ==> ResultsAfterUses(messages, id))
  {
    var head, middle, tail := history[..headEnd], history[headEnd..tailStart], history[tailStart..];
    assert history == head + (middle + tail);
    CountsOfConcatenation(head, middle + tail, id);
    CountsOfConcatenation(middle, tail, id);
    OrderOfConcatenation(head, middle + tail, id);
    OrderOfConcatenation(middle, tail, id);
    WithoutSummariesShrinks(head, id);
    var head', s := WithoutSummaries(head), [ContextSummary(summary)];
    SummaryCounts(summary, id);
    CountsOfConcatenation(head' + s, tail, id);
    CountsOfConcatenation(head', s, id);
    OrderOfConcatenation(head' + s, tail, id);
    OrderOfConcatenation(head', s, id);
  }

  lemma SummaryCounts(summary: string, id: string)
    ensures Uses([ContextSummary(summary)], id) == 0 && Results([ContextSummary(summary)], id) == 0
    ensures ResultsAfterUses([ContextSummary(summary)], id)
  {
    var m := ContextSummary(summary);
    assert [m][1..] == [];
    OneBlockCounts(m.content[0], id);
  }

  /** Compaction of an agent's own history leaves every tool call paired with one later result. */
  lemma CompactionKeepsPairing(
    history: seq<Message>, headEnd: nat, tailStart: nat, summary: string, groups: seq<seq<string>>)
    requires headEnd <= tailStart <= |history| && WellFormedHistory(history)
    requires OrphanGroups(Reassembled(history, headEnd, tailStart, summary), groups)
    ensures Paired(Repaired(Reassembled(history, headEnd, tailStart, summary), groups, 0))
  {
    forall id {
      ReassembledIsRepairable(history, headEnd, tailStart, summary, id);
    }
    RepairPairsExactly(Reassembled(history, headEnd, tailStart, summary), groups);
  }

  lemma {:induction false} RepairedMembers(messages: seq<Message>, groups: seq<seq<string>>, p: nat)
    requires |groups| == |messages| && p <= |messages|
    requires forall m | m in messages :: SingleResult(m)
    ensures forall m | m in Repaired(messages, groups, p) :: SingleResult(m)
    decreases |messages| - p
  {
    if p < |messages| {
      RepairedMembers(messages, groups, p + 1);
      SyntheticMembers(groups[p]);
    }
  }

  lemma {:induction false} SyntheticMembers(ids: seq<string>)
    ensures forall m | m in Synthetic(ids) :: SingleResult(m)
    decreases |ids|
  {
    if ids != [] {
      SyntheticMembers(ids[1..]);
    }
  }

  /** What a compaction leaves can be compacted again: it has the shape of an agent's own history. */
  lemma CompactionKeepsShape(
    history: seq<Message>, headEnd: nat, tailStart: nat, summary: string, groups: seq<seq<string>>)
    requires headEnd <= tailStart <= |history| && WellFormedHistory(history)
    requires OrphanGroups(Reassembled(history, headEnd, tailStart, summary), groups)
    ensures WellFormedHistory(Repaired(Reassembled(history, headEnd, tailStart, summary), groups, 0))
  {
    var messages := Reassembled(history, headEnd, tailStart, summary);
    CompactionKeepsPairing(history, headEnd, tailStart, summary, groups);
    forall m | m in messages
      ensures SingleResult(m)
    {
      var p :| 0 <= p < |messages| && messages[p] == m;
      ReassembledMember(history, headEnd, tailStart, summary, p);
    }
    RepairedMembers(messages, groups, 0);
    var repaired := Repaired(messages, groups, 0);
    forall id
      ensures Uses(repaired, id) <= 1 && Results(repaired, id) <= Uses(repaired, id) && ResultsAfterUses(repaired, id)
    {
      assert PairedCall(repaired, id);
    }
  }

  /** A result that shares its message with text survives without its use. */
  lemma MixedResultSurvives(id: string, text: string, groups: seq<seq<string>>)
    requires OrphanGroups([Message(User, [ToolResult(id, ""), Text(text)], false)], groups)
    ensures !Paired(Repaired([Message(User, [ToolResult(id, ""), Text(text)], false)], groups, 0))
  {
    var m := Message(User, [ToolResult(id, ""), Text(text)], false);
    assert m.content[1..] == [Text(text)] && [m][1..] == [];
    OneBlockCounts(Text(text), id);
    assert ResultsIn(m.content, id) == 1 && UsesIn(m.content, id) == 0;
    assert !m.content[1].ToolResult?;
    assert [m][0] == m && !Dropped([m], m);
    assert !RepairableCall([m], id);
    RepairPairsExactly([m], groups);
  }

  // ------------------------------------------------------------------------
  // The protected tail
  // ------------------------------------------------------------------------

  function HeadBoundary(messages: seq<Message>, protectHead: nat): (headEnd: nat)
    ensures headEnd <= |messages|
  {
    if protectHead <= |messages| then protectHead else |messages|
  }

  function Tokens(messages: seq<Message>, estimate: Message -> nat): nat {
    if messages == [] then 0 else estimate(messages[0]) + Tokens(messages[1..], estimate)
  }

  /** The estimate of a conversation is the sum of those of its messages. */
  lemma {:induction false} TokensAdd(a: seq<Message>, m: Message, b: seq<Message>, estimate: Message -> nat)
    ensures Tokens([], estimate) == 0
    ensures Tokens(a + [m] + b, estimate) == Tokens(a + b, estimate) + estimate(m)
    decreases |a|
  {
    var all := a + [m] + b;
    if a == [] {
      assert all[1..] == b && a + b == b;
    } else {
      assert all[1..] == a[1..] + [m] + b && (a + b)[1..] == a[1..] + b;
      TokensAdd(a[1..], m, b, estimate);
    }
  }

  /** The tail is within the budget, and one more message would not be. */
  ghost predicate IsTailBoundary(
    messages: seq<Message>, headEnd: nat, budget: nat, estimate: Message -> nat, tailStart: nat)
  {
    && headEnd <= tailStart <= |messages|
    && Tokens(messages[tailStart..], estimate) <= budget
    && (tailStart > headEnd ==> Tokens(messages[tailStart - 1..], estimate) > budget)
  }

  /** The protected tail is the longest suffix after the head that fits the budget. */
  lemma TailIsLongest(
    messages: seq<Message>, headEnd: nat, budget: nat, estimate: Message -> nat, tailStart: nat, other: nat)
    requires IsTailBoundary(messages, headEnd, budget, estimate, tailStart)
    requires headEnd <= other <= |messages| && Tokens(messages[other..], estimate) <= budget
    ensures tailStart <= other
  {
    if other < tailStart {
      TokensGrow(messages, other, tailStart - 1, estimate);
    }
  }

  /** There is something to summarise exactly when what follows the head is over the budget. */
  lemma MiddleExistsExactly(
    messages: seq<Message>, headEnd: nat, budget: nat, estimate: Message -> nat, tailStart: nat)
    requires IsTailBoundary(messages, headEnd, budget, estimate, tailStart)
    ensures headEnd < tailStart <==> Tokens(messages[headEnd..], estimate) > budget
  {
    if headEnd < tailStart {
      TokensGrow(messages, headEnd, tailStart - 1, estimate);
    }
  }

  lemma {:induction false} TokensGrow(messages: seq<Message>, i: nat, j: nat, estimate: Message -> nat)
    requires i <= j <= |messages|
    ensures Tokens(messages[j..], estimate) <= Tokens(messages[i..], estimate)
    decreases j - i
  {
    if i < j {
      assert messages[i..][1..] == messages[i + 1..];
      TokensGrow(messages, i + 1, j, estimate);
    }
  }

  /** A used call without a result, and the last message that uses it. */
  datatype Orphan = Orphan(id: string, pos: nat)

  // ------------------------------------------------------------------------
  // The conversation and its rewrite in place
  // ------------------------------------------------------------------------

  class Conversation {
    var messages: seq<Message>

    constructor (messages: seq<Message>)
      ensures this.messages == messages
    {
      this.messages := messages;
    }

    method TailBoundary(protectHead: nat, budget: nat, estimate: Message -> nat) returns (tailStart: nat)
      ensures IsTailBoundary(messages, HeadBoundary(messages, protectHead), budget, estimate, tailStart)
    {
      var tokens := 0;
      var headEnd := HeadBoundary(messages, protectHead);
      var i := |messages|;
      while i > headEnd
        invariant headEnd <= i <= |messages|
        invariant tokens == Tokens(messages[i..], estimate) <= budget
      {
        i := i - 1;
        assert messages[i..][1..] == messages[i + 1..];
        var messageTokens := estimate(messages[i]);
        if tokens + messageTokens > budget {
          return i + 1;
        }
        tokens := tokens + messageTokens;
      }
      tailStart := headEnd;
    }

    /** Adds a synthetic result after each orphaned use and removes messages of orphaned results. */
    method FixOrphanedToolPairs()
      modifies this
      ensures exists groups ::
                OrphanGroups(old(messages), groups) && messages == Repaired(old(messages), groups, 0)
    {
      var positions, resultIds := CollectToolIds(messages);
      var orphanedUses := OrphanedUses(messages, positions, resultIds);
      var orphanedResults := resultIds - positions.Keys;
      forall id
        ensures id in orphanedResults <==> OrphanedResult(messages, id)
      {
        CollectedMeaning(messages, positions, resultIds, id);
      }
      ghost var groups := InsertSyntheticResults(orphanedUses);
      OrphanGroupsAreOrphaned(old(messages), groups);
      RetainOfExpanded(old(messages), groups, 0);
      RemoveOrphanedResults(old(messages), orphanedResults);
    }

    /** Inserts from the end, so that an insertion does not shift the positions still to come. */
    method InsertSyntheticResults(orphanedUses: seq<Orphan>) returns (ghost groups: seq<seq<string>>)
      requires Descending(orphanedUses) && DistinctOrphans(orphanedUses)
      requires forall o :: o in orphanedUses <==> OrphanedUse(messages, o.id) && LastUseAt(messages, o.pos, o.id)
      modifies this
      ensures OrphanGroups(old(messages), groups) && messages == Expanded(old(messages), groups, 0)
    {
      ghost var original := messages;
      groups := seq(|original|, _ => []);
      ExpandedWithoutGroups(original, groups, 0);
      for k := 0 to |orphanedUses|
        invariant GroupsOf(original, orphanedUses[..k], groups)
        invariant messages == Expanded(original, groups, 0)
      {
        var Orphan(id, pos) := orphanedUses[k];
        assert orphanedUses[k] in orphanedUses;
        EmptyBefore(original, orphanedUses, k, groups);
        ExpandedInsert(original, groups, 0, pos, id);
        GroupsOfNext(original, orphanedUses, k, groups);
        messages := messages[..pos + 1] + [SyntheticResult(id)] + messages[pos + 1..];
        groups := groups[pos := [id] + groups[pos]];
      }
      assert orphanedUses[..|orphanedUses|] == orphanedUses;
      GroupsAreOrphanGroups(original, orphanedUses, groups);
    }

    method RemoveOrphanedResults(ghost original: seq<Message>, orphanedResults: set<string>)
      requires forall id :: id in orphanedResults <==> OrphanedResult(original, id)
      modifies this
      ensures messages == Retain(original, old(messages))
    {
      var kept: seq<Message> := [];
      for i := 0 to |messages|
        invariant messages == old(messages)
        invariant kept == Retain(original, messages[..i])
      {
        var m := messages[i];
        assert messages[..i + 1] == messages[..i] + [m];
        RetainOfConcatenation(original, messages[..i], [m]);
        RetainOne(original, m);
        var orphaned := forall k | 0 <= k < |m.content| ::
            m.content[k].ToolResult? && m.content[k].toolUseId in orphanedResults;
        assert orphaned == Dropped(original, m);
        if !orphaned {
          kept := kept + [m];
        }
      }
      assert messages[..|messages|] == messages;
      messages := kept;
    }

    /** `summary` is what the model returned: nothing on failure. */
    method Compact(protectHead: nat, budget: nat, estimate: Message -> nat, summary: Option<string>)
      returns (compacted: bool)
      modifies this
      ensures compacted <==>
                && summary.Some? && summary.value != ""
                && Tokens(old(messages)[HeadBoundary(old(messages), protectHead)..], estimate) > budget
      ensures !compacted ==> messages == old(messages)
      ensures compacted ==>
                exists tailStart, groups ::
                     && IsTailBoundary(old(messages), HeadBoundary(old(messages), protectHead), budget, estimate,
                                       tailStart)
                     && HeadBoundary(old(messages), protectHead) < tailStart
                     && IsCompaction(old(messages), HeadBoundary(old(messages), protectHead), tailStart,
                                     summary.value, groups, messages)
      ensures compacted && WellFormedHistory(old(messages)) ==> Paired(messages) && WellFormedHistory(messages)
      ensures compacted <==>
                && summary.Some? && summary.value != ""
                && Tokens(old(messages)[if protectHead <= |old(messages)| then protectHead else |old(messages)|..],
                          estimate) > budget
      ensures compacted ==>
                exists tailStart, at, s ::
                  CompactsTo(old(messages), protectHead, budget, estimate, summary.value, messages, tailStart, at, s)
    {
      if messages == [] {
        return false;
      }
      var headEnd := HeadBoundary(messages, protectHead);
      var tailStart := TailBoundary(protectHead, budget, estimate);
      MiddleExistsExactly(messages, headEnd, budget, estimate, tailStart);
      if headEnd >= tailStart {
        return false;
      }
      if summary.None? || summary.value == "" {
        return false;
      }
      ghost var history := messages;
      var newMessages := [];
      for i := 0 to headEnd
        invariant messages == history
        invariant newMessages == WithoutSummaries(history[..i])
      {
        assert history[..i + 1] == history[..i] + [history[i]];
        WithoutSummariesOfConcatenation(history[..i], [history[i]]);
        if !messages[i].contextSummary {
          newMessages := newMessages + [messages[i]];
        }
      }
      messages := newMessages + [ContextSummary(summary.value)] + messages[tailStart..];
      assert messages == Reassembled(history, headEnd, tailStart, summary.value);
      FixOrphanedToolPairs();
      ghost var groups :|
        && OrphanGroups(Reassembled(history, headEnd, tailStart, summary.value), groups)
        && messages == Repaired(Reassembled(history, headEnd, tailStart, summary.value), groups, 0);
      assert IsCompaction(history, headEnd, tailStart, summary.value, groups, messages);
      ghost var at, s;
      at, s := CompactedPlaces(history, headEnd, tailStart, summary.value, groups);
      assert CompactsTo(history, protectHead, budget, estimate, summary.value, messages, tailStart, at, s);
      if WellFormedHistory(history) {
        CompactionKeepsPairing(history, headEnd, tailStart, summary.value, groups);
        CompactionKeepsShape(history, headEnd, tailStart, summary.value, groups);
      }
      return true;
    }
  }

  // ------------------------------------------------------------------------
  // What a compaction keeps, message by message
  // ------------------------------------------------------------------------

  /** The messages that a compaction is to keep: the protected head but for old summaries, and the tail. */
  ghost predicate IsProtected(history: seq<Message>, protected: nat, tailStart: nat, p: nat) {
    p < |history| && ((p < protected && !history[p].contextSummary) || tailStart <= p)
  }

  ghost predicate UsedByProtected(history: seq<Message>, protected: nat, tailStart: nat, id: string) {
    exists p: nat :: IsProtected(history, protected, tailStart, p) && ToolUse(id) in history[p].content
  }

  /** Nothing in the message but results of calls that no kept message uses. */
  ghost predicate WhollyOrphaned(history: seq<Message>, protected: nat, tailStart: nat, m: Message) {
    forall b | b in m.content :: b.ToolResult? && !UsedByProtected(history, protected, tailStart, b.toolUseId)
  }

  /** Stands in for the result of a call of a kept message. */
  ghost predicate StandsIn(history: seq<Message>, protected: nat, tailStart: nat, m: Message) {
    exists id :: && m == Message(User, [ToolResult(id, "[result included in context summary]")], false)
                 && UsedByProtected(history, protected, tailStart, id)
  }

  /**
   The kept messages but for those that are orphaned through and through are at these places of the result, in
   their order, the head before the summary and the tail behind it; everything else in the result stands in for
   the result of a kept call.
   */
  ghost predicate IsCompacted(history: seq<Message>, protected: nat, tailStart: nat, summary: string,
                              result: seq<Message>, at: map<nat, nat>, s: nat)
  {
    && s < |result| && result[s] == Message(User, [Text("[Context Summary]\n\n" + summary)], true)
    && (forall p: nat :: p in at <==> IsProtected(history, protected, tailStart, p)
                                      && !WhollyOrphaned(history, protected, tailStart, history[p]))
    && Holds(history, result, at) && Climbs(at)
    && (forall p | p in at :: if p < protected then at[p] < s else s < at[p])
    && (forall i: nat | i < |result| && i != s && !Taken(at, i) ::
          StandsIn(history, protected, tailStart, result[i]))
  }

  /** The protected head is as long as it is to be, or all there is, and the tail as long as the budget allows. */
  ghost predicate CompactsTo(history: seq<Message>, protectHead: nat, budget: nat, estimate: Message -> nat,
                             summary: string, result: seq<Message>, tailStart: nat, at: map<nat, nat>, s: nat)
  {
    var protected := if protectHead <= |history| then protectHead else |history|;
    && IsTailBoundary(history, protected, budget, estimate, tailStart)
    && IsCompacted(history, protected, tailStart, summary, result, at, s)
  }

  /** Each of these messages is at its place. */
  ghost predicate Holds(messages: seq<Message>, result: seq<Message>, at: map<nat, nat>) {
    forall p | p in at :: p < |messages| && at[p] < |result| && result[at[p]] == messages[p]
  }

  /** The places keep the order. */
  ghost predicate Climbs(at: map<nat, nat>) {
    forall p, q | p in at && q in at && p < q :: at[p] < at[q]
  }

  /** Some message was placed here. */
  ghost predicate Taken(at: map<nat, nat>, i: nat) {
    exists p :: p in at && at[p] == i
  }

  /** Where the messages that the repair keeps end up, and that it adds nothing but synthetic results. */
  lemma {:induction false} RepairedPlaces(messages: seq<Message>, groups: seq<seq<string>>, p: nat)
    returns (at: map<nat, nat>)
    requires |groups| == |messages| && p <= |messages|
    ensures ArePlaces(messages, groups, p, Repaired(messages, groups, p), at)
    decreases |messages| - p
  {
    at := map[];
    if p < |messages| {
      var rest := RepairedPlaces(messages, groups, p + 1);
      at := PlacesBefore(messages, groups, p, rest);
    }
  }

  ghost predicate InSomeGroup(groups: seq<seq<string>>, id: string) {
    exists q :: 0 <= q < |groups| && id in groups[q]
  }

  ghost predicate ArePlaces(messages: seq<Message>, groups: seq<seq<string>>, p: nat, result: seq<Message>,
                            at: map<nat, nat>)
  {
    && (forall q: nat :: q in at <==> p <= q < |messages| && !Dropped(messages, messages[q]))
    && Holds(messages, result, at) && Climbs(at)
    && (forall i: nat | i < |result| && !Taken(at, i) :: IsAdded(groups, result[i]))
  }

  lemma PlacesBefore(messages: seq<Message>, groups: seq<seq<string>>, p: nat, rest: map<nat, nat>)
    returns (at: map<nat, nat>)
    requires |groups| == |messages| && p < |messages|
    requires ArePlaces(messages, groups, p + 1, Repaired(messages, groups, p + 1), rest)
    ensures ArePlaces(messages, groups, p, Repaired(messages, groups, p), at)
  {
    var front := Keep(messages, messages[p]) + Synthetic(groups[p]);
    var tail := Repaired(messages, groups, p + 1);
    assert Repaired(messages, groups, p) == front + tail;
    FrontOf(messages, groups, p, front);
    hide Dropped, Repaired, Synthetic, Keep, ArePlaces;
    if Dropped(messages, messages[p]) {
      at := Shifted(rest, |front|);
      PlacesOfDropped(messages, groups, p, front, tail, rest);
    } else {
      at := Shifted(rest, |front|)[p := 0];
      PlacesOfKept(messages, groups, p, front, tail, rest);
    }
  }

  lemma PlacesOfDropped(messages: seq<Message>, groups: seq<seq<string>>, p: nat, front: seq<Message>,
                        tail: seq<Message>, rest: map<nat, nat>)
    requires |groups| == |messages| && p < |messages| && Dropped(messages, messages[p])
    requires ArePlaces(messages, groups, p + 1, tail, rest)
    requires forall i: nat | i < |front| :: IsAdded(groups, front[i])
    ensures ArePlaces(messages, groups, p, front + tail, Shifted(rest, |front|))
  {
    hide Dropped, Taken, IsAdded, Holds, Climbs;
    ShiftedPlaces(messages, front, tail, rest);
    OthersBefore(messages, groups, p, front, tail, rest, Shifted(rest, |front|));
  }

  lemma PlacesOfKept(messages: seq<Message>, groups: seq<seq<string>>, p: nat, front: seq<Message>,
                     tail: seq<Message>, rest: map<nat, nat>)
    requires |groups| == |messages| && p < |messages| && !Dropped(messages, messages[p])
    requires ArePlaces(messages, groups, p + 1, tail, rest)
    requires front != [] && front[0] == messages[p]
    requires forall i: nat | 0 < i < |front| :: IsAdded(groups, front[i])
    ensures ArePlaces(messages, groups, p, front + tail, Shifted(rest, |front|)[p := 0])
  {
    hide Dropped, Taken, IsAdded, Holds, Climbs;
    var later := Shifted(rest, |front|);
    ShiftedPlaces(messages, front, tail, rest);
    FirstPlace(messages, front + tail, later, p);
    OthersBefore(messages, groups, p, front, tail, rest, later[p := 0]);
  }

  ghost function Shifted(at: map<nat, nat>, n: nat): (later: map<nat, nat>)
    ensures later.Keys == at.Keys && forall q | q in at :: later[q] == at[q] + n
  {
    map q | q in at :: at[q] + n
  }

  /** A message before all the placed ones takes the place before all of theirs. */
  lemma FirstPlace(messages: seq<Message>, result: seq<Message>, later: map<nat, nat>, p: nat)
    requires Holds(messages, result, later) && Climbs(later)
    requires forall q | q in later :: p < q && 0 < later[q]
    requires p < |messages| && result != [] && result[0] == messages[p]
    ensures Holds(messages, result, later[p := 0]) && Climbs(later[p := 0])
    ensures Taken(later[p := 0], 0) && forall i: nat | Taken(later, i) :: Taken(later[p := 0], i)
  {
    assert p !in later;
    forall i: nat {
      TakenWith(later, p, 0, i);
    }
  }

  ghost predicate IsAdded(groups: seq<seq<string>>, m: Message) {
    exists id :: m == SyntheticResult(id) && InSomeGroup(groups, id)
  }

  lemma OthersBefore(messages: seq<Message>, groups: seq<seq<string>>, p: nat, front: seq<Message>, tail: seq<Message>,
                     rest: map<nat, nat>, at: map<nat, nat>)
    requires |groups| == |messages| && p < |messages|
    requires forall i: nat | i < |front| && (i > 0 || Dropped(messages, messages[p])) :: IsAdded(groups, front[i])
    requires forall i: nat | i < |tail| && !Taken(rest, i) :: IsAdded(groups, tail[i])
    requires forall i: nat {:trigger Taken(rest, i)} | Taken(rest, i) :: Taken(at, i + |front|)
    requires !Dropped(messages, messages[p]) ==> Taken(at, 0)
    ensures forall i: nat | i < |front + tail| && !Taken(at, i) :: IsAdded(groups, (front + tail)[i])
  {
    hide Dropped, Taken, IsAdded;
    forall i: nat | i < |front + tail| && !Taken(at, i)
      ensures IsAdded(groups, (front + tail)[i])
    {
      if i >= |front| {
        assert (front + tail)[i] == tail[i - |front|];
        assert Taken(rest, i - |front|) ==> Taken(at, i);
      } else {
        assert (front + tail)[i] == front[i];
      }
    }
  }

  /** Behind a kept message, which comes first, there are only synthetic results in front of the rest. */
  lemma FrontOf(messages: seq<Message>, groups: seq<seq<string>>, p: nat, front: seq<Message>)
    requires |groups| == |messages| && p < |messages|
    requires front == Keep(messages, messages[p]) + Synthetic(groups[p])
    ensures !Dropped(messages, messages[p]) ==> front != [] && front[0] == messages[p]
    ensures forall i: nat | i < |front| && (i > 0 || Dropped(messages, messages[p])) :: IsAdded(groups, front[i])
  {
    var kept, added := Keep(messages, messages[p]), Synthetic(groups[p]);
    SyntheticAt(groups[p]);
    forall i: nat | |kept| <= i < |front|
      ensures IsAdded(groups, front[i])
    {
      assert front[i] == added[i - |kept|] == SyntheticResult(groups[p][i - |kept|]);
      assert groups[p][i - |kept|] in groups[p];
    }
  }

  lemma ShiftedPlaces(messages: seq<Message>, front: seq<Message>, tail: seq<Message>, rest: map<nat, nat>)
    requires Holds(messages, tail, rest) && Climbs(rest)
    ensures Holds(messages, front + tail, Shifted(rest, |front|)) && Climbs(Shifted(rest, |front|))
    ensures forall i: nat | Taken(rest, i) :: Taken(Shifted(rest, |front|), i + |front|)
  {
    var later := Shifted(rest, |front|);
    assert forall q | q in rest :: (front + tail)[later[q]] == tail[rest[q]];
    forall i: nat | Taken(rest, i)
      ensures Taken(later, i + |front|)
    {
      var q :| q in rest && rest[q] == i;
      assert q in later;
    }
  }

  lemma {:induction false} SyntheticAt(ids: seq<string>)
    ensures |Synthetic(ids)| == |ids|
    ensures forall k | 0 <= k < |ids| :: Synthetic(ids)[k] == SyntheticResult(ids[k])
    decreases |ids|
  {
    if ids != [] {
      SyntheticAt(ids[1..]);
    }
  }

  /** Where the kept head and tail stand before the repair: all that is there but the summary. */
  ghost predicate AreKept(history: seq<Message>, protected: nat, tailStart: nat, result: seq<Message>, s: nat,
                          at: map<nat, nat>)
  {
    && s < |result|
    && (forall p: nat :: p in at <==> IsProtected(history, protected, tailStart, p))
    && Holds(history, result, at) && Climbs(at)
    && (forall p | p in at :: if p < protected then at[p] < s else s < at[p])
    && (forall i: nat | i < |result| && i != s :: Taken(at, i))
  }

  lemma {:induction false} HeadPlaces(head: seq<Message>) returns (at: map<nat, nat>)
    ensures forall p: nat :: p in at <==> p < |head| && !head[p].contextSummary
    ensures Holds(head, WithoutSummaries(head), at) && Climbs(at)
    ensures forall i: nat | i < |WithoutSummaries(head)| :: Taken(at, i)
    decreases |head|
  {
    at := map[];
    if head != [] {
      var n := |head| - 1;
      var earlier, last := WithoutSummaries(head[..n]), head[n];
      var before := HeadPlaces(head[..n]);
      assert head == head[..n] + [last] && [last][1..] == [];
      WithoutSummariesOfConcatenation(head[..n], [last]);
      assert WithoutSummaries(head) == earlier + if last.contextSummary then [] else [last];
      hide WithoutSummaries;
      at := if last.contextSummary then before else before[n := |earlier|];
      forall i: nat | i < |WithoutSummaries(head)|
        ensures Taken(at, i)
      {
        TakenWith(before, n, |earlier|, i);
      }
    }
  }

  lemma TakenWith(before: map<nat, nat>, n: nat, place: nat, i: nat)
    requires n !in before
    ensures Taken(before, i) || i == place ==> Taken(before[n := place], i)
  {
    if q :| q in before && before[q] == i {
      assert before[n := place][q] == i;
    }
    assert before[n := place][n] == place;
  }

  lemma KeptPlaces(history: seq<Message>, protected: nat, tailStart: nat, summary: string) returns (at: map<nat, nat>)
    requires protected <= tailStart <= |history|
    ensures AreKept(history, protected, tailStart, Reassembled(history, protected, tailStart, summary),
                    |WithoutSummaries(history[..protected])|, at)
  {
    var head, tail := WithoutSummaries(history[..protected]), history[tailStart..];
    var result := head + [ContextSummary(summary)] + tail;
    assert result == Reassembled(history, protected, tailStart, summary);
    hide WithoutSummaries, ContextSummary, Reassembled, Taken, Holds, Climbs, TailPlaces;
    var first := HeadPlaces(history[..protected]);
    var behind := TailPlaces(|history|, tailStart, |head| + 1);
    at := first + behind;
    HeadHolds(history, protected, head, result, first);
    TailHolds(history, tailStart, |head| + 1, result, behind);
    EitherHolds(history, result, first, behind);
    KeptDomain(history, protected, tailStart, first, behind);
    AllTaken(|head|, |result|, tailStart, first, behind);
  }

  lemma KeptDomain(history: seq<Message>, protected: nat, tailStart: nat, first: map<nat, nat>, behind: map<nat, nat>)
    requires protected <= |history|
    requires forall p: nat :: p in first <==> p < protected && !history[..protected][p].contextSummary
    requires forall p: nat :: p in behind <==> tailStart <= p < |history|
    ensures forall p: nat :: p in first + behind <==> IsProtected(history, protected, tailStart, p)
  {
  }

  lemma AllTaken(s: nat, n: nat, tailStart: nat, first: map<nat, nat>, behind: map<nat, nat>)
    requires forall i: nat | i < s :: Taken(first, i)
    requires s < n && forall p: nat :: p in behind <==> tailStart <= p < tailStart + n - s - 1
    requires forall p | p in behind :: behind[p] == s + 1 + p - tailStart
    requires first.Keys !! behind.Keys
    ensures forall i: nat | i < n && i != s :: Taken(first + behind, i)
  {
    hide Taken;
    forall i: nat | i < n && i != s
      ensures Taken(first + behind, i)
    {
      TakenInEither(first, behind, i);
      if i > s {
        TakenHere(behind, i - s - 1 + tailStart);
      }
    }
  }

  lemma HeadHolds(history: seq<Message>, protected: nat, head: seq<Message>, result: seq<Message>, first: map<nat, nat>)
    requires protected <= |history| && head <= result
    requires Holds(history[..protected], head, first)
    ensures Holds(history, result, first)
    ensures forall p | p in first :: p < protected && first[p] < |head|
  {
  }

  lemma TailHolds(history: seq<Message>, tailStart: nat, start: nat, result: seq<Message>, behind: map<nat, nat>)
    requires tailStart <= |history| && start <= |result| && result[start..] == history[tailStart..]
    requires forall p: nat :: p in behind <==> tailStart <= p < |history|
    requires forall p | p in behind :: behind[p] == start + p - tailStart
    ensures Holds(history, result, behind) && Climbs(behind)
  {
    forall p | p in behind
      ensures behind[p] < |result| && result[behind[p]] == history[p]
    {
      assert result[start..][p - tailStart] == history[tailStart..][p - tailStart];
    }
  }

  lemma EitherHolds(history: seq<Message>, result: seq<Message>, first: map<nat, nat>, behind: map<nat, nat>)
    requires Holds(history, result, first) && Climbs(first) && Holds(history, result, behind) && Climbs(behind)
    requires forall p, q | p in first && q in behind :: p < q && first[p] < behind[q]
    ensures Holds(history, result, first + behind) && Climbs(first + behind)
  {
  }

  lemma TakenHere(at: map<nat, nat>, p: nat)
    requires p in at
    ensures Taken(at, at[p])
  {
  }

  lemma TakenInEither(first: map<nat, nat>, behind: map<nat, nat>, i: nat)
    requires first.Keys !! behind.Keys
    ensures Taken(first, i) || Taken(behind, i) ==> Taken(first + behind, i)
  {
    if p :| p in first && first[p] == i {
      assert (first + behind)[p] == i;
    }
    if p :| p in behind && behind[p] == i {
      assert (first + behind)[p] == i;
    }
  }

  ghost function TailPlaces(n: nat, start: nat, first: nat): (at: map<nat, nat>)
    requires start <= n
    ensures forall p: nat :: p in at <==> start <= p < n
    ensures forall p | p in at :: at[p] == first + p - start
    decreases n - start
  {
    if start == n then map[] else TailPlaces(n, start + 1, first + 1)[start := first]
  }

  lemma {:induction false} UsedSomewhere(messages: seq<Message>, id: string)
    ensures Uses(messages, id) > 0 <==> exists i: nat :: i < |messages| && ToolUse(id) in messages[i].content
  {
    NoUses(messages, id);
    forall i: nat | i < |messages|
      ensures UsesIn(messages[i].content, id) > 0 <==> ToolUse(id) in messages[i].content
    {
      BlockOfCount(messages[i].content, id);
    }
  }

  /** A call is used in the reassembled conversation exactly if a kept message uses it. */
  lemma UsedIfProtected(history: seq<Message>, protected: nat, tailStart: nat, result: seq<Message>, s: nat,
                        at: map<nat, nat>, id: string)
    requires AreKept(history, protected, tailStart, result, s, at) && ToolUse(id) !in result[s].content
    ensures Uses(result, id) > 0 <==> UsedByProtected(history, protected, tailStart, id)
  {
    UsedSomewhere(result, id);
    if Uses(result, id) > 0 {
      var i: nat :| i < |result| && ToolUse(id) in result[i].content;
      assert Taken(at, i);
      var p :| p in at && at[p] == i;
      assert IsProtected(history, protected, tailStart, p) && ToolUse(id) in history[p].content;
    }
    if UsedByProtected(history, protected, tailStart, id) {
      var p: nat :| IsProtected(history, protected, tailStart, p) && ToolUse(id) in history[p].content;
      assert p in at && ToolUse(id) in result[at[p]].content;
    }
  }

  lemma DroppedIfOrphaned(history: seq<Message>, protected: nat, tailStart: nat, result: seq<Message>, s: nat,
                          at: map<nat, nat>, p: nat)
    requires AreKept(history, protected, tailStart, result, s, at) && p in at
    requires forall id :: ToolUse(id) !in result[s].content
    ensures Dropped(result, history[p]) <==> WhollyOrphaned(history, protected, tailStart, history[p])
  {
    var m := history[p];
    forall k | 0 <= k < |m.content| && m.content[k].ToolResult?
      ensures OrphanedResult(result, m.content[k].toolUseId)
              <==> !UsedByProtected(history, protected, tailStart, m.content[k].toolUseId)
    {
      var id := m.content[k].toolUseId;
      UsedIfProtected(history, protected, tailStart, result, s, at, id);
      BlockOfCount(m.content, id);
      CountAtPosition(result, at[p], id);
    }
  }

  lemma CompactedPlaces(history: seq<Message>, protected: nat, tailStart: nat, summary: string,
                        groups: seq<seq<string>>) returns (at: map<nat, nat>, s: nat)
    requires protected <= tailStart <= |history|
    requires OrphanGroups(Reassembled(history, protected, tailStart, summary), groups)
    ensures IsCompacted(history, protected, tailStart, summary,
                        Repaired(Reassembled(history, protected, tailStart, summary), groups, 0), at, s)
  {
    hide Dropped, Repaired, Reassembled, AreKept, ArePlaces, OrphanGroups, WhollyOrphaned, UsedByProtected,
      InSomeGroup, WithoutSummaries, IsCompacted, ContextSummary;
    var result := Reassembled(history, protected, tailStart, summary);
    var middle := |WithoutSummaries(history[..protected])|;
    assert |groups| == |result| by {
      GroupCount(result, groups);
    }
    var kept := KeptPlaces(history, protected, tailStart, summary);
    var places := RepairedPlaces(result, groups, 0);
    SummaryStays(history, protected, tailStart, summary);
    DroppedAreOrphaned(history, protected, tailStart, result, middle, kept);
    GroupsAreProtected(history, protected, tailStart, result, middle, kept, groups);
    at, s := ComposedPlaces(history, protected, tailStart, summary, groups, kept, places);
  }

  lemma GroupCount(messages: seq<Message>, groups: seq<seq<string>>)
    requires OrphanGroups(messages, groups)
    ensures |groups| == |messages|
  {
  }

  lemma SummaryStays(history: seq<Message>, protected: nat, tailStart: nat, summary: string)
    requires protected <= tailStart <= |history|
    ensures var result := Reassembled(history, protected, tailStart, summary);
            var middle := |WithoutSummaries(history[..protected])|;
            && result[middle] == ContextSummary(summary) && !Dropped(result, result[middle])
            && forall id :: ToolUse(id) !in result[middle].content
  {
    assert ContextSummary(summary).content[0].Text?;
  }

  lemma DroppedAreOrphaned(history: seq<Message>, protected: nat, tailStart: nat, result: seq<Message>, s: nat,
                           at: map<nat, nat>)
    requires AreKept(history, protected, tailStart, result, s, at)
    requires forall id :: ToolUse(id) !in result[s].content
    ensures forall p | p in at ::
              && p < |history|
              && (Dropped(result, history[p]) <==> WhollyOrphaned(history, protected, tailStart, history[p]))
  {
    forall p | p in at
      ensures Dropped(result, history[p]) <==> WhollyOrphaned(history, protected, tailStart, history[p])
    {
      DroppedIfOrphaned(history, protected, tailStart, result, s, at, p);
    }
  }

  lemma GroupsAreProtected(history: seq<Message>, protected: nat, tailStart: nat, result: seq<Message>, s: nat,
                           at: map<nat, nat>, groups: seq<seq<string>>)
    requires AreKept(history, protected, tailStart, result, s, at) && OrphanGroups(result, groups)
    requires forall id :: ToolUse(id) !in result[s].content
    ensures forall id | InSomeGroup(groups, id) :: UsedByProtected(history, protected, tailStart, id)
  {
    forall id | InSomeGroup(groups, id)
      ensures UsedByProtected(history, protected, tailStart, id)
    {
      var q :| 0 <= q < |groups| && id in groups[q];
      assert OrphanedUse(result, id);
      UsedIfProtected(history, protected, tailStart, result, s, at, id);
    }
  }

  lemma ComposedPlaces(history: seq<Message>, protected: nat, tailStart: nat, summary: string,
                       groups: seq<seq<string>>, kept: map<nat, nat>, places: map<nat, nat>)
    returns (at: map<nat, nat>, s: nat)
    requires protected <= tailStart <= |history|
    requires |groups| == |Reassembled(history, protected, tailStart, summary)|
    requires var result := Reassembled(history, protected, tailStart, summary);
             var middle := |WithoutSummaries(history[..protected])|;
             && AreKept(history, protected, tailStart, result, middle, kept)
             && ArePlaces(result, groups, 0, Repaired(result, groups, 0), places)
             && result[middle] == ContextSummary(summary) && !Dropped(result, result[middle])
             && (forall p | p in kept ::
                   Dropped(result, history[p]) <==> WhollyOrphaned(history, protected, tailStart, history[p]))
    requires forall id | InSomeGroup(groups, id) :: UsedByProtected(history, protected, tailStart, id)
    ensures IsCompacted(history, protected, tailStart, summary,
                        Repaired(Reassembled(history, protected, tailStart, summary), groups, 0), at, s)
  {
    var result := Reassembled(history, protected, tailStart, summary);
    var middle := |WithoutSummaries(history[..protected])|;
    var final := Repaired(result, groups, 0);
    hide Reassembled, WithoutSummaries, Repaired, Dropped, WhollyOrphaned, UsedByProtected, IsProtected;
    at := Composed(kept, places);
    s := places[middle];
    ComposedOrder(history, result, final, kept, places);
    ComposedSides(result, final, protected, middle, kept, places);
    hide Holds, Climbs;
    forall i: nat | i < |final| && i != s && !Taken(at, i)
      ensures StandsIn(history, protected, tailStart, final[i])
    {
      TakenThrough(result, middle, kept, places, i);
    }
  }

  ghost function Composed(kept: map<nat, nat>, places: map<nat, nat>): (at: map<nat, nat>)
    ensures forall p: nat :: p in at <==> p in kept && kept[p] in places
    ensures forall p | p in at :: at[p] == places[kept[p]]
  {
    map p | p in kept && kept[p] in places :: places[kept[p]]
  }

  lemma ComposedOrder(history: seq<Message>, result: seq<Message>, final: seq<Message>, kept: map<nat, nat>,
                      places: map<nat, nat>)
    requires Holds(history, result, kept) && Climbs(kept) && Holds(result, final, places) && Climbs(places)
    ensures Holds(history, final, Composed(kept, places)) && Climbs(Composed(kept, places))
  {
  }

  lemma ComposedSides(result: seq<Message>, final: seq<Message>, protected: nat, middle: nat,
                      kept: map<nat, nat>, places: map<nat, nat>)
    requires Holds(result, final, places) && Climbs(places) && middle in places
    requires forall p | p in kept :: if p < protected then kept[p] < middle else middle < kept[p]
    ensures middle < |result| && places[middle] < |final| && final[places[middle]] == result[middle]
    ensures var at := Composed(kept, places);
            forall p | p in at :: if p < protected then at[p] < places[middle] else places[middle] < at[p]
  {
  }

  lemma TakenThrough(result: seq<Message>, middle: nat, kept: map<nat, nat>, places: map<nat, nat>, i: nat)
    requires forall q: nat | q < |result| && q != middle :: Taken(kept, q)
    requires forall q | q in places :: q < |result|
    ensures Taken(places, i) ==> Taken(Composed(kept, places), i) || (middle in places && places[middle] == i)
  {
    if q :| q in places && places[q] == i && q != middle {
      assert Taken(kept, q);
      var p :| p in kept && kept[p] == q;
      assert p in Composed(kept, places);
    }
  }

  ghost predicate IsCompaction(history: seq<Message>, headEnd: nat, tailStart: nat, summary: string,
                               groups: seq<seq<string>>, messages: seq<Message>)
  {
    && headEnd <= tailStart <= |history|
    && OrphanGroups(Reassembled(history, headEnd, tailStart, summary), groups)
    && messages == Repaired(Reassembled(history, headEnd, tailStart, summary), groups, 0)
  }

  lemma {:induction false} WithoutSummariesOfConcatenation(a: seq<Message>, b: seq<Message>)
    ensures WithoutSummaries(a + b) == WithoutSummaries(a) + WithoutSummaries(b)
    decreases |a|
  {
    if a == [] {
      assert a + b == b;
    } else {
      assert (a + b)[1..] == a[1..] + b;
      WithoutSummariesOfConcatenation(a[1..], b);
    }
  }

  // ------------------------------------------------------------------------
  // Collecting uses and results
  // ------------------------------------------------------------------------

  /** A call used below `n` is mapped to the last message that uses it. */
  ghost predicate PositionOf(messages: seq<Message>, n: nat, positions: map<string, nat>, id: string)
    requires n <= |messages|
  {
    if id in positions then
      && positions[id] < n
      && UsesIn(messages[positions[id]].content, id) > 0
      && forall q | positions[id] < q < n :: UsesIn(messages[q].content, id) == 0
    else
      forall q | 0 <= q < n :: UsesIn(messages[q].content, id) == 0
  }

  ghost predicate PositionsBelow(messages: seq<Message>, n: nat, positions: map<string, nat>)
    requires n <= |messages|
  {
    forall id :: PositionOf(messages, n, positions, id)
  }

  ghost predicate ResultsBelow(messages: seq<Message>, n: nat, ids: set<string>)
    requires n <= |messages|
  {
    forall id :: id in ids <==> exists q :: 0 <= q < n && ResultsIn(messages[q].content, id) > 0
  }

  method CollectToolIds(messages: seq<Message>) returns (positions: map<string, nat>, resultIds: set<string>)
    ensures PositionsBelow(messages, |messages|, positions)
    ensures ResultsBelow(messages, |messages|, resultIds)
  {
    positions, resultIds := map[], {};
    for pos := 0 to |messages|
      invariant PositionsBelow(messages, pos, positions)
      invariant ResultsBelow(messages, pos, resultIds)
    {
      var used, answered := IdsOfMessage(messages[pos]);
      PositionsAdvance(messages, pos, positions, used);
      positions := positions + AllAt(used, pos);
      resultIds := resultIds + answered;
    }
  }

  function AllAt(ids: set<string>, pos: nat): map<string, nat> {
    map id | id in ids :: pos
  }

  lemma PositionsAdvance(messages: seq<Message>, pos: nat, positions: map<string, nat>, used: set<string>)
    requires pos < |messages| && PositionsBelow(messages, pos, positions)
    requires forall id :: id in used <==> UsesIn(messages[pos].content, id) > 0
    ensures PositionsBelow(messages, pos + 1, positions + AllAt(used, pos))
  {
    var n, next := pos + 1, positions + AllAt(used, pos);
    forall id
      ensures PositionOf(messages, n, next, id)
    {
      assert PositionOf(messages, pos, positions, id);
    }
  }

  method IdsOfMessage(m: Message) returns (used: set<string>, answered: set<string>)
    ensures forall id :: id in used <==> UsesIn(m.content, id) > 0
    ensures forall id :: id in answered <==> ResultsIn(m.content, id) > 0
  {
    used, answered := {}, {};
    var k := |m.content|;
    while k > 0
      invariant 0 <= k <= |m.content|
      invariant forall id :: id in used <==> UsesIn(m.content[k..], id) > 0
      invariant forall id :: id in answered <==> ResultsIn(m.content[k..], id) > 0
    {
      k := k - 1;
      assert m.content[k..][1..] == m.content[k + 1..];
      match m.content[k] {
        case ToolUse(id) => used := used + {id};
        case ToolResult(id, _) => answered := answered + {id};
        case _ =>
      }
    }
    assert m.content[0..] == m.content;
  }

  lemma {:induction false} NoUses(messages: seq<Message>, id: string)
    ensures Uses(messages, id) == 0 <==> forall q | 0 <= q < |messages| :: UsesIn(messages[q].content, id) == 0
    decreases |messages|
  {
    if messages != [] {
      NoUses(messages[1..], id);
      assert forall q | 0 < q < |messages| :: messages[q] == messages[1..][q - 1];
      if Uses(messages[1..], id) > 0 {
        var q :| 0 <= q < |messages[1..]| && UsesIn(messages[1..][q].content, id) > 0;
        assert UsesIn(messages[q + 1].content, id) > 0;
      }
    }
  }

  lemma {:induction false} NoResults(messages: seq<Message>, id: string)
    ensures Results(messages, id) == 0 <==> forall q | 0 <= q < |messages| :: ResultsIn(messages[q].content, id) == 0
    decreases |messages|
  {
    if messages != [] {
      NoResults(messages[1..], id);
      assert forall q | 0 < q < |messages| :: messages[q] == messages[1..][q - 1];
      if Results(messages[1..], id) > 0 {
        var q :| 0 <= q < |messages[1..]| && ResultsIn(messages[1..][q].content, id) > 0;
        assert ResultsIn(messages[q + 1].content, id) > 0;
      }
    }
  }

  lemma CollectedMeaning(messages: seq<Message>, positions: map<string, nat>, resultIds: set<string>, id: string)
    requires PositionsBelow(messages, |messages|, positions) && ResultsBelow(messages, |messages|, resultIds)
    ensures id in positions <==> Uses(messages, id) > 0
    ensures id in resultIds <==> Results(messages, id) > 0
    ensures forall p | 0 <= p < |messages| :: LastUseAt(messages, p, id) <==> id in positions && positions[id] == p
  {
    NoUses(messages, id);
    NoResults(messages, id);
    assert PositionOf(messages, |messages|, positions, id);
    forall p | 0 <= p < |messages|
      ensures LastUseAt(messages, p, id) <==> id in positions && positions[id] == p
    {
      NoUses(messages[p + 1..], id);
      assert forall q | p < q < |messages| :: messages[q] == messages[p + 1..][q - p - 1];
      if id in positions && positions[id] > p {
        assert UsesIn(messages[p + 1..][positions[id] - p - 1].content, id) > 0;
      }
    }
  }

  // ------------------------------------------------------------------------
  // Sorting the orphans and inserting behind them
  // ------------------------------------------------------------------------

  ghost predicate Descending(list: seq<Orphan>) {
    forall i, j | 0 <= i < j < |list| :: list[i].pos >= list[j].pos
  }

  ghost predicate DistinctOrphans(list: seq<Orphan>) {
    forall i, j | 0 <= i < j < |list| :: list[i].id != list[j].id
  }

  method OrphanedUses(messages: seq<Message>, positions: map<string, nat>, resultIds: set<string>)
    returns (list: seq<Orphan>)
    requires PositionsBelow(messages, |messages|, positions) && ResultsBelow(messages, |messages|, resultIds)
    ensures Descending(list) && DistinctOrphans(list)
    ensures forall o :: o in list <==> OrphanedUse(messages, o.id) && LastUseAt(messages, o.pos, o.id)
  {
    list := [];
    var remaining := positions.Keys;
    while remaining != {}
      invariant remaining <= positions.Keys
      invariant Descending(list) && DistinctOrphans(list)
      invariant forall o :: o in list <==>
                  o.id in positions && o.id !in remaining && o.id !in resultIds && o.pos == positions[o.id]
      decreases |remaining|
    {
      var id :| id in remaining;
      if id !in resultIds {
        list := InsertDescending(list, Orphan(id, positions[id]));
      }
      remaining := remaining - {id};
    }
    forall o: Orphan
      ensures o in list <==> OrphanedUse(messages, o.id) && LastUseAt(messages, o.pos, o.id)
    {
      CollectedMeaning(messages, positions, resultIds, o.id);
      assert PositionOf(messages, |messages|, positions, o.id);
      if o.pos < |messages| {
        assert LastUseAt(messages, o.pos, o.id) <==> o.id in positions && positions[o.id] == o.pos;
      }
    }
  }

  method InsertDescending(list: seq<Orphan>, o: Orphan) returns (r: seq<Orphan>)
    requires Descending(list) && DistinctOrphans(list)
    requires forall x | x in list :: x.id != o.id
    ensures Descending(r) && DistinctOrphans(r)
    ensures forall x :: x in r <==> x == o || x in list
  {
    var i := 0;
    while i < |list| && list[i].pos >= o.pos
      invariant 0 <= i <= |list|
      invariant forall k | 0 <= k < i :: list[k].pos >= o.pos
    {
      i := i + 1;
    }
    r := list[..i] + [o] + list[i..];
    InsertedMembers(list, i, o);
    forall k | 0 <= k < |list|
      ensures list[k].id != o.id
    {
      assert list[k] in list;
    }
  }

  lemma InsertedMembers(list: seq<Orphan>, i: nat, o: Orphan)
    requires i <= |list|
    ensures forall x :: x in list[..i] + [o] + list[i..] <==> x == o || x in list
  {
    assert list == list[..i] + list[i..];
  }

  /** Every message followed by the synthetic results of its group. */
  ghost function Expanded(messages: seq<Message>, groups: seq<seq<string>>, p: nat): seq<Message>
    requires |groups| == |messages| && p <= |messages|
    decreases |messages| - p
  {
    if p == |messages| then [] else [messages[p]] + Synthetic(groups[p]) + Expanded(messages, groups, p + 1)
  }

  lemma {:induction false} ExpandedWithoutGroups(messages: seq<Message>, groups: seq<seq<string>>, p: nat)
    requires |groups| == |messages| && p <= |messages|
    requires forall q | p <= q < |groups| :: groups[q] == []
    ensures Expanded(messages, groups, p) == messages[p..]
    decreases |messages| - p
  {
    if p < |messages| {
      ExpandedWithoutGroups(messages, groups, p + 1);
    }
  }

  lemma {:induction false} ExpandedInsert(
    messages: seq<Message>, groups: seq<seq<string>>, p: nat, pos: nat, id: string)
    requires |groups| == |messages| && p <= pos < |messages|
    requires forall q | p <= q < pos :: |groups[q]| == 0
    ensures var all := Expanded(messages, groups, p);
            && pos + 1 - p <= |all|
            && all[..pos + 1 - p] + [SyntheticResult(id)] + all[pos + 1 - p..]
            == Expanded(messages, groups[pos := [id] + groups[pos]], p)
    decreases pos - p
  {
    var groups' := groups[pos := [id] + groups[pos]];
    var rest := Expanded(messages, groups, p + 1);
    if p == pos {
      assert groups'[p + 1..] == groups[p + 1..];
      ExpandedAgree(messages, groups, groups', p + 1);
      SyntheticOfInserted(messages[p], id, groups[p], rest);
    } else {
      ExpandedInsert(messages, groups, p + 1, pos, id);
      assert groups'[p] == groups[p] == [];
      assert Synthetic(groups[p]) == [];
      assert Expanded(messages, groups', p) == [messages[p]] + [] + Expanded(messages, groups', p + 1);
      InsertBehindFirst(messages[p], rest, pos - p, SyntheticResult(id));
    }
  }

  lemma SyntheticOfInserted(m: Message, id: string, ids: seq<string>, rest: seq<Message>)
    ensures var all := [m] + Synthetic(ids) + rest;
            all[..1] + [SyntheticResult(id)] + all[1..] == [m] + Synthetic([id] + ids) + rest
  {
    assert Synthetic([id] + ids) == [SyntheticResult(id)] + Synthetic(ids);
  }

  lemma InsertBehindFirst(m: Message, rest: seq<Message>, n: nat, x: Message)
    requires n <= |rest|
    ensures var all := [m] + [] + rest;
            all[..n + 1] + [x] + all[n + 1..] == [m] + [] + (rest[..n] + [x] + rest[n..])
  {
  }

  lemma {:induction false} ExpandedAgree(messages: seq<Message>, a: seq<seq<string>>, b: seq<seq<string>>, p: nat)
    requires |a| == |b| == |messages| && p <= |messages|
    requires a[p..] == b[p..]
    ensures Expanded(messages, a, p) == Expanded(messages, b, p)
    decreases |messages| - p
  {
    if p < |messages| {
      assert a[p] == a[p..][0] == b[p..][0] == b[p];
      assert a[p + 1..] == a[p..][1..] == b[p..][1..] == b[p + 1..];
      ExpandedAgree(messages, a, b, p + 1);
    }
  }

  /** The groups hold exactly the listed orphans, each at its position and once. */
  ghost predicate GroupsOf(messages: seq<Message>, list: seq<Orphan>, groups: seq<seq<string>>) {
    && |groups| == |messages|
    && (forall p: nat, id | p < |groups| :: id in groups[p] <==> Orphan(id, p) in list)
    && (forall p: nat | p < |groups| :: DistinctIds(groups[p]))
  }

  ghost predicate DistinctIds(ids: seq<string>) {
    forall i, j | 0 <= i < j < |ids| :: ids[i] != ids[j]
  }

  lemma GroupsOfNext(messages: seq<Message>, list: seq<Orphan>, k: nat, groups: seq<seq<string>>)
    requires k < |list| && DistinctOrphans(list) && list[k].pos < |messages|
    requires GroupsOf(messages, list[..k], groups)
    ensures GroupsOf(messages, list[..k + 1], groups[list[k].pos := [list[k].id] + groups[list[k].pos]])
  {
    var Orphan(id, pos) := list[k];
    assert list[..k + 1] == list[..k] + [list[k]];
    assert Orphan(id, pos) !in list[..k];
    assert id !in groups[pos];
    var groups' := groups[pos := [id] + groups[pos]];
    forall p: nat, x | p < |groups|
      ensures x in groups'[p] <==> Orphan(x, p) in list[..k + 1]
    {
      assert x in groups[p] <==> Orphan(x, p) in list[..k];
    }
    forall p: nat | p < |groups|
      ensures DistinctIds(groups'[p])
    {
      assert DistinctIds(groups[p]);
    }
  }

  /** Orphans are inserted from the end, so nothing is inserted yet before the next one. */
  lemma EmptyBefore(messages: seq<Message>, list: seq<Orphan>, k: nat, groups: seq<seq<string>>)
    requires k < |list| && Descending(list) && list[k].pos < |messages|
    requires GroupsOf(messages, list[..k], groups)
    ensures forall q | 0 <= q < list[k].pos :: |groups[q]| == 0
  {
    forall q: nat | q < list[k].pos
      ensures |groups[q]| == 0
    {
      if |groups[q]| > 0 {
        LaterGroup(messages, list[..k], groups, q);
      }
    }
  }

  lemma LaterGroup(messages: seq<Message>, list: seq<Orphan>, groups: seq<seq<string>>, q: nat)
    requires GroupsOf(messages, list, groups) && q < |groups| && |groups[q]| > 0
    ensures exists i :: 0 <= i < |list| && list[i].pos == q
  {
    var id := groups[q][0];
    assert id in groups[q];
    assert Orphan(id, q) in list;
  }

  lemma GroupsAreOrphanGroups(messages: seq<Message>, list: seq<Orphan>, groups: seq<seq<string>>)
    requires GroupsOf(messages, list, groups)
    requires forall o :: o in list <==> OrphanedUse(messages, o.id) && LastUseAt(messages, o.pos, o.id)
    ensures OrphanGroups(messages, groups)
  {
    forall p: nat, id | p < |groups|
      ensures id in groups[p] <==> OrphanedUse(messages, id) && LastUseAt(messages, p, id)
    {
      var o := Orphan(id, p);
      assert o in list <==> OrphanedUse(messages, o.id) && LastUseAt(messages, o.pos, o.id);
    }
    assert forall p: nat | p < |groups| :: DistinctIds(groups[p]);
  }

  ghost function Retain(original: seq<Message>, messages: seq<Message>): seq<Message> {
    if messages == [] then [] else Keep(original, messages[0]) + Retain(original, messages[1..])
  }

  lemma {:induction false} RetainOfConcatenation(original: seq<Message>, a: seq<Message>, b: seq<Message>)
    ensures Retain(original, a + b) == Retain(original, a) + Retain(original, b)
    decreases |a|
  {
    if a == [] {
      assert a + b == b;
    } else {
      assert (a + b)[1..] == a[1..] + b;
      RetainOfConcatenation(original, a[1..], b);
    }
  }

  ghost predicate AllOrphaned(original: seq<Message>, ids: seq<string>) {
    forall k | 0 <= k < |ids| :: OrphanedUse(original, ids[k])
  }

  lemma {:induction false} RetainSynthetic(original: seq<Message>, ids: seq<string>)
    requires AllOrphaned(original, ids)
    ensures Retain(original, Synthetic(ids)) == Synthetic(ids)
    decreases |ids|
  {
    if ids != [] {
      SyntheticStays(original, ids[0]);
      RetainSynthetic(original, ids[1..]);
      RetainOfConcatenation(original, [SyntheticResult(ids[0])], Synthetic(ids[1..]));
      RetainOne(original, SyntheticResult(ids[0]));
    }
  }

  lemma SyntheticStays(original: seq<Message>, id: string)
    requires OrphanedUse(original, id)
    ensures Keep(original, SyntheticResult(id)) == [SyntheticResult(id)]
  {
    assert SyntheticResult(id).content[0] == ToolResult(id, SYNTHETIC_CONTENT);
  }

  lemma RetainOne(original: seq<Message>, m: Message)
    ensures Retain(original, [m]) == Keep(original, m)
  {
    assert [m][1..] == [];
  }

  lemma RetainPiece(original: seq<Message>, m: Message, ids: seq<string>, rest: seq<Message>)
    requires AllOrphaned(original, ids)
    ensures Retain(original, [m] + Synthetic(ids) + rest)
         == Keep(original, m) + Synthetic(ids) + Retain(original, rest)
  {
    RetainSynthetic(original, ids);
    RetainOfConcatenation(original, [m] + Synthetic(ids), rest);
    RetainOfConcatenation(original, [m], Synthetic(ids));
    RetainOne(original, m);
  }

  ghost predicate GroupsAreOrphaned(original: seq<Message>, groups: seq<seq<string>>) {
    |groups| == |original| && forall p | 0 <= p < |groups| :: AllOrphaned(original, groups[p])
  }

  lemma OrphanGroupsAreOrphaned(messages: seq<Message>, groups: seq<seq<string>>)
    requires OrphanGroups(messages, groups)
    ensures GroupsAreOrphaned(messages, groups)
  {
    forall p, k | 0 <= p < |groups| && 0 <= k < |groups[p]|
      ensures OrphanedUse(messages, groups[p][k])
    {
      assert groups[p][k] in groups[p];
    }
  }

  lemma RetainStep(original: seq<Message>, groups: seq<seq<string>>, p: nat, n: nat)
    requires GroupsAreOrphaned(original, groups) && p < |original| && n == p + 1
    requires Retain(original, Expanded(original, groups, n)) == Repaired(original, groups, n)
    ensures Retain(original, Expanded(original, groups, p)) == Repaired(original, groups, p)
  {
    assert AllOrphaned(original, groups[p]);
    RetainPiece(original, original[p], groups[p], Expanded(original, groups, n));
  }

  lemma {:induction false} RetainOfExpanded(original: seq<Message>, groups: seq<seq<string>>, p: nat)
    requires GroupsAreOrphaned(original, groups) && p <= |original|
    ensures Retain(original, Expanded(original, groups, p)) == Repaired(original, groups, p)
    decreases |original| - p
  {
    if p < |original| {
      RetainOfExpanded(original, groups, p + 1);
      RetainStep(original, groups, p, p + 1);
    }
  }
}
