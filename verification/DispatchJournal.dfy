/** The journal of the dispatch protocol is the byte-level journal, as its loader sees it. */
module DispatchJournal {
  import opened Wrappers
  import opened Utf8
  import opened Journal
  import opened Protocol
  import opened Dispatch

  /** The appends of this protocol are the appends of the byte-level journal, as its loader sees them. */
  lemma AppendRefinesJournal(codec: Codec<RunEvent>, file: seq<byte>, batch: seq<RunEvent>, fate: Fate, s: State)
    returns (modelled: AppendFate)
    requires ValidCodec(codec) && batch != []
    requires Replay(codec, Committed(file)) == Ok(s.committed) && TornEvents(codec, Torn(file)) == s.torn
    ensures var file' := AfterAppend(codec, file, batch, fate);
            && Replay(codec, Committed(file')) == Ok(Journaled(s, batch, modelled).committed)
            && TornEvents(codec, Torn(file')) == Journaled(s, batch, modelled).torn
    ensures fate.Complete? ==> modelled.Done?
  {
    hide ValidCodec, Replay, EncodeAll, Committed, Torn;
    if fate.StopBeforeRepair? {
      modelled := NotRepaired;
    } else {
      var file' := AfterAppend(codec, file, batch, fate);
      var m := KeptOf(codec, Attempt(batch, fate));
      RepairedFileReplays(codec, file, batch, fate, s.committed);
      if fate.Complete? {
        modelled := Done;
        assert batch[..m] == batch;
        CompleteLeavesNoTail(codec, file, batch);
      } else {
        modelled := AppendFate.Partial(m, TornEvents(codec, Torn(file')) != []);
        if TornEvents(codec, Torn(file')) != [] {
          OnlyWholeRecordsDecode(codec, batch[m], Torn(file'));
        }
      }
    }
  }

  lemma RepairedFileReplays(
    codec: Codec<RunEvent>, file: seq<byte>, batch: seq<RunEvent>, fate: Fate, before: seq<RunEvent>)
    requires ValidCodec(codec) && batch != [] && !fate.StopBeforeRepair?
    requires Replay(codec, Committed(file)) == Ok(before)
    ensures var attempt := Attempt(batch, fate);
            var file' := AfterAppend(codec, file, batch, fate);
            && Replay(codec, Committed(file')) == Ok(before + batch[..KeptOf(codec, attempt)])
            && (Torn(file') != [] ==> TornFrom(codec, attempt, Torn(file')))
  {
    var m := KeptOf(codec, Attempt(batch, fate));
    LastAppend(codec, file, Attempt(batch, fate));
    ReplayOfEncoded(codec, batch[..m]);
    ReplayPrepends(codec, Committed(file), EncodeAll(codec, batch[..m]));
  }
}
