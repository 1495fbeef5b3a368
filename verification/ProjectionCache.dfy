/**
 The store of run journals with its cache of unresolved effects: a cached projection
 is used as long as the stamp of its file has not changed.
 */
module ProjectionCache {
  import opened Wrappers
  import opened Utf8
  import opened Journal
  import opened Protocol

  const CACHE_LIMIT := 128

  /** Length, time and identity of a file version: `version` tells versions apart, `timed` says the time is known. */
  datatype Stamp = Stamp(version: nat, timed: bool)

  datatype StoredFile = StoredFile(content: seq<byte>, stamp: Stamp)

  datatype CachedOutcomes = CachedOutcomes(stamp: Stamp, active: map<Key, Unresolved>)

  /** What a foreign process does to a journal. */
  datatype Change = NoChange | Replaced(content: seq<byte>, timed: bool) | Deleted

  // ------------------------------------------------------------------------
  // When the cached projection survives the loss of a torn record
  // ------------------------------------------------------------------------

  ghost predicate BatchTouches(batch: seq<RunEvent>, key: Key) {
    exists i :: 0 <= i < |batch| && Touches(batch[i], key)
  }

  /** The record that the loader saw and the append dropped changes nothing, or the batch settles the same call. */
  ghost predicate TornHarmless(committed: seq<RunEvent>, torn: seq<RunEvent>, batch: seq<RunEvent>) {
    forall i | 0 <= i < |torn| ::
      || ApplyEvent(Project(committed), torn[i]) == Project(committed)
      || exists key :: Touches(torn[i], key) && BatchTouches(batch, key)
  }

  /** No complete record without its newline is in `file`, or losing it to this append makes no difference. */
  ghost predicate AppendHarmless(codec: Codec<RunEvent>, file: seq<byte>, batch: seq<RunEvent>) {
    match Replay(codec, Committed(file))
    case Err => true
    case Ok(committed) => TornHarmless(committed, TornEvents(codec, Torn(file)), batch)
  }

  lemma ApplyElsewhere(active: map<Key, Unresolved>, e: RunEvent, key: Key)
    requires !Touches(e, key)
    ensures key in ApplyEvent(active, e) <==> key in active
    ensures key in active ==> ApplyEvent(active, e)[key] == active[key]
  {
  }

  /** A batch that touches a call decides its entry; otherwise it leaves the entry alone. */
  lemma {:induction false} BatchDecides(
    m: map<Key, Unresolved>, n: map<Key, Unresolved>, batch: seq<RunEvent>, key: Key)
    ensures var m', n' := ApplyAll(m, batch), ApplyAll(n, batch);
            if BatchTouches(batch, key) then
              (key in m' <==> key in n') && (key in m' ==> m'[key] == n'[key])
            else
              (key in m' <==> key in m) && (key in m' ==> m'[key] == m[key])
              && (key in n' <==> key in n) && (key in n' ==> n'[key] == n[key])
    decreases |batch|
  {
    if batch != [] {
      var last, earlier := batch[|batch| - 1], batch[..|batch| - 1];
      BatchDecides(m, n, earlier, key);
      if !Touches(last, key) {
        ApplyElsewhere(ApplyAll(m, earlier), last, key);
        ApplyElsewhere(ApplyAll(n, earlier), last, key);
        if BatchTouches(batch, key) {
          var i :| 0 <= i < |batch| && Touches(batch[i], key);
          assert earlier[i] == batch[i];
        }
        assert BatchTouches(earlier, key) ==> BatchTouches(batch, key);
      }
    }
  }

  lemma {:induction false} ApplyAllConcatenates(m: map<Key, Unresolved>, a: seq<RunEvent>, b: seq<RunEvent>)
    ensures ApplyAll(m, a + b) == ApplyAll(ApplyAll(m, a), b)
    decreases |b|
  {
    if b == [] {
      assert a + b == a;
    } else {
      assert (a + b)[..|a + b| - 1] == a + b[..|b| - 1];
      ApplyAllConcatenates(m, a, b[..|b| - 1]);
    }
  }

  /** Replaying the dropped record or not makes no difference exactly when it is harmless. */
  lemma TornHarmlessExactly(committed: seq<RunEvent>, torn: seq<RunEvent>, batch: seq<RunEvent>)
    requires |torn| <= 1
    ensures ApplyAll(Project(committed + torn), batch) == Project(committed + batch)
       <==> TornHarmless(committed, torn, batch)
  {
    ApplyAllConcatenates(map[], committed, torn);
    ApplyAllConcatenates(map[], committed, batch);
    var p := Project(committed);
    if torn == [] {
      assert committed + torn == committed;
    } else {
      var e := torn[0];
      assert torn[..0] == [];
      var q := ApplyEvent(p, e);
      assert ApplyAll(p, torn) == q;
      forall key {
        BatchDecides(p, q, batch, key);
      }
      if TornHarmless(committed, torn, batch) {
        if q != p {
          var key :| Touches(e, key) && BatchTouches(batch, key);
          forall k
            ensures k in ApplyAll(q, batch) <==> k in ApplyAll(p, batch)
            ensures k in ApplyAll(q, batch) ==> ApplyAll(q, batch)[k] == ApplyAll(p, batch)[k]
          {
            BatchDecides(p, q, batch, k);
            if k != key {
              ApplyElsewhere(p, e, k);
            }
          }
          assert ApplyAll(q, batch) == ApplyAll(p, batch);
        }
      } else {
        DroppedRecordShows(p, e, batch);
      }
    }
  }

  lemma DroppedRecordShows(p: map<Key, Unresolved>, e: RunEvent, batch: seq<RunEvent>)
    requires ApplyEvent(p, e) != p
    requires forall key :: !(Touches(e, key) && BatchTouches(batch, key))
    ensures ApplyAll(ApplyEvent(p, e), batch) != ApplyAll(p, batch)
  {
    var key := (e.runId, e.kind.toolUseId);
    assert Touches(e, key);
    BatchDecides(p, ApplyEvent(p, e), batch, key);
  }

  function StartOf(run: RunId, id: string): RunEvent {
    RunEvent(1, 1, run, ToolStarted(id, "write", "key"))
  }

  function FinishOf(run: RunId, id: string): RunEvent {
    RunEvent(1, 2, run, ToolFinished(id, false))
  }

  function ResumedOf(run: RunId): RunEvent {
    RunEvent(1, 3, run, RunResumed)
  }

  /** A finish lost with its newline: the advanced projection says nothing is open, the journal says a call is. */
  lemma FinishIsHiddenByAdvance(run: RunId, id: string)
    ensures var started, finished, resumed := StartOf(run, id), FinishOf(run, id), ResumedOf(run);
            && Project([started, finished]) == map[] && ApplyAll(map[], [resumed]) == map[]
            && (run, id) in Project([started, resumed])
  {
    var started, finished, resumed := StartOf(run, id), FinishOf(run, id), ResumedOf(run);
    assert [started][..0] == [] && [resumed][..0] == [];
    assert [started, finished][..1] == [started] && [started, resumed][..1] == [started];
    var open := Project([started]);
    assert ApplyAll(map[], [started][..0]) == map[];
    assert open == ApplyEvent(map[], started);
    assert open == map[(run, id) := OutcomeOf(started)];
    assert Project([started, finished]) == open - {(run, id)};
  }

  /** One acknowledged record and one that lost its newline. */
  lemma LostNewline(codec: Codec<RunEvent>, a: RunEvent, b: RunEvent, c: RunEvent)
    requires ValidCodec(codec)
    ensures var file := AfterAppend(codec, AfterAppend(codec, [], [a], Complete), [b], StopAfter(|codec.encode(b)|));
            && Replay(codec, file) == Ok([a, b])
            && Replay(codec, AfterAppend(codec, file, [c], Complete)) == Ok([a, c])
  {
    hide ValidCodec, AfterAppend, Committed, Torn, TornEvents, EncodeAll, Replay, IsUtf8, Terminated;
    var first, line := EncodeAll(codec, [a]), codec.encode(b);
    var file := first + line;
    FirstRecord(codec, a);
    RecordWithoutNewline(codec, first, b);
    LoadSplits(codec, file, [a]);
    AppendExtendsReplay(codec, file, [c]);
    ReplayOfEncoded(codec, [a]);
    assert [a] + [b] == [a, b] && [a] + [c] == [a, c];
  }

  lemma FirstRecord(codec: Codec<RunEvent>, a: RunEvent)
    requires ValidCodec(codec)
    ensures AfterAppend(codec, [], [a], Complete) == EncodeAll(codec, [a])
    ensures Terminated(EncodeAll(codec, [a]))
  {
    assert Committed([]) == [] && [] + EncodeAll(codec, [a]) == EncodeAll(codec, [a]);
    ReplayOfEncoded(codec, [a]);
  }

  lemma RecordWithoutNewline(codec: Codec<RunEvent>, first: seq<byte>, b: RunEvent)
    requires ValidCodec(codec) && Terminated(first)
    ensures var line := codec.encode(b);
            && AfterAppend(codec, first, [b], StopAfter(|line|)) == first + line
            && Committed(first + line) == first && Torn(first + line) == line
            && IsUtf8(line) && TornEvents(codec, line) == [b]
  {
    var line := codec.encode(b);
    assert ValidLine(codec, b, line) && line[..|line|] == line && !codec.blank(line);
    CommittedIsUnique(first, line);
    CommittedIsUnique(first, []);
    assert first == first + [];
    assert EncodeAll(codec, [b])[..|line|] == line;
  }

  // ------------------------------------------------------------------------
  // The store
  // ------------------------------------------------------------------------

  /** What a full replay of a journal answers; a missing journal has no events. */
  ghost predicate Answers(codec: Codec<RunEvent>, files: map<string, StoredFile>, chat: string,
                          result: Result<seq<Unresolved>>)
  {
    if chat !in files then result == Ok([])
    else match Replay(codec, files[chat].content)
      case Err => result.Err?
      case Ok(events) => result.Ok? && IsListing(Project(events), result.value)
  }

  type Files = map<string, StoredFile>
  type Cache = map<string, CachedOutcomes>

  ghost function ContentOf(files: Files, chat: string): seq<byte> {
    if chat in files then files[chat].content else []
  }

  ghost predicate IsHit(files: Files, outcomes: Cache, chat: string) {
    chat in outcomes && chat in files && outcomes[chat].stamp == files[chat].stamp
  }

  /** A cached projection whose stamp still matches is the projection of the whole file. */
  ghost predicate IsCoherent(codec: Codec<RunEvent>, files: Files, outcomes: Cache, chat: string) {
    IsHit(files, outcomes, chat) ==>
      && Replay(codec, files[chat].content).Ok?
      && outcomes[chat].active == Project(Replay(codec, files[chat].content).value)
  }

  /** A change that leaves the hits other than `chat` as they were keeps every other entry coherent. */
  lemma KeepsCoherence(codec: Codec<RunEvent>, files: Files, outcomes: Cache,
                       files': Files, outcomes': Cache, chat: string)
    requires forall c :: IsCoherent(codec, files, outcomes, c)
    requires forall c | c != chat && IsHit(files', outcomes', c) ::
               IsHit(files, outcomes, c) && files'[c] == files[c] && outcomes'[c] == outcomes[c]
    ensures forall c | c != chat :: IsCoherent(codec, files', outcomes', c)
  {
    forall c | c != chat
      ensures IsCoherent(codec, files', outcomes', c)
    {
      assert IsCoherent(codec, files, outcomes, c);
    }
  }

  ghost function Advanced(outcomes: Cache, chat: string, previous: Stamp, next: Stamp, batch: seq<RunEvent>): Cache {
    if chat !in outcomes then outcomes
    else if outcomes[chat].stamp != previous then outcomes - {chat}
    else outcomes[chat := CachedOutcomes(next, ApplyAll(outcomes[chat].active, batch))]
  }

  /** After an acknowledged append the cached projection is right exactly when the dropped record was harmless. */
  lemma AcknowledgedAppendCoherence(codec: Codec<RunEvent>, files: Files, outcomes: Cache, chat: string,
                                    batch: seq<RunEvent>, next: Stamp)
    requires ValidCodec(codec) && batch != [] && chat in files
    requires IsCoherent(codec, files, outcomes, chat)
    requires chat in outcomes ==> outcomes[chat].stamp != next
    ensures var files' := files[chat := StoredFile(AfterAppend(codec, files[chat].content, batch, Complete), next)];
            var outcomes' := Advanced(outcomes, chat, files[chat].stamp, next, batch);
            && (IsHit(files', outcomes', chat) <==> IsHit(files, outcomes, chat))
            && (IsHit(files, outcomes, chat) ==>
                  (IsCoherent(codec, files', outcomes', chat) <==>
                   AppendHarmless(codec, files[chat].content, batch)))
  {
    if IsHit(files, outcomes, chat) {
      AppendedProjection(codec, files[chat].content, outcomes[chat].active, batch);
    }
  }

  /** The replay answer is one value. */
  lemma AnswerIsUnique(codec: Codec<RunEvent>, files: map<string, StoredFile>, chat: string,
                       a: Result<seq<Unresolved>>, b: Result<seq<Unresolved>>)
    requires Answers(codec, files, chat, a) && Answers(codec, files, chat, b)
    ensures a == b
  {
    if chat in files && Replay(codec, files[chat].content).Ok? {
      ListingIsUnique(Project(Replay(codec, files[chat].content).value), a.value, b.value);
    }
  }

  lemma {:induction false} ApplyAllWellKeyed(active: map<Key, Unresolved>, events: seq<RunEvent>)
    requires WellKeyed(active)
    ensures WellKeyed(ApplyAll(active, events))
    decreases |events|
  {
    if events != [] {
      ApplyAllWellKeyed(active, events[..|events| - 1]);
    }
  }

  lemma EmptyListing(active: map<Key, Unresolved>, list: seq<Unresolved>)
    requires IsListing(active, list)
    ensures active == map[] ==> list == []
  {
    if active == map[] && list != [] {
      HasMember(list);
    }
  }

  lemma RemoveShrinks<V>(m: map<string, V>, key: string)
    ensures |m - {key}| <= |m|
  {
    assert (m - {key}).Keys == m.Keys - {key};
    assert |m.Keys - {key}| <= |m.Keys|;
  }

  lemma UpdateGrowsByOne<V>(m: map<string, V>, key: string, value: V)
    ensures |m[key := value]| <= |m| + if key in m then 0 else 1
  {
    assert m[key := value].Keys == m.Keys + {key};
    if key in m {
      assert m.Keys + {key} == m.Keys;
    }
  }

  /** What the cache holds after an acknowledged append, against what the file then replays to. */
  lemma AppendedProjection(codec: Codec<RunEvent>, file: seq<byte>, active: map<Key, Unresolved>, batch: seq<RunEvent>)
    requires ValidCodec(codec) && batch != []
    requires Replay(codec, file).Ok? && active == Project(Replay(codec, file).value)
    ensures Replay(codec, Committed(file)).Ok?
    ensures Replay(codec, AfterAppend(codec, file, batch, Complete)).Ok?
    ensures ApplyAll(active, batch) == Project(Replay(codec, AfterAppend(codec, file, batch, Complete)).value)
       <==> TornHarmless(Replay(codec, Committed(file)).value, TornEvents(codec, Torn(file)), batch)
  {
    AppendExtendsReplay(codec, file, batch);
    TornHarmlessExactly(Replay(codec, Committed(file)).value, TornEvents(codec, Torn(file)), batch);
  }

  // ------------------------------------------------------------------------
  // Whole histories of the store
  // ------------------------------------------------------------------------

  type Contents = map<string, seq<byte>>

  datatype Operation =
    | Append(chat: string, events: seq<RunEvent>, fate: Fate, timed: bool)
    | Load(chat: string)
    | Foreign(chat: string, change: Change)

  ghost function ContentOrEmpty(contents: Contents, chat: string): seq<byte> {
    if chat in contents then contents[chat] else []
  }

  /** What the journals hold after these operations; the cache has no part in it. */
  ghost function ContentsAfter(codec: Codec<RunEvent>, operations: seq<Operation>): Contents {
    if operations == [] then map[]
    else
      ContentsNext(codec, ContentsAfter(codec, operations[..|operations| - 1]), operations[|operations| - 1])
  }

  ghost function ContentsNext(codec: Codec<RunEvent>, before: Contents, operation: Operation): Contents {
    match operation
    case Load(_) => before
    case Append(chat, events, fate, _) =>
      if events == [] then before
      else before[chat := AfterAppend(codec, ContentOrEmpty(before, chat), events, fate)]
    case Foreign(chat, change) =>
      match change
      case NoChange => before
      case Replaced(content, _) => before[chat := content]
      case Deleted => before - {chat}
  }

  /** No acknowledged append drops a complete record whose loss shows. */
  ghost predicate DropsNothingVisible(codec: Codec<RunEvent>, operations: seq<Operation>) {
    forall i | 0 <= i < |operations| && operations[i].Append? && operations[i].fate.Complete? ::
      AppendHarmless(codec, ContentOrEmpty(ContentsAfter(codec, operations[..i]), operations[i].chat),
                     operations[i].events)
  }

  ghost function ContentsOf(files: Files): Contents {
    map chat | chat in files :: files[chat].content
  }

  /** A full replay of the journal as it then is answers the same. */
  ghost predicate AnswersContent(codec: Codec<RunEvent>, contents: Contents, chat: string,
                                 result: Result<seq<Unresolved>>)
  {
    if chat !in contents then result == Ok([])
    else match Replay(codec, contents[chat])
      case Err => result.Err?
      case Ok(events) => result.Ok? && IsListing(Project(events), result.value)
  }

  class DiskHistory {
    const codec: Codec<RunEvent>
    var files: map<string, StoredFile>
    var outcomes: map<string, CachedOutcomes>
    /** How many file versions there have been. */
    var versions: nat

    ghost predicate Valid()
      reads this
    {
      && ValidCodec(codec)
      && |outcomes| <= CACHE_LIMIT
      && (forall chat | chat in files :: files[chat].stamp.version < versions)
      && (forall chat | chat in outcomes :: outcomes[chat].stamp.version < versions)
      && (forall chat | chat in outcomes :: WellKeyed(outcomes[chat].active))
    }

    ghost predicate Hit(chat: string)
      reads this
    {
      IsHit(files, outcomes, chat)
    }

    ghost predicate Coherent(chat: string)
      reads this
    {
      IsCoherent(codec, files, outcomes, chat)
    }

    ghost predicate AllCoherent()
      reads this
    {
      forall chat :: IsCoherent(codec, files, outcomes, chat)
    }

    constructor (codec: Codec<RunEvent>)
      requires ValidCodec(codec)
      ensures Valid() && AllCoherent() && this.codec == codec && files == map[] && outcomes == map[]
    {
      this.codec := codec;
      files := map[];
      outcomes := map[];
      versions := 0;
    }

    /** Gives a journal a new content, and with it a stamp no version had before. */
    method WriteFile(chat: string, content: seq<byte>, timed: bool)
      requires Valid()
      modifies this`files, this`versions
      ensures Valid() && versions == old(versions) + 1
      ensures files == old(files)[chat := StoredFile(content, Stamp(old(versions), timed))]
      ensures !Hit(chat)
      ensures old(AllCoherent()) ==> AllCoherent()
    {
      files := files[chat := StoredFile(content, Stamp(versions, timed))];
      versions := versions + 1;
      if old(AllCoherent()) {
        KeepsCoherence(codec, old(files), outcomes, files, outcomes, chat);
      }
    }

    method ExternalChange(chat: string, change: Change)
      requires Valid()
      modifies this`files, this`versions
      ensures Valid() && (old(AllCoherent()) ==> AllCoherent())
      ensures versions >= old(versions)
      ensures change.NoChange? ==> files == old(files)
      ensures change.Deleted? ==> files == old(files) - {chat}
      ensures change.Replaced? ==>
                && files == old(files)[chat := StoredFile(change.content, Stamp(old(versions), change.timed))]
                && !Hit(chat)
    {
      match change {
        case NoChange =>
        case Replaced(content, timed) =>
          WriteFile(chat, content, timed);
        case Deleted =>
          files := files - {chat};
          if old(AllCoherent()) {
            KeepsCoherence(codec, old(files), outcomes, files, outcomes, chat);
          }
      }
    }

    /** Appends a batch; `fate` says how far the write got and `timed` whether the new time can be read. */
    method AppendRunEvents(chat: string, events: seq<RunEvent>, chunk: nat, fate: Fate, timed: bool)
      returns (acknowledged: bool)
      requires Valid() && AllCoherent() && chunk > 0
      modifies this
      ensures Valid() && (forall c | c != chat :: IsCoherent(codec, files, outcomes, c))
      ensures acknowledged <==> events == [] || fate.Complete?
      ensures events == [] ==> files == old(files) && AllCoherent()
      ensures events != [] ==>
                && files.Keys == old(files.Keys) + {chat}
                && files[chat].content == AfterAppend(codec, old(ContentOf(files, chat)), events, fate)
                && (!fate.StopBeforeRepair? ==> files[chat].stamp.timed == timed)
                && forall c | c in old(files) && c != chat :: files[c] == old(files[c])
      ensures !acknowledged || !old(Hit(chat)) ==> Coherent(chat)
      ensures acknowledged && events != [] && old(Hit(chat)) ==>
                && Hit(chat) && outcomes[chat].active == ApplyAll(old(outcomes)[chat].active, events)
                && (Coherent(chat) <==> AppendHarmless(codec, old(files[chat].content), events))
    {
      if events == [] {
        return true;
      }
      if chat !in files {
        CreateFile(chat, timed);
      }
      acknowledged := AppendToFile(chat, events, chunk, fate, timed);
    }

    method AppendToFile(chat: string, events: seq<RunEvent>, chunk: nat, fate: Fate, timed: bool)
      returns (acknowledged: bool)
      requires Valid() && AllCoherent() && chunk > 0 && events != [] && chat in files
      modifies this
      ensures Valid() && (forall c | c != chat :: IsCoherent(codec, files, outcomes, c))
      ensures acknowledged <==> fate.Complete?
      ensures files.Keys == old(files.Keys)
      ensures files[chat].content == AfterAppend(codec, old(files[chat].content), events, fate)
      ensures !fate.StopBeforeRepair? ==> files[chat].stamp.timed == timed
      ensures forall c | c in files && c != chat :: files[c] == old(files[c])
      ensures !acknowledged ==> AllCoherent()
      ensures acknowledged ==> (Hit(chat) <==> old(Hit(chat)))
      ensures acknowledged && Hit(chat) ==>
                && outcomes[chat].active == ApplyAll(old(outcomes)[chat].active, events)
                && (Coherent(chat) <==> AppendHarmless(codec, old(files[chat].content), events))
    {
      var previousStamp := files[chat].stamp;
      ghost var files0, outcomes0 := files, outcomes;
      if fate.StopBeforeRepair? {
        return false;
      }
      hide AfterAppend, AppendHarmless;
      acknowledged := WriteBatch(chat, events, chunk, fate, timed);
      if acknowledged {
        AcknowledgedAppendCoherence(codec, files0, outcomes0, chat, events, files[chat].stamp);
        AdvanceProjection(chat, previousStamp, events);
        KeepsCoherence(codec, files0, outcomes0, files, outcomes, chat);
      }
    }

    /** Repairs the tail of a journal and writes the batch, or as much of it as `fate` allows. */
    method WriteBatch(chat: string, events: seq<RunEvent>, chunk: nat, fate: Fate, timed: bool)
      returns (acknowledged: bool)
      requires Valid() && chunk > 0 && events != [] && chat in files && !fate.StopBeforeRepair?
      modifies this`files, this`versions
      ensures Valid() && acknowledged == fate.Complete? && !Hit(chat)
      ensures files == old(files)[chat := StoredFile(AfterAppend(codec, old(files[chat].content), events, fate),
                                                     Stamp(old(versions), timed))]
      ensures old(AllCoherent()) ==> AllCoherent()
    {
      var bytes := EncodeAll(codec, events);
      var content := files[chat].content;
      if |content| > 0 && content[|content| - 1] != NL {
        var committedLength := ScanCommitted(content, chunk);
        content := content[..committedLength];
      }
      assert content == Committed(files[chat].content);
      acknowledged := fate.Complete?;
      var written := if acknowledged || fate.written > |bytes| then bytes else bytes[..fate.written];
      assert fate.StopAfter? && fate.written == |bytes| ==> written == bytes;
      WriteFile(chat, content + written, timed);
    }

    /** Applies a durable batch to the cached projection if it described the file before the batch. */
    method AdvanceProjection(chat: string, previousStamp: Stamp, events: seq<RunEvent>)
      requires Valid() && chat in files
      modifies this`outcomes
      ensures Valid()
      ensures outcomes == Advanced(old(outcomes), chat, previousStamp, files[chat].stamp, events)
    {
      if chat in outcomes {
        if outcomes[chat].stamp == previousStamp {
          var active := ApplyAll(outcomes[chat].active, events);
          ApplyAllWellKeyed(outcomes[chat].active, events);
          UpdateGrowsByOne(outcomes, chat, CachedOutcomes(files[chat].stamp, active));
          outcomes := outcomes[chat := CachedOutcomes(files[chat].stamp, active)];
        } else {
          RemoveShrinks(outcomes, chat);
          outcomes := outcomes - {chat};
        }
      }
    }

    method CreateFile(chat: string, timed: bool)
      requires Valid() && chat !in files
      requires AllCoherent()
      modifies this`files, this`versions
      ensures Valid() && AllCoherent() && !Hit(chat)
      ensures files == old(files)[chat := StoredFile([], Stamp(old(versions), timed))]
    {
      WriteFile(chat, [], timed);
    }

    /** Answers from the cache when the stamp matches, otherwise by replay; others may write around the read. */
    method LoadUnresolvedToolOutcomes(chat: string, beforeRead: Change, afterRead: Change)
      returns (result: Result<seq<Unresolved>>)
      requires Valid()
      modifies this
      ensures Valid() && (old(AllCoherent()) ==> AllCoherent())
      ensures old(Hit(chat)) ==>
                result.Ok? && IsListing(old(outcomes)[chat].active, result.value) && outcomes == old(outcomes)
      ensures chat !in old(files) ==> outcomes == old(outcomes) - {chat}
      ensures beforeRead.NoChange? && afterRead.NoChange? ==>
                && files == old(files)
                && (old(Coherent(chat)) ==> Coherent(chat) && Answers(codec, old(files), chat, result))
      ensures beforeRead.NoChange? && afterRead.NoChange? && result.Ok? && chat in files && files[chat].stamp.timed ==>
                Hit(chat)
      ensures old(Coherent(chat)) && result.Ok? ==>
                || Answers(codec, old(files), chat, result)
                || (beforeRead.Deleted? && result == Ok([]))
                || (beforeRead.Replaced?
                    && Answers(codec, map[chat := StoredFile(beforeRead.content, Stamp(0, true))], chat, result))
    {
      if chat !in files {
        RemoveShrinks(outcomes, chat);
        outcomes := outcomes - {chat};
        if old(AllCoherent()) {
          KeepsCoherence(codec, files, old(outcomes), files, outcomes, chat);
        }
        return Ok([]);
      }
      var stamp := files[chat].stamp;
      if chat in outcomes && outcomes[chat].stamp == stamp {
        var cached := new ToolOutcomeIndex();
        cached.active := outcomes[chat].active;
        var list := cached.UnresolvedCalls();
        return Ok(list);
      }
      ExternalChange(chat, beforeRead);
      var loaded, active, list := ReplayJournal(chat);
      if !loaded {
        return Err;
      }
      ghost var readFiles := files;
      ExternalChange(chat, afterRead);
      if stamp.timed {
        if chat !in files {
          return Err;
        }
        if stamp == files[chat].stamp {
          assert readFiles == files;
          RememberProjection(chat, active);
        }
      }
      return Ok(list);
    }

    /** Replays the journal as it is now; a missing journal has no events. */
    method ReplayJournal(chat: string) returns (loaded: bool, active: map<Key, Unresolved>, list: seq<Unresolved>)
      ensures loaded <==> chat !in files || Replay(codec, files[chat].content).Ok?
      ensures loaded ==> active == if chat in files then Project(Replay(codec, files[chat].content).value) else map[]
      ensures loaded ==> WellKeyed(active) && IsListing(active, list)
      ensures Answers(codec, files, chat, if loaded then Ok(list) else Err)
    {
      var events: seq<RunEvent> := [];
      if chat in files {
        var file := new JournalFile<RunEvent>(codec);
        file.content := files[chat].content;
        var result := file.LoadRunEvents();
        if result.Err? {
          return false, map[], [];
        }
        events := result.value;
      }
      var index := new ToolOutcomeIndex();
      for i := 0 to |events|
        invariant index.active == Project(events[..i])
      {
        assert events[..i + 1][..i] == events[..i];
        index.Apply(events[i]);
      }
      assert events[..|events|] == events;
      ProjectIsWellKeyed(events);
      list := index.UnresolvedCalls();
      EmptyListing(index.active, list);
      return true, index.active, list;
    }

    /** Caches a projection of the current file; a full cache is emptied first. */
    method RememberProjection(chat: string, active: map<Key, Unresolved>)
      requires Valid() && chat in files && WellKeyed(active)
      requires Replay(codec, files[chat].content).Ok? && active == Project(Replay(codec, files[chat].content).value)
      modifies this`outcomes
      ensures Valid() && Hit(chat) && Coherent(chat) && (old(AllCoherent()) ==> AllCoherent())
      ensures outcomes == (if |old(outcomes)| < 128 then old(outcomes) else map[])[
                            chat := CachedOutcomes(files[chat].stamp, active)]
    {
      if |outcomes| >= CACHE_LIMIT {
        outcomes := map[];
      }
      UpdateGrowsByOne(outcomes, chat, CachedOutcomes(files[chat].stamp, active));
      outcomes := outcomes[chat := CachedOutcomes(files[chat].stamp, active)];
      if old(AllCoherent()) {
        KeepsCoherence(codec, files, old(outcomes), files, outcomes, chat);
      }
    }

    method AppendHarmlessly(chat: string, events: seq<RunEvent>, chunk: nat, fate: Fate, timed: bool)
      requires Valid() && AllCoherent() && chunk > 0
      requires fate.Complete? ==> AppendHarmless(codec, ContentOf(files, chat), events)
      modifies this
      ensures Valid() && AllCoherent()
      ensures ContentsOf(files) == ContentsNext(codec, ContentsOf(old(files)), Append(chat, events, fate, timed))
    {
      hide AfterAppend, IsCoherent, AppendHarmless;
      ghost var before := files;
      var _ := AppendRunEvents(chat, events, chunk, fate, timed);
      assert ContentOf(before, chat) == if chat in before then before[chat].content else [];
      forall c
        ensures IsCoherent(codec, files, outcomes, c)
      {
        if c != chat {
          assert Coherent(c);
        } else if events != [] {
          assert Coherent(chat);
        }
      }
    }

    /** Performs one operation; only a load has an answer. */
    method Perform(operation: Operation, chunk: nat) returns (answer: Option<Result<seq<Unresolved>>>)
      requires Valid() && AllCoherent() && chunk > 0
      requires operation.Append? && operation.fate.Complete? ==>
                 AppendHarmless(codec, ContentOf(files, operation.chat), operation.events)
      modifies this
      ensures Valid() && AllCoherent()
      ensures ContentsOf(files) == ContentsNext(codec, ContentsOf(old(files)), operation)
      ensures operation.Load? ==>
                answer.Some? && AnswersContent(codec, ContentsOf(old(files)), operation.chat, answer.value)
    {
      hide AfterAppend, IsCoherent, IsHit, AppendHarmless;
      answer := None;
      match operation
      case Append(chat, events, fate, timed) => AppendHarmlessly(chat, events, chunk, fate, timed);
      case Load(chat) =>
        var result := LoadUnresolvedToolOutcomes(chat, NoChange, NoChange);
        answer := Some(result);
      case Foreign(chat, change) => ExternalChange(chat, change);
    }

    /**
     Over any history of appends, failed appends, loads and foreign changes, every load answers what a full
     replay of the journal would answer, as long as no append drops a record whose loss shows.
     */
    method Serve(operations: seq<Operation>, chunk: nat) returns (answers: seq<Option<Result<seq<Unresolved>>>>)
      requires Valid() && files == map[] && outcomes == map[] && chunk > 0
      requires DropsNothingVisible(codec, operations)
      modifies this
      ensures Valid() && |answers| == |operations|
      ensures forall i | 0 <= i < |operations| :: LoadAnswers(codec, operations, i, answers[i])
    {
      assert operations[..0] == [] && ContentsOf(files) == ContentsAfter(codec, operations[..0]);
      answers := ServeAll(operations, chunk);
    }

    method ServeAll(operations: seq<Operation>, chunk: nat) returns (answers: seq<Option<Result<seq<Unresolved>>>>)
      requires Valid() && AllCoherent() && chunk > 0
      requires ContentsOf(files) == ContentsAfter(codec, operations[..0])
      requires DropsNothingVisible(codec, operations)
      modifies this
      ensures Valid() && |answers| == |operations|
      ensures forall i | 0 <= i < |operations| :: LoadAnswers(codec, operations, i, answers[i])
    {
      hide ContentsNext, ContentsAfter, ContentsOf, ContentOf, ContentOrEmpty, DropsNothingVisible;
      hide IsCoherent, AppendHarmless, LoadAnswers;
      answers := [];
      for i := 0 to |operations|
        invariant Valid() && AllCoherent() && |answers| == i
        invariant ContentsOf(files) == ContentsAfter(codec, operations[..i])
        invariant forall j | 0 <= j < i :: LoadAnswers(codec, operations, j, answers[j])
      {
        ghost var contents := ContentsOf(files);
        NextContents(codec, operations, i);
        ContentLookup(files, operations[i].chat);
        var answer := Perform(operations[i], chunk);
        LoadIsAnswered(codec, operations, i, contents, answer);
        answers := answers + [answer];
      }
    }
  }

  /** The answer to operation `i`, if it is a load, is that of a full replay at that time. */
  ghost predicate LoadAnswers(codec: Codec<RunEvent>, operations: seq<Operation>, i: nat,
                              answer: Option<Result<seq<Unresolved>>>)
    requires i < |operations|
  {
    operations[i].Load? ==>
      && answer.Some?
      && AnswersContent(codec, ContentsAfter(codec, operations[..i]), operations[i].chat, answer.value)
  }

  lemma ContentLookup(files: Files, chat: string)
    ensures ContentOf(files, chat) == ContentOrEmpty(ContentsOf(files), chat)
  {
  }

  lemma NextContents(codec: Codec<RunEvent>, operations: seq<Operation>, i: nat)
    requires i < |operations| && DropsNothingVisible(codec, operations)
    ensures ContentsAfter(codec, operations[..i + 1])
         == ContentsNext(codec, ContentsAfter(codec, operations[..i]), operations[i])
    ensures operations[i].Append? && operations[i].fate.Complete? ==>
              AppendHarmless(codec, ContentOrEmpty(ContentsAfter(codec, operations[..i]), operations[i].chat),
                             operations[i].events)
  {
    assert operations[..i + 1][..i] == operations[..i];
  }

  lemma LoadIsAnswered(codec: Codec<RunEvent>, operations: seq<Operation>, i: nat, contents: Contents,
                       answer: Option<Result<seq<Unresolved>>>)
    requires i < |operations| && contents == ContentsAfter(codec, operations[..i])
    requires operations[i].Load? ==>
               answer.Some? && AnswersContent(codec, contents, operations[i].chat, answer.value)
    ensures LoadAnswers(codec, operations, i, answer)
  {
  }

  lemma HitIsProjection(codec: Codec<RunEvent>, files: Files, outcomes: Cache, chat: string)
    requires IsHit(files, outcomes, chat) && IsCoherent(codec, files, outcomes, chat)
    ensures Replay(codec, files[chat].content).Ok?
    ensures outcomes[chat].active == Project(Replay(codec, files[chat].content).value)
  {
  }

  /** A start is appended, its finish loses the newline to a crash, and a load caches what the loader then sees. */
  method LoseNewlineOfFinish(codec: Codec<RunEvent>, chat: string, run: RunId, id: string, chunk: nat)
    returns (store: DiskHistory)
    requires ValidCodec(codec) && chunk > 0
    ensures fresh(store) && store.codec == codec && store.Valid() && store.AllCoherent() && store.Hit(chat)
    ensures store.files[chat].content
         == AfterAppend(codec, AfterAppend(codec, [], [StartOf(run, id)], Complete), [FinishOf(run, id)],
                        StopAfter(|codec.encode(FinishOf(run, id))|))
  {
    hide AfterAppend, AppendHarmless, ValidCodec, Replay, ApplyAll, Project, IsCoherent;
    var finished := FinishOf(run, id);
    LostNewline(codec, StartOf(run, id), finished, ResumedOf(run));
    store := new DiskHistory(codec);
    var _ := store.AppendRunEvents(chat, [StartOf(run, id)], chunk, Complete, true);
    var _ := store.AppendRunEvents(chat, [finished], chunk, StopAfter(|codec.encode(finished)|), true);
    var _ := store.LoadUnresolvedToolOutcomes(chat, NoChange, NoChange);
  }

  /**
   The next append then drops the finish: from there on a load says that nothing is open, and a replay of the file
   that the call is.
   */
  method DropFinish(codec: Codec<RunEvent>, chat: string, run: RunId, id: string, chunk: nat)
    returns (content: seq<byte>, cached: Result<seq<Unresolved>>)
    requires ValidCodec(codec) && chunk > 0
    ensures cached == Ok([])
    ensures Replay(codec, content) == Ok([StartOf(run, id), ResumedOf(run)])
    ensures (run, id) in Project([StartOf(run, id), ResumedOf(run)])
  {
    hide AfterAppend, AppendHarmless, ValidCodec, Replay, ApplyAll, Project, IsCoherent;
    FinishIsHiddenByAdvance(run, id);
    LostNewline(codec, StartOf(run, id), FinishOf(run, id), ResumedOf(run));
    var store := LoseNewlineOfFinish(codec, chat, run, id, chunk);
    HitIsProjection(codec, store.files, store.outcomes, chat);
    var _ := store.AppendRunEvents(chat, [ResumedOf(run)], chunk, Complete, true);
    cached := store.LoadUnresolvedToolOutcomes(chat, NoChange, NoChange);
    EmptyListing(map[], cached.value);
    content := store.files[chat].content;
  }
}
