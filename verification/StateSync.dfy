/**
 * The worker that mirrors durable state files to the swarm: what it has sent, which pushes it retries
 * and when. Every key is handled on its own, so a run is studied key by key.
 */
module StateSync {
  import opened Wrappers
  import opened Utf8

  // Times are in milliseconds.
  const SYNC_INTERVAL: nat := 5_000
  const MAX_TRANSIENT_BACKOFF: nat := 600_000
  const MAX_SYNC_FILE_BYTES: nat := 5 * 1024 * 1024
  const U32_MAX: nat := 0xFFFF_FFFF

  function Min(a: nat, b: nat): nat {
    if a <= b then a else b
  }

  function PowerOfTwo(n: nat): (p: nat)
    ensures p >= n + 1
  {
    if n == 0 then 1 else 2 * PowerOfTwo(n - 1)
  }

  function TransientBackoff(failures: nat): nat {
    Min(SYNC_INTERVAL * PowerOfTwo(Min(failures, 16)), MAX_TRANSIENT_BACKOFF)
  }

  /** The delay doubles from one failure to the next until it meets the ceiling; the exponent cap is never felt. */
  lemma BackoffDoubles(failures: nat)
    ensures TransientBackoff(0) == 5_000
    ensures TransientBackoff(failures + 1)
            == if TransientBackoff(failures) < 300_000 then 2 * TransientBackoff(failures) else 600_000
  {
    if failures >= 15 {
      assert PowerOfTwo(15) == 2 * PowerOfTwo(14) && PowerOfTwo(14) == 2 * PowerOfTwo(13);
      assert PowerOfTwo(13) == 2 * PowerOfTwo(12) && PowerOfTwo(12) == 2 * PowerOfTwo(11);
      assert PowerOfTwo(11) == 2 * PowerOfTwo(10) && PowerOfTwo(10) >= 11;
    }
  }

  datatype Stamp = Stamp(len: nat, modified: nat)

  datatype RetryState = RetryState(rejectedStamp: Option<Stamp>, failures: nat, nextAttempt: nat)

  datatype PushOutcome = Accepted | Rejected | Transient

  /** What came back for a post: an HTTP status, or nothing. */
  datatype Answer = Status(code: nat) | TransportError

  function Classify(answer: Answer, deleted: bool): PushOutcome {
    match answer
    case TransportError => Transient
    case Status(code) =>
      if 200 <= code < 300 then Accepted
      else if deleted && (code == 404 || code == 410) then Accepted
      else if code == 400 || code == 413 || code == 415 || code == 422 then Rejected
      else Transient
  }

  /** One post: the clock when eligibility was checked, the answer, and the clock when it was recorded. */
  datatype Push = Push(asked: nat, answer: Answer, answered: nat)

  /** What the worker knows about one key, and what the swarm holds under it. */
  datatype Entry = Entry(sent: Option<Stamp>, retry: Option<RetryState>, remote: Option<seq<byte>>)

  /** One visit to a key: bookkeeping dropped on reconfiguration, or one cycle with the file there or gone. */
  datatype Turn =
    | Cleared
    | Found(stamp: Stamp, body: Option<seq<byte>>, push: Push)
    | Missing(push: Push)

  function Noted(retry: Option<RetryState>, stamp: Stamp, outcome: PushOutcome, now: nat): Option<RetryState> {
    match outcome
    case Accepted => None
    case Rejected => Some(RetryState(Some(stamp), 0, now))
    case Transient =>
      var failures := Min((if retry.Some? then retry.value.failures else 0) + 1, U32_MAX);
      Some(RetryState(None, failures, now + TransientBackoff(failures)))
  }

  predicate EligibleAt(retry: Option<RetryState>, stamp: Option<Stamp>, now: nat) {
    match retry
    case None => true
    case Some(state) =>
      if state.rejectedStamp.Some? then stamp.Some? && state.rejectedStamp != stamp
      else now >= state.nextAttempt
  }

  predicate Attempts(e: Entry, t: Turn) {
    match t
    case Cleared => false
    case Found(stamp, body, push) =>
      && e.sent != Some(stamp)
      && stamp.len <= MAX_SYNC_FILE_BYTES
      && EligibleAt(e.retry, Some(stamp), push.asked)
      && body.Some?
      && |body.value| <= MAX_SYNC_FILE_BYTES
    case Missing(push) => e.sent.Some? && EligibleAt(e.retry, None, push.asked)
  }

  /** The turn ends in a post that was answered with `outcome`. */
  predicate Posts(e: Entry, t: Turn, outcome: PushOutcome) {
    Attempts(e, t) && Classify(t.push.answer, t.Missing?) == outcome
  }

  function Step(e: Entry, t: Turn): Entry {
    match t
    case Cleared => e.(sent := None, retry := None)
    case Found(stamp, body, push) =>
      if e.sent == Some(stamp) then e.(retry := None)
      else if !Attempts(e, t) then e
      else
        var outcome := Classify(push.answer, false);
        var noted := e.(retry := Noted(e.retry, stamp, outcome, push.answered));
        if outcome.Accepted? then noted.(sent := Some(stamp), remote := body) else noted
    case Missing(push) =>
      if !Attempts(e, t) then e
      else
        match Classify(push.answer, true)
        case Accepted => Entry(None, None, None)
        case Rejected => Entry(None, None, e.remote)
        case Transient => e.(retry := Noted(e.retry, Stamp(0, push.asked), Transient, push.answered))
  }

  function After(e: Entry, turns: seq<Turn>): Entry {
    if turns == [] then e else Step(After(e, turns[..|turns| - 1]), turns[|turns| - 1])
  }

  lemma NothingToDelete(e: Entry, push: Push)
    requires e.sent.None?
    ensures Step(e, Missing(push)) == e
  {
  }

  // ---- What one visit does --------------------------------------------------------------------------

  /** A file is held back while its stamp is the rejected one, a deletion by any rejection, both by a delay. */
  predicate HeldBack(e: Entry, t: Turn)
    requires !t.Cleared?
  {
    && e.retry.Some?
    && if e.retry.value.rejectedStamp.Some? then t.Missing? || e.retry.value.rejectedStamp == Some(t.stamp)
       else t.push.asked < e.retry.value.nextAttempt
  }

  /** The swarm has the post: any success, and for a deletion also that there was nothing to delete. */
  predicate Taken(t: Turn)
    requires !t.Cleared?
  {
    t.push.answer.Status? && (200 <= t.push.answer.code <= 299 || (t.Missing? && t.push.answer.code in {404, 410}))
  }

  /** The swarm will never take this content. */
  predicate Refused(t: Turn)
    requires !t.Cleared?
  {
    t.push.answer.Status? && t.push.answer.code in {400, 413, 415, 422}
  }

  /**
   * When a visit to a key posts, and what it leaves behind for every answer; any answer that neither takes nor
   * refuses the post counts one more failure and delays the next post.
   */
  lemma TurnMeaning(e: Entry, t: Turn)
    requires !t.Cleared?
    ensures Attempts(e, t) <==>
            !HeldBack(e, t) && if t.Missing? then e.sent.Some?
                               else && e.sent != Some(t.stamp) && t.stamp.len <= 5_242_880
                                    && t.body.Some? && |t.body.value| <= 5_242_880
    ensures !Attempts(e, t) ==>
              Step(e, t) == if t.Found? && e.sent == Some(t.stamp) then e.(retry := None) else e
    ensures Attempts(e, t) && Taken(t) ==>
              Step(e, t) == if t.Missing? then Entry(None, None, None) else Entry(Some(t.stamp), None, t.body)
    ensures Attempts(e, t) && Refused(t) ==>
              Step(e, t) == if t.Missing? then Entry(None, None, e.remote)
                            else e.(retry := Some(RetryState(Some(t.stamp), 0, t.push.answered)))
    ensures Attempts(e, t) && !Taken(t) && !Refused(t) ==>
              var counted := if e.retry.Some? then e.retry.value.failures else 0;
              var failures := if counted < U32_MAX then counted + 1 else U32_MAX;
              Step(e, t) == e.(retry := Some(RetryState(None, failures,
                                                        t.push.answered + TransientBackoff(failures))))
  {
    hide TransientBackoff;
  }

  // ---- What is recorded as sent ---------------------------------------------------------------------

  predicate AcceptsFile(e: Entry, t: Turn, stamp: Stamp) {
    t.Found? && t.stamp == stamp && Posts(e, t, Accepted)
  }

  /** The turn changes what is recorded as sent: it is dropped, replaced or deleted. */
  predicate Forgets(e: Entry, t: Turn) {
    || t.Cleared?
    || (t.Found? && Posts(e, t, Accepted))
    || (t.Missing? && (Posts(e, t, Accepted) || Posts(e, t, Rejected)))
  }

  ghost predicate LastAccepted(e: Entry, turns: seq<Turn>, i: nat, stamp: Stamp) {
    && i < |turns|
    && AcceptsFile(After(e, turns[..i]), turns[i], stamp)
    && forall j | i < j < |turns| :: !Forgets(After(e, turns[..j]), turns[j])
  }

  /**
   * A stamp is recorded as sent exactly when the swarm accepted the file at that stamp and nothing since
   * replaced it, deleted it or cleared the record.
   */
  lemma {:induction false} SentExactly(e: Entry, turns: seq<Turn>, stamp: Stamp)
    requires e.sent.None?
    ensures After(e, turns).sent == Some(stamp) <==> exists i: nat :: LastAccepted(e, turns, i, stamp)
  {
    if turns != [] {
      var n := |turns| - 1;
      SentExactly(e, turns[..n], stamp);
      SentAfterTurn(After(e, turns[..n]), turns[n], stamp);
      if i: nat :| LastAccepted(e, turns[..n], i, stamp) && !Forgets(After(e, turns[..n]), turns[n]) {
        LastAcceptedGrows(e, turns, i, stamp);
      }
      if AcceptsFile(After(e, turns[..n]), turns[n], stamp) {
        LastAcceptedGrows(e, turns, n, stamp);
      }
      if i: nat :| LastAccepted(e, turns, i, stamp) {
        LastAcceptedGrows(e, turns, i, stamp);
      }
    }
  }

  lemma SentAfterTurn(e: Entry, t: Turn, stamp: Stamp)
    ensures Step(e, t).sent == Some(stamp)
            <==> AcceptsFile(e, t, stamp) || (e.sent == Some(stamp) && !Forgets(e, t))
  {
  }

  lemma LastAcceptedGrows(e: Entry, turns: seq<Turn>, i: nat, stamp: Stamp)
    requires turns != []
    ensures var n := |turns| - 1;
            LastAccepted(e, turns, i, stamp)
            <==> (i == n && AcceptsFile(After(e, turns[..n]), turns[n], stamp))
                 || (LastAccepted(e, turns[..n], i, stamp) && !Forgets(After(e, turns[..n]), turns[n]))
  {
    var n := |turns| - 1;
    var before := turns[..n];
    assert forall j | 0 <= j <= n :: before[..j] == turns[..j];
    assert forall j | 0 <= j < n :: before[j] == turns[j];
  }

  // ---- Rejected files -------------------------------------------------------------------------------

  predicate Parked(e: Entry, stamp: Stamp) {
    && e.sent != Some(stamp)
    && e.retry.Some?
    && e.retry.value.rejectedStamp == Some(stamp)
  }

  predicate Unchanged(t: Turn, stamp: Stamp) {
    t.Missing? || (t.Found? && t.stamp == stamp)
  }

  /** A rejected file is not posted again, nor its deletion, for as long as no other stamp is seen. */
  lemma {:induction false} RejectedStaysParked(e: Entry, first: Turn, turns: seq<Turn>, j: nat)
    requires first.Found? && Posts(e, first, Rejected)
    requires j <= |turns| && forall k | 0 <= k < |turns| :: Unchanged(turns[k], first.stamp)
    ensures After(Step(e, first), turns[..j]) == Step(e, first) && Parked(Step(e, first), first.stamp)
    ensures j < |turns| ==> !Attempts(After(Step(e, first), turns[..j]), turns[j])
  {
    if j > 0 {
      RejectedStaysParked(e, first, turns, j - 1);
      assert turns[..j][..j - 1] == turns[..j - 1];
    } else {
      assert turns[..0] == [];
    }
  }

  /**
   * Once any other stamp is seen, the file is posted again exactly when it was not sent at that stamp before, can
   * be read and is within the limit.
   */
  lemma EditAfterRejectionIsPosted(e: Entry, first: Turn, turns: seq<Turn>, edit: Turn)
    requires first.Found? && Posts(e, first, Rejected)
    requires forall k | 0 <= k < |turns| :: Unchanged(turns[k], first.stamp)
    requires edit.Found? && edit.stamp != first.stamp
    ensures Attempts(After(Step(e, first), turns), edit) <==>
            && e.sent != Some(edit.stamp) && edit.stamp.len <= 5_242_880
            && edit.body.Some? && |edit.body.value| <= 5_242_880
  {
    RejectedStaysParked(e, first, turns, |turns|);
    assert turns[..|turns|] == turns;
  }

  /** A gone file that was sent leaves the swarm once an accepting answer meets no rejection and no delay. */
  lemma {:induction false} DeletionArrivesExactly(e: Entry, gone: seq<Turn>)
    requires e.sent.Some? && e.remote.Some?
    requires forall k | 0 <= k < |gone| :: gone[k].Missing? && Classify(gone[k].push.answer, true) == Accepted
    ensures After(e, gone).remote.None?
            <==> exists k :: 0 <= k < |gone| && EligibleAt(e.retry, None, gone[k].push.asked)
    ensures After(e, gone).remote.Some? ==> After(e, gone) == e
  {
    if gone != [] {
      var n := |gone| - 1;
      DeletionArrivesExactly(e, gone[..n]);
      if k :| 0 <= k < n && EligibleAt(e.retry, None, gone[k].push.asked) {
        assert gone[..n][k] == gone[k];
      }
      GoneStaysGone(After(e, gone[..n]), gone[n]);
    }
  }

  lemma GoneStaysGone(e: Entry, t: Turn)
    ensures t.Missing? && e.remote.None? ==> Step(e, t).remote.None?
  {
  }

  /**
   A file that was mirrored, edited into something the swarm rejects, and then removed stays on the swarm:
   the rejection stands against the tombstone too, however often it is due.
   */
  lemma {:induction false} RejectedEditHidesDeletion(e: Entry, edit: Turn, gone: seq<Turn>)
    requires e.sent.Some? && edit.Found? && Posts(e, edit, Rejected)
    requires forall k | 0 <= k < |gone| :: gone[k].Missing?
    ensures After(Step(e, edit), gone).remote == e.remote && After(Step(e, edit), gone).sent == e.sent
  {
    RejectedStaysParked(e, edit, gone, |gone|);
    assert gone[..|gone|] == gone;
  }

  // ---- Transient failures ---------------------------------------------------------------------------

  /** No reset and no answered post: every post in these turns fails transiently. */
  predicate OnlyTransient(e: Entry, turns: seq<Turn>)
    decreases |turns|
  {
    turns == []
    || (var t := turns[0];
        && !t.Cleared?
        && !(t.Found? && e.sent == Some(t.stamp))
        && (Attempts(e, t) ==> Posts(e, t, Transient))
        && OnlyTransient(Step(e, t), turns[1..]))
  }

  /** The posts made in these turns, in order. */
  function Pushes(e: Entry, turns: seq<Turn>): seq<Push>
    decreases |turns|
  {
    if turns == [] then []
    else (if Attempts(e, turns[0]) then [turns[0].push] else []) + Pushes(Step(e, turns[0]), turns[1..])
  }

  /** The delays after failures `from`, `from + 1`, ... , `from + count - 1`. */
  function TotalDelay(from: nat, count: nat): nat
    decreases count
  {
    if count == 0 then 0 else TransientBackoff(from) + TotalDelay(from + 1, count - 1)
  }

  predicate ClockMovesForward(turns: seq<Turn>) {
    forall k | 0 <= k < |turns| && !turns[k].Cleared? :: turns[k].push.asked <= turns[k].push.answered
  }

  /**
   * From a key with no failures counted, the retry number `k` of an unbroken row of transient failures is
   * made no earlier than the first failure plus the delays of all the failures before it.
   */
  lemma {:induction false} RetriesBackOff(e: Entry, turns: seq<Turn>, k: nat)
    requires e.retry.None? || e.retry.value.failures == 0
    requires OnlyTransient(e, turns) && ClockMovesForward(turns)
    requires k < |Pushes(e, turns)|
    ensures k > 0 ==> Pushes(e, turns)[k].asked >= Pushes(e, turns)[0].answered + TotalDelay(1, k)
  {
    var rest := Step(e, turns[0]);
    if Attempts(e, turns[0]) {
      if k > 0 {
        RetriesWait(rest, turns[1..], 1, k - 1);
      }
    } else {
      RetriesBackOff(rest, turns[1..], k);
    }
  }

  lemma {:induction false} RetriesWait(e: Entry, turns: seq<Turn>, failures: nat, k: nat)
    requires 0 < failures && e.retry.Some? && e.retry.value.rejectedStamp.None?
    requires e.retry.value.failures == Min(failures, U32_MAX)
    requires OnlyTransient(e, turns) && ClockMovesForward(turns)
    requires k < |Pushes(e, turns)|
    ensures Pushes(e, turns)[k].asked
            >= e.retry.value.nextAttempt - TransientBackoff(failures) + TotalDelay(failures, k + 1)
    decreases |turns|
  {
    var rest := Step(e, turns[0]);
    if Attempts(e, turns[0]) {
      if k > 0 {
        RetriesWait(rest, turns[1..], failures + 1, k - 1);
      }
    } else {
      RetriesWait(rest, turns[1..], failures, k);
    }
  }

  // ---- The mirror -----------------------------------------------------------------------------------

  /** The bytes read are those the stamp stands for. */
  predicate Honest(t: Turn, content: Stamp -> seq<byte>) {
    t.Found? && t.body.Some? ==> t.body.value == content(t.stamp)
  }

  predicate Mirrored(e: Entry, content: Stamp -> seq<byte>) {
    e.sent.Some? ==> e.remote == Some(content(e.sent.value))
  }

  /**
   In every run the swarm holds what is recorded as sent exactly when the last accepted post, unless something
   since dropped its record, carried the bytes its stamp stands for.
   */
  lemma {:induction false} SentIsMirroredExactly(e: Entry, turns: seq<Turn>, content: Stamp -> seq<byte>)
    requires Mirrored(e, content)
    ensures Mirrored(After(e, turns), content)
            <==> forall i: nat, stamp | LastAccepted(e, turns, i, stamp) :: Honest(turns[i], content)
  {
    if turns != [] {
      var n := |turns| - 1;
      var before, t := After(e, turns[..n]), turns[n];
      SentIsMirroredExactly(e, turns[..n], content);
      MirroredAfterTurn(before, t, content);
      forall i: nat, stamp
        ensures LastAccepted(e, turns, i, stamp)
                <==> (i == n && AcceptsFile(before, t, stamp))
                     || (LastAccepted(e, turns[..n], i, stamp) && !Forgets(before, t))
      {
        LastAcceptedGrows(e, turns, i, stamp);
      }
      if t.Found? && Posts(before, t, Accepted) {
        assert LastAccepted(e, turns, n, t.stamp);
      }
    }
  }

  lemma MirroredAfterTurn(e: Entry, t: Turn, content: Stamp -> seq<byte>)
    ensures Mirrored(Step(e, t), content)
            <==> (if t.Found? && Posts(e, t, Accepted) then Honest(t, content)
                  else Forgets(e, t) || Mirrored(e, content))
  {
  }

  /**
   * With no retry pending, one turn with an accepting answer makes the swarm agree with the disk: a file
   * within the limit is there with its bytes, and a file that was sent and is gone is gone there too.
   */
  lemma AcceptingTurnMirrors(e: Entry, t: Turn, content: Stamp -> seq<byte>)
    requires Mirrored(e, content) && Honest(t, content) && e.retry.None?
    requires !t.Cleared? && Classify(t.push.answer, t.Missing?) == Accepted
    ensures t.Found? && t.body.Some? && t.stamp.len <= MAX_SYNC_FILE_BYTES && |t.body.value| <= MAX_SYNC_FILE_BYTES
            ==> Step(e, t).remote == t.body && Step(e, t).sent == Some(t.stamp)
    ensures t.Missing? && e.sent.Some? ==> Step(e, t).remote.None? && Step(e, t).sent.None?
    ensures Step(e, t).retry.None? && Mirrored(Step(e, t), content)
  {
  }

  // ---- The worker -----------------------------------------------------------------------------------

  datatype Namespace = Workspace | Chats

  function NameOf(namespace: Namespace): (name: string)
    ensures ':' !in name
  {
    if namespace.Workspace? then "workspace" else "chats"
  }

  function KeyOf(namespace: Namespace, relPath: string): string {
    NameOf(namespace) + ":" + relPath
  }

  /** The parts before and after the first colon. */
  function SplitOnce(key: string): (parts: Option<(string, string)>)
    ensures parts.None? <==> ':' !in key
    ensures parts.Some? ==> parts.value.0 + ":" + parts.value.1 == key && ':' !in parts.value.0
  {
    if key == "" then None
    else if key[0] == ':' then
      assert key == "" + ":" + key[1..];
      Some(("", key[1..]))
    else
      var rest := SplitOnce(key[1..]);
      assert key == [key[0]] + key[1..];
      if rest.None? then None
      else
        assert [key[0]] + rest.value.0 + ":" + rest.value.1 == [key[0]] + (rest.value.0 + ":" + rest.value.1);
        Some(([key[0]] + rest.value.0, rest.value.1))
  }

  function TombstoneNamespace(name: string): Namespace {
    if name == "workspace" then Workspace else Chats
  }

  predicate IsFileKey(key: string) {
    SplitOnce(key).Some? && SplitOnce(key).value.0 == NameOf(TombstoneNamespace(SplitOnce(key).value.0))
  }

  /** A tombstone, whose namespace and path are cut back out of the key, names the file the key was made for. */
  lemma TombstoneNamesItsFile(namespace: Namespace, relPath: string)
    ensures SplitOnce(KeyOf(namespace, relPath)) == Some((NameOf(namespace), relPath))
    ensures TombstoneNamespace(NameOf(namespace)) == namespace && IsFileKey(KeyOf(namespace, relPath))
  {
    var key, name := KeyOf(namespace, relPath), NameOf(namespace);
    PartsAreSlices(key, name, relPath);
    assert ':' in key;
    var (head, tail) := SplitOnce(key).value;
    PartsAreSlices(key, head, tail);
    FirstColonIsUnique(key, |name|, |head|);
  }

  lemma PartsAreSlices(key: string, head: string, tail: string)
    requires head + ":" + tail == key
    ensures |head| < |key| && key[..|head|] == head && key[|head|] == ':' && key[|head| + 1..] == tail
  {
  }

  lemma FirstColonIsUnique(key: string, i: nat, j: nat)
    requires i < |key| && j < |key| && key[i] == ':' && key[j] == ':'
    requires ':' !in key[..i] && ':' !in key[..j]
    ensures i == j
  {
    if i < j {
      ColonInPrefix(key, i, j);
    } else if j < i {
      ColonInPrefix(key, j, i);
    }
  }

  lemma ColonInPrefix(key: string, i: nat, n: nat)
    requires i < n <= |key| && key[i] == ':'
    ensures ':' in key[..n]
  {
    assert key[..n][i] == ':';
  }

  /** A file as one directory walk found it; `body` is what reading it gives afterwards. */
  datatype File = File(namespace: Namespace, relPath: string, stamp: Stamp, body: Option<seq<byte>>) {
    function Key(): string {
      KeyOf(namespace, relPath)
    }
  }

  predicate DistinctKeys(files: seq<File>) {
    forall i, j | 0 <= i < j < |files| :: files[i].Key() != files[j].Key()
  }

  function Keys(files: seq<File>): (keys: set<string>)
    ensures forall i | 0 <= i < |files| :: files[i].Key() in keys
    ensures forall key | key in keys :: exists i :: 0 <= i < |files| && files[i].Key() == key
  {
    if files == [] then {}
    else
      var n := |files| - 1;
      assert forall i | 0 <= i < n :: files[..n][i] == files[i];
      Keys(files[..n]) + {files[n].Key()}
  }

  /** What the cycle does with one key; a post for `key` is answered with `answers(key)`. */
  function TurnOf(files: seq<File>, answers: string -> Push, key: string): Turn {
    if files == [] then Missing(answers(key))
    else
      var n := |files| - 1;
      if files[n].Key() == key then Found(files[n].stamp, files[n].body, answers(key))
      else TurnOf(files[..n], answers, key)
  }

  lemma {:induction false} TurnOfMissingKey(files: seq<File>, answers: string -> Push, key: string)
    ensures key !in Keys(files) <==> TurnOf(files, answers, key).Missing?
    ensures key !in Keys(files) ==> TurnOf(files, answers, key) == Missing(answers(key))
  {
    if files != [] {
      TurnOfMissingKey(files[..|files| - 1], answers, key);
    }
  }

  lemma {:induction false} TurnOfFoundFile(files: seq<File>, answers: string -> Push, i: nat)
    requires DistinctKeys(files) && i < |files|
    ensures TurnOf(files, answers, files[i].Key())
            == Found(files[i].stamp, files[i].body, answers(files[i].Key()))
  {
    if i < |files| - 1 {
      TurnOfFoundFile(files[..|files| - 1], answers, i);
    }
  }

  predicate WithinLimit(file: File) {
    file.stamp.len <= MAX_SYNC_FILE_BYTES && file.body.Some? && |file.body.value| <= MAX_SYNC_FILE_BYTES
  }

  /**
   * A whole cycle in which every post is accepted, begun with no retry pending: the swarm then holds the bytes
   * of every readable file within the limit, and none of the files that were sent and are gone.
   */
  lemma AcceptingCycleMirrors(before: string -> Entry, after: string -> Entry, files: seq<File>,
                              answers: string -> Push, content: string -> Stamp -> seq<byte>)
    requires DistinctKeys(files)
    requires forall key :: after(key) == Step(before(key), TurnOf(files, answers, key))
    requires forall key :: before(key).retry.None? && Mirrored(before(key), content(key))
    requires forall key :: Classify(answers(key).answer, TurnOf(files, answers, key).Missing?) == Accepted
    requires forall i | 0 <= i < |files| && files[i].body.Some? ::
               files[i].body.value == content(files[i].Key())(files[i].stamp)
    ensures forall i | 0 <= i < |files| && WithinLimit(files[i]) :: after(files[i].Key()).remote == files[i].body
    ensures forall key | key !in Keys(files) && before(key).sent.Some? :: after(key).remote.None?
    ensures forall key :: after(key).retry.None? && Mirrored(after(key), content(key))
  {
    forall key
      ensures key !in Keys(files) ==> TurnOf(files, answers, key) == Missing(answers(key))
      ensures Honest(TurnOf(files, answers, key), content(key))
      ensures after(key).retry.None? && Mirrored(after(key), content(key))
      ensures key !in Keys(files) && before(key).sent.Some? ==> after(key).remote.None?
    {
      TurnOfMissingKey(files, answers, key);
      if key in Keys(files) {
        var i :| 0 <= i < |files| && files[i].Key() == key;
        TurnOfFoundFile(files, answers, i);
      }
      AcceptingTurnMirrors(before(key), TurnOf(files, answers, key), content(key));
    }
    forall i | 0 <= i < |files| && WithinLimit(files[i])
      ensures after(files[i].Key()).remote == files[i].body
    {
      TurnOfFoundFile(files, answers, i);
      AcceptingTurnMirrors(before(files[i].Key()), TurnOf(files, answers, files[i].Key()), content(files[i].Key()));
    }
  }

  function Lookup<T>(m: map<string, T>, key: string): Option<T> {
    if key in m then Some(m[key]) else None
  }

  function View(sent: map<string, Stamp>, retry: map<string, RetryState>, remote: map<string, seq<byte>>,
                key: string): Entry {
    Entry(Lookup(sent, key), Lookup(retry, key), Lookup(remote, key))
  }

  /** The swarm's store; only a successful answer means that it took the post. */
  class Swarm {
    var store: map<string, seq<byte>>

    method Post(namespace: Namespace, relPath: string, body: Option<seq<byte>>, answer: Answer)
      returns (outcome: PushOutcome)
      modifies this
      ensures outcome == Classify(answer, body.None?)
      ensures var key := KeyOf(namespace, relPath);
              store == if !outcome.Accepted? then old(store)
                       else if body.Some? then old(store)[key := body.value]
                       else old(store) - {key}
    {
      outcome := Classify(answer, body.None?);
      if outcome.Accepted? {
        var key := KeyOf(namespace, relPath);
        store := if body.Some? then store[key := body.value] else store - {key};
      }
    }
  }

  class StateSyncWorker {
    var sent: map<string, Stamp>
    var retry: map<string, RetryState>

    constructor ()
      ensures sent == map[] && retry == map[]
    {
      sent, retry := map[], map[];
    }

    /** Every key recorded as sent was made for a file. */
    ghost predicate Valid()
      reads this
    {
      forall key | key in sent :: IsFileKey(key)
    }

    ghost function Sees(swarm: Swarm, key: string): Entry
      reads this, swarm
    {
      View(sent, retry, swarm.store, key)
    }

    method ClearSent(swarm: Swarm)
      modifies this
      ensures Valid()
      ensures forall key :: Sees(swarm, key) == Step(old(Sees(swarm, key)), Cleared)
    {
      sent, retry := map[], map[];
    }

    method NoteOutcome(key: string, stamp: Stamp, outcome: PushOutcome, now: nat) returns (accepted: bool)
      modifies this`retry
      ensures accepted <==> outcome.Accepted?
      ensures forall k | k != key :: Lookup(retry, k) == Lookup(old(retry), k)
      ensures Lookup(retry, key) == Noted(Lookup(old(retry), key), stamp, outcome, now)
    {
      match outcome
      case Accepted =>
        retry := retry - {key};
        accepted := true;
      case Rejected =>
        retry := retry[key := RetryState(Some(stamp), 0, now)];
        accepted := false;
      case Transient =>
        var failures := Min((if key in retry then retry[key].failures else 0) + 1, U32_MAX);
        retry := retry[key := RetryState(None, failures, now + TransientBackoff(failures))];
        accepted := false;
    }

    method PushFile(file: File, push: Push, swarm: Swarm)
      requires Valid()
      modifies this, swarm
      ensures Valid()
      ensures Sees(swarm, file.Key()) == Step(old(Sees(swarm, file.Key())), Found(file.stamp, file.body, push))
      ensures forall k | k != file.Key() :: Sees(swarm, k) == old(Sees(swarm, k))
    {
      hide EligibleAt, Noted, Classify, SplitOnce;
      var key := file.Key();
      TombstoneNamesItsFile(file.namespace, file.relPath);
      if key in sent && sent[key] == file.stamp {
        retry := retry - {key};
        return;
      }
      if file.stamp.len > MAX_SYNC_FILE_BYTES {
        return;
      }
      if !EligibleAt(Lookup(retry, key), Some(file.stamp), push.asked) {
        return;
      }
      if file.body.None? || |file.body.value| > MAX_SYNC_FILE_BYTES {
        return;
      }
      var outcome := swarm.Post(file.namespace, file.relPath, file.body, push.answer);
      var accepted := NoteOutcome(key, file.stamp, outcome, push.answered);
      if accepted {
        sent := sent[key := file.stamp];
      }
    }

    method PushTombstone(key: string, push: Push, swarm: Swarm)
      requires Valid() && key in sent
      modifies this, swarm
      ensures Valid()
      ensures sent.Keys + {key} == old(sent.Keys)
      ensures Sees(swarm, key) == Step(old(Sees(swarm, key)), Missing(push))
      ensures forall k | k != key :: Sees(swarm, k) == old(Sees(swarm, k))
    {
      hide EligibleAt, Noted, Classify, SplitOnce;
      var (name, relPath) := SplitOnce(key).value;
      if !EligibleAt(Lookup(retry, key), None, push.asked) {
        return;
      }
      var outcome := swarm.Post(TombstoneNamespace(name), relPath, None, push.answer);
      match outcome
      case Accepted =>
        sent, retry := sent - {key}, retry - {key};
      case Rejected =>
        sent, retry := sent - {key}, retry - {key};
      case Transient =>
        var _ := NoteOutcome(key, Stamp(0, push.asked), outcome, push.answered);
    }

    method PushFiles(files: seq<File>, answers: string -> Push, swarm: Swarm)
      requires Valid() && DistinctKeys(files)
      modifies this, swarm
      ensures Valid()
      ensures forall key | key in Keys(files) ::
                Sees(swarm, key) == Step(old(Sees(swarm, key)), TurnOf(files, answers, key))
      ensures forall key | key !in Keys(files) :: Sees(swarm, key) == old(Sees(swarm, key))
    {
      hide Step, IsFileKey;
      for i := 0 to |files|
        invariant Valid()
        invariant forall key | key in Keys(files[..i]) ::
            Sees(swarm, key) == Step(old(Sees(swarm, key)), TurnOf(files[..i], answers, key))
        invariant forall key | key !in Keys(files[..i]) :: Sees(swarm, key) == old(Sees(swarm, key))
      {
        assert files[..i + 1][..i] == files[..i];
        assert files[i].Key() !in Keys(files[..i]);
        PushFile(files[i], answers(files[i].Key()), swarm);
      }
      assert files[..|files|] == files;
    }

    /** A tombstone for every key that is recorded as sent but was not found. */
    method SweepStale(current: set<string>, answers: string -> Push, swarm: Swarm)
      requires Valid()
      modifies this, swarm
      ensures Valid()
      ensures forall key | key !in current ::
                Sees(swarm, key) == Step(old(Sees(swarm, key)), Missing(answers(key)))
      ensures forall key | key in current :: Sees(swarm, key) == old(Sees(swarm, key))
    {
      forall key | key !in sent
        ensures Step(Sees(swarm, key), Missing(answers(key))) == Sees(swarm, key)
      {
        NothingToDelete(Sees(swarm, key), answers(key));
      }
      PushTombstones(sent.Keys - current, answers, swarm);
    }

    method PushTombstones(stale: set<string>, answers: string -> Push, swarm: Swarm)
      requires Valid() && stale <= sent.Keys
      modifies this, swarm
      ensures Valid()
      ensures forall key | key in stale ::
                Sees(swarm, key) == Step(old(Sees(swarm, key)), Missing(answers(key)))
      ensures forall key | key !in stale :: Sees(swarm, key) == old(Sees(swarm, key))
    {
      hide Step, IsFileKey;
      var left := stale;
      while left != {}
        invariant Valid() && left <= stale && left <= sent.Keys
        invariant forall key | key in stale && key !in left ::
            Sees(swarm, key) == Step(old(Sees(swarm, key)), Missing(answers(key)))
        invariant forall key | key !in stale || key in left :: Sees(swarm, key) == old(Sees(swarm, key))
        decreases |left|
      {
        var key :| key in left;
        PushTombstone(key, answers(key), swarm);
        left := left - {key};
      }
    }

    /** One cycle: every file the walk found, then the keys it did not find. */
    method SyncOnce(files: seq<File>, answers: string -> Push, swarm: Swarm)
      requires Valid() && DistinctKeys(files)
      modifies this, swarm
      ensures Valid()
      ensures forall key :: Sees(swarm, key) == Step(old(Sees(swarm, key)), TurnOf(files, answers, key))
    {
      PushFiles(files, answers, swarm);
      forall key | key !in Keys(files)
        ensures TurnOf(files, answers, key) == Missing(answers(key))
      {
        TurnOfMissingKey(files, answers, key);
      }
      SweepStale(Keys(files), answers, swarm);
    }
  }
}
