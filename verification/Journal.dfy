/**
 The run journal: an append-only file of newline-terminated records. An append
 first drops a torn tail, then writes a whole batch; it may stop after any byte.
 */
module Journal {
  import opened Wrappers
  import opened Utf8

  const NL: byte := 10
  const CR: byte := 13

  /** How an event becomes a line, what a line decodes to, and which lines are only white space. */
  datatype Codec<!E> = Codec(
    encode: E -> seq<byte>,
    decode: seq<byte> -> Option<E>,
    blank: seq<byte> -> bool)

  /** What a JSON encoder guarantees: one line of text per event, of which no proper part is a record. */
  ghost predicate ValidCodec<E(!new)>(codec: Codec<E>) {
    && codec.blank([])
    && forall e :: ValidLine(codec, e, codec.encode(e))
  }

  ghost predicate ValidLine<E>(codec: Codec<E>, e: E, line: seq<byte>) {
    && line != [] && NL !in line && line[|line| - 1] != CR && IsUtf8(line)
    && codec.decode(line) == Some(e)
    && (forall k | 0 < k <= |line| :: !codec.blank(line[..k]))
    && (forall k | 0 <= k < |line| :: codec.decode(line[..k]) == None)
  }

  function EncodeAll<E>(codec: Codec<E>, events: seq<E>): seq<byte> {
    if events == [] then [] else codec.encode(events[0]) + [NL] + EncodeAll(codec, events[1..])
  }

  // ------------------------------------------------------------------------
  // The committed part of a file: up to and including its last newline
  // ------------------------------------------------------------------------

  ghost predicate Terminated(s: seq<byte>) {
    s == [] || s[|s| - 1] == NL
  }

  ghost function CommittedLength(s: seq<byte>): (n: nat)
    ensures n <= |s|
    ensures Terminated(s[..n])
    ensures NL !in s[n..]
  {
    if s == [] then 0
    else if s[|s| - 1] == NL then |s|
    else
      var n := CommittedLength(s[..|s| - 1]);
      assert s[..|s| - 1][..n] == s[..n];
      assert s[n..] == s[..|s| - 1][n..] + [s[|s| - 1]];
      n
  }

  ghost function Committed(s: seq<byte>): seq<byte> {
    s[..CommittedLength(s)]
  }

  ghost function Torn(s: seq<byte>): seq<byte> {
    s[CommittedLength(s)..]
  }

  /** The committed part is the only way to split a file into terminated lines and a newline-free rest. */
  lemma {:induction false} CommittedIsUnique(a: seq<byte>, t: seq<byte>)
    requires Terminated(a) && NL !in t
    ensures Committed(a + t) == a && Torn(a + t) == t
    decreases |t|
  {
    if t == [] {
      assert a + t == a;
    } else {
      var shorter := t[..|t| - 1];
      assert (a + t)[..|a + t| - 1] == a + shorter;
      assert t[|t| - 1] in t;
      CommittedIsUnique(a, shorter);
      assert CommittedLength(a + shorter) == |a|;
    }
  }

  function LastPosition(s: seq<byte>, b: byte): (p: Option<nat>)
    ensures p.Some? ==> p.value < |s| && s[p.value] == b && b !in s[p.value + 1..]
    ensures p.None? ==> b !in s
  {
    if s == [] then None
    else if s[|s| - 1] == b then Some(|s| - 1)
    else
      var p := LastPosition(s[..|s| - 1], b);
      assert s == s[..|s| - 1] + [s[|s| - 1]];
      assert p.Some? ==> s[p.value + 1..] == s[..|s| - 1][p.value + 1..] + [s[|s| - 1]];
      p
  }

  lemma SliceSplits(s: seq<byte>, start: nat, end: nat, skip: nat)
    requires start <= end <= |s| && skip <= end - start
    ensures s[start + skip..] == s[start..end][skip..] + s[end..]
    ensures s[start..end][0..] == s[start..end]
  {
  }

  /** Backward search for the last newline in chunks of bounded size. */
  method ScanCommitted(s: seq<byte>, chunk: nat) returns (committed: nat)
    requires chunk > 0
    ensures committed == CommittedLength(s)
  {
    var cursor := |s|;
    committed := 0;
    while cursor > 0
      invariant 0 <= cursor <= |s|
      invariant NL !in s[cursor..]
      invariant committed == 0
    {
      var start := if cursor < chunk then 0 else cursor - chunk;
      var buffer := s[start..cursor];
      var position := LastPosition(buffer, NL);
      if position.Some? {
        committed := start + position.value + 1;
        SliceSplits(s, start, cursor, position.value + 1);
        break;
      }
      SliceSplits(s, start, cursor, 0);
      cursor := start;
    }
    assert s == s[..committed] + s[committed..];
    CommittedIsUnique(s[..committed], s[committed..]);
  }

  // ------------------------------------------------------------------------
  // Appending
  // ------------------------------------------------------------------------

  /** How far one append gets: all the way, not even to the repair, or to a number of written bytes. */
  datatype Fate = Complete | StopBeforeRepair | StopAfter(written: nat)

  ghost function AfterAppend<E>(codec: Codec<E>, file: seq<byte>, batch: seq<E>, fate: Fate): seq<byte> {
    var bytes := EncodeAll(codec, batch);
    if batch == [] then file
    else match fate
      case Complete => Committed(file) + bytes
      case StopBeforeRepair => file
      case StopAfter(k) => Committed(file) + if k <= |bytes| then bytes[..k] else bytes
  }

  class JournalFile<E> {
    const codec: Codec<E>
    var content: seq<byte>

    constructor (codec: Codec<E>)
      ensures this.codec == codec && content == []
    {
      this.codec := codec;
      content := [];
    }

    /** `fate` is chosen by the environment; the source uses chunks of 8192 bytes. */
    method AppendRunEvents(events: seq<E>, chunk: nat, fate: Fate) returns (acknowledged: bool)
      requires chunk > 0
      modifies this
      ensures content == AfterAppend(codec, old(content), events, fate)
      ensures acknowledged <==> events == [] || fate.Complete?
    {
      if events == [] {
        return true;
      }
      var bytes := EncodeAll(codec, events);
      if fate.StopBeforeRepair? {
        return false;
      }
      ghost var before := content;
      if |content| > 0 {
        if content[|content| - 1] != NL {
          var committedLength := ScanCommitted(content, chunk);
          content := content[..committedLength];
        }
      }
      assert content == Committed(before);
      if fate.StopAfter? {
        content := content + if fate.written <= |bytes| then bytes[..fate.written] else bytes;
        return false;
      }
      content := content + bytes;
      return true;
    }

    method LoadRunEvents() returns (result: Result<seq<E>>)
      ensures result == Replay(codec, content)
      ensures forall lines, last | IsSplit(content, lines, last) :: IsLoad(codec, content, lines, last, result)
    {
      forall lines, last | IsSplit(content, lines, last) {
        LoadMeaning(codec, content, lines, last);
      }
      if !IsUtf8(content) {
        return Err;
      }
      var endsWithNewline := |content| > 0 && content[|content| - 1] == NL;
      var lines := Lines(content);
      var events := [];
      ThenUnit(ReplayLines(codec, lines, endsWithNewline));
      assert lines[0..] == lines;
      for index := 0 to |lines|
        invariant ReplayLines(codec, lines, endsWithNewline)
               == Then(Ok(events), ReplayLines(codec, lines[index..], endsWithNewline))
      {
        var line := lines[index];
        assert lines[index..][1..] == lines[index + 1..];
        if codec.blank(line) {
          continue;
        }
        match codec.decode(line) {
          case Some(event) =>
            ThenAssociates(Ok(events), Ok([event]), ReplayLines(codec, lines[index + 1..], endsWithNewline));
            events := events + [event];
          case None =>
            if !(index + 1 == |lines| && !endsWithNewline) {
              return Err;
            }
            assert lines[index + 1..] == [];
        }
      }
      assert lines[|lines|..] == [];
      ThenUnit(Ok(events));
      result := Ok(events);
    }
  }

  // ------------------------------------------------------------------------
  // Replay
  // ------------------------------------------------------------------------

  function FirstNewline(s: seq<byte>): (n: nat)
    ensures n <= |s| && NL !in s[..n]
    ensures n < |s| ==> s[n] == NL
  {
    if s == [] || s[0] == NL then 0
    else
      var n := FirstNewline(s[1..]);
      assert s[..n + 1] == [s[0]] + s[1..][..n];
      n + 1
  }

  function StripCarriageReturn(line: seq<byte>): seq<byte> {
    if line != [] && line[|line| - 1] == CR then line[..|line| - 1] else line
  }

  /** Lines of a text; only a terminated line loses a trailing carriage return. */
  function Lines(s: seq<byte>): seq<seq<byte>>
    decreases |s|
  {
    if s == [] then []
    else
      var n := FirstNewline(s);
      if n == |s| then [s] else [StripCarriageReturn(s[..n])] + Lines(s[n + 1..])
  }

  function Then<E>(a: Result<seq<E>>, b: Result<seq<E>>): Result<seq<E>> {
    if a.Ok? && b.Ok? then Ok(a.value + b.value) else Err
  }

  lemma ThenUnit<E>(r: Result<seq<E>>)
    ensures Then(Ok([]), r) == r && Then(r, Ok([])) == r
  {
    if r.Ok? {
      assert [] + r.value == r.value && r.value + [] == r.value;
    }
  }

  lemma ThenAssociates<E>(a: Result<seq<E>>, b: Result<seq<E>>, c: Result<seq<E>>)
    ensures Then(Then(a, b), c) == Then(a, Then(b, c))
  {
    if a.Ok? && b.Ok? && c.Ok? {
      assert (a.value + b.value) + c.value == a.value + (b.value + c.value);
    }
  }

  /** A line that does not decode is an error unless it is the last one and lacks its newline. */
  function ReplayLines<E>(codec: Codec<E>, lines: seq<seq<byte>>, endsWithNewline: bool): Result<seq<E>> {
    if lines == [] then Ok([])
    else
      var rest := ReplayLines(codec, lines[1..], endsWithNewline);
      if codec.blank(lines[0]) then rest
      else match codec.decode(lines[0])
        case Some(event) => Then(Ok([event]), rest)
        case None => if |lines| == 1 && !endsWithNewline then Ok([]) else Err
  }

  function Replay<E>(codec: Codec<E>, content: seq<byte>): Result<seq<E>> {
    if !IsUtf8(content) then Err
    else ReplayLines(codec, Lines(content), |content| > 0 && content[|content| - 1] == NL)
  }

  // ------------------------------------------------------------------------
  // What loading any file means
  // ------------------------------------------------------------------------

  /** The line that stands before a newline: all there is, or all but one carriage return at its end. */
  ghost predicate IsLine(raw: seq<byte>, line: seq<byte>) {
    raw == line + [CR] || (raw == line && (line == [] || line[|line| - 1] != CR))
  }

  /** The content is these lines, each with its newline, and a rest without one. */
  ghost predicate IsSplit(content: seq<byte>, lines: seq<seq<byte>>, last: seq<byte>)
    decreases |lines|
  {
    if lines == [] then content == last && NL !in last
    else exists raw, rest ::
           NL !in raw && IsLine(raw, lines[0]) && content == raw + [NL] + rest && IsSplit(rest, lines[1..], last)
  }

  ghost predicate Decodes<E>(codec: Codec<E>, line: seq<byte>) {
    !codec.blank(line) && codec.decode(line).Some?
  }

  ghost predicate DecodesTo<E>(codec: Codec<E>, line: seq<byte>, event: E) {
    !codec.blank(line) && codec.decode(line) == Some(event)
  }

  ghost predicate Malformed<E>(codec: Codec<E>, line: seq<byte>) {
    !codec.blank(line) && codec.decode(line).None?
  }

  /** The events are what the lines at these positions, all that decode, decode to, in their order. */
  ghost predicate AreDecoded<E>(codec: Codec<E>, lines: seq<seq<byte>>, events: seq<E>, at: seq<nat>) {
    && |at| == |events|
    && (forall j, k | 0 <= j < k < |at| :: at[j] < at[k])
    && (forall k | 0 <= k < |at| :: at[k] < |lines| && DecodesTo(codec, lines[at[k]], events[k]))
    && (forall i: nat | i < |lines| && Decodes(codec, lines[i]) :: i in at)
  }

  /**
   Loading succeeds exactly when the content is text and no terminated line is malformed, and gives what all the
   lines decode to, the unterminated rest among them if it decodes.
   */
  ghost predicate IsLoad<E>(codec: Codec<E>, content: seq<byte>, lines: seq<seq<byte>>, last: seq<byte>,
                            result: Result<seq<E>>)
  {
    && (result.Ok? <==> IsUtf8(content) && forall i | 0 <= i < |lines| :: !Malformed(codec, lines[i]))
    && (result.Ok? ==> exists at :: AreDecoded(codec, WithRest(lines, last), result.value, at))
  }

  ghost function WithRest(lines: seq<seq<byte>>, last: seq<byte>): seq<seq<byte>> {
    if last == [] then lines else lines + [last]
  }

  /** Every file has such a split. */
  lemma {:induction false} SplitExists(content: seq<byte>) returns (lines: seq<seq<byte>>, last: seq<byte>)
    ensures IsSplit(content, lines, last)
    decreases |content|
  {
    var n := FirstNewline(content);
    if n == |content| {
      assert content[..n] == content;
      lines, last := [], content;
    } else {
      var raw, rest := content[..n], content[n + 1..];
      var others;
      others, last := SplitExists(rest);
      var line := if raw != [] && raw[|raw| - 1] == CR then raw[..|raw| - 1] else raw;
      lines := [line] + others;
      assert lines[1..] == others && content == raw + [NL] + rest && IsLine(raw, line);
    }
  }

  lemma SplitHead(content: seq<byte>, lines: seq<seq<byte>>, last: seq<byte>)
    returns (raw: seq<byte>, rest: seq<byte>)
    requires IsSplit(content, lines, last) && lines != []
    ensures NL !in raw && IsLine(raw, lines[0]) && content == raw + [NL] + rest && IsSplit(rest, lines[1..], last)
  {
    raw, rest :|
      NL !in raw && IsLine(raw, lines[0]) && content == raw + [NL] + rest && IsSplit(rest, lines[1..], last);
  }

  lemma SplitCons(raw: seq<byte>, line: seq<byte>, rest: seq<byte>, lines: seq<seq<byte>>, last: seq<byte>)
    requires NL !in raw && IsLine(raw, line) && IsSplit(rest, lines, last)
    ensures IsSplit(raw + [NL] + rest, [line] + lines, last)
  {
    assert ([line] + lines)[1..] == lines;
  }

  lemma FirstLine(raw: seq<byte>, line: seq<byte>, rest: seq<byte>)
    requires NL !in raw && IsLine(raw, line)
    ensures Lines(raw + [NL] + rest) == [line] + Lines(rest)
  {
    var content := raw + [NL] + rest;
    FirstNewlineFacts(raw, rest);
    assert content[..|raw|] == raw && content[|raw| + 1..] == rest;
    StrippedIsLine(raw, line);
  }

  lemma {:induction false} LinesOfSplit(content: seq<byte>, lines: seq<seq<byte>>, last: seq<byte>)
    requires IsSplit(content, lines, last)
    ensures Lines(content) == WithRest(lines, last)
    ensures content == [] ==> lines == [] && last == []
    ensures content != [] ==> (content[|content| - 1] == NL <==> last == [])
    decreases |lines|
  {
    if lines == [] {
      FirstNewlineFacts(content, []);
      assert content != [] ==> content[|content| - 1] in content;
    } else {
      var raw, rest := SplitHead(content, lines, last);
      hide IsSplit, Lines, IsLine;
      LinesOfSplit(rest, lines[1..], last);
      FirstLine(raw, lines[0], rest);
      LastByte(raw, rest);
      RestOfCons(lines, last);
    }
  }

  lemma LastByte(raw: seq<byte>, rest: seq<byte>)
    ensures var content := raw + [NL] + rest;
            content != [] && content[|content| - 1] == if rest == [] then NL else rest[|rest| - 1]
  {
  }

  lemma RestOfCons(lines: seq<seq<byte>>, last: seq<byte>)
    requires lines != []
    ensures [lines[0]] + WithRest(lines[1..], last) == WithRest(lines, last)
  {
    assert [lines[0]] + lines[1..] == lines;
    assert [lines[0]] + (lines[1..] + [last]) == lines + [last];
  }

  lemma StrippedIsLine(raw: seq<byte>, line: seq<byte>)
    requires IsLine(raw, line)
    ensures StripCarriageReturn(raw) == line
  {
    assert raw == line + [CR] ==> raw[..|raw| - 1] == line;
  }

  lemma {:induction false} ReplayDecodes<E>(codec: Codec<E>, lines: seq<seq<byte>>, ends: bool) returns (at: seq<nat>)
    ensures var result := ReplayLines(codec, lines, ends);
            && (result.Ok? <==>
                forall i | 0 <= i < |lines| :: Malformed(codec, lines[i]) ==> i == |lines| - 1 && !ends)
            && (result.Ok? ==> AreDecoded(codec, lines, result.value, at))
    decreases |lines|
  {
    at := [];
    if lines != [] {
      var rest := ReplayDecodes(codec, lines[1..], ends);
      at := if Decodes(codec, lines[0]) then [0] + Shifted(rest) else Shifted(rest);
      assert forall i | 0 < i < |lines| :: lines[i] == lines[1..][i - 1];
      var result, tail := ReplayLines(codec, lines, ends), ReplayLines(codec, lines[1..], ends);
      if result.Ok? {
        assert tail.Ok?;
        DecodedShift(codec, lines, tail.value, rest);
      }
    }
  }

  ghost function Shifted(at: seq<nat>): (r: seq<nat>)
    ensures |r| == |at| && forall k | 0 <= k < |at| :: r[k] == at[k] + 1
  {
    seq(|at|, k requires 0 <= k < |at| => at[k] + 1)
  }

  lemma DecodedShift<E>(codec: Codec<E>, lines: seq<seq<byte>>, events: seq<E>, at: seq<nat>)
    requires lines != [] && AreDecoded(codec, lines[1..], events, at)
    ensures !Decodes(codec, lines[0]) ==> AreDecoded(codec, lines, events, Shifted(at))
    ensures Decodes(codec, lines[0]) ==>
              AreDecoded(codec, lines, [codec.decode(lines[0]).value] + events, [0] + Shifted(at))
  {
    if Decodes(codec, lines[0]) {
      assert DecodesTo(codec, lines[0], codec.decode(lines[0]).value);
    }
    hide Decodes, DecodesTo;
    assert forall i | 0 < i < |lines| :: lines[1..][i - 1] == lines[i];
    LaterAreListed(codec, lines, at);
    hide AreDecoded;
    if Decodes(codec, lines[0]) {
      FirstDecoded(codec, lines, codec.decode(lines[0]).value, events, Shifted(at));
    } else {
      NothingFirst(codec, lines, events, Shifted(at));
    }
  }

  lemma LaterAreListed<E>(codec: Codec<E>, lines: seq<seq<byte>>, at: seq<nat>)
    requires lines != [] && forall i: nat | i < |lines[1..]| && Decodes(codec, lines[1..][i]) :: i in at
    ensures forall i: nat | 0 < i < |lines| && Decodes(codec, lines[i]) :: i in Shifted(at)
  {
    hide Decodes;
    forall i: nat | 0 < i < |lines| && Decodes(codec, lines[i])
      ensures i in Shifted(at)
    {
      assert Decodes(codec, lines[1..][i - 1]);
      var k :| 0 <= k < |at| && at[k] == i - 1;
      assert Shifted(at)[k] == i;
    }
  }

  lemma NothingFirst<E>(codec: Codec<E>, lines: seq<seq<byte>>, events: seq<E>, at: seq<nat>)
    requires lines != [] && !Decodes(codec, lines[0]) && |at| == |events|
    requires forall j, k | 0 <= j < k < |at| :: at[j] < at[k]
    requires forall k | 0 <= k < |at| :: 0 < at[k] < |lines| && DecodesTo(codec, lines[at[k]], events[k])
    requires forall i: nat | 0 < i < |lines| && Decodes(codec, lines[i]) :: i in at
    ensures AreDecoded(codec, lines, events, at)
  {
    hide Decodes, DecodesTo;
  }

  lemma FirstDecoded<E>(codec: Codec<E>, lines: seq<seq<byte>>, event: E, events: seq<E>, at: seq<nat>)
    requires lines != [] && DecodesTo(codec, lines[0], event) && |at| == |events|
    requires forall j, k | 0 <= j < k < |at| :: at[j] < at[k]
    requires forall k | 0 <= k < |at| :: 0 < at[k] < |lines| && DecodesTo(codec, lines[at[k]], events[k])
    requires forall i: nat | 0 < i < |lines| && Decodes(codec, lines[i]) :: i in at
    ensures AreDecoded(codec, lines, [event] + events, [0] + at)
  {
    hide Decodes, DecodesTo;
    var all, decoded := [0] + at, [event] + events;
    forall k | 0 <= k < |all|
      ensures all[k] < |lines| && DecodesTo(codec, lines[all[k]], decoded[k])
    {
      if k > 0 {
        assert all[k] == at[k - 1] && decoded[k] == events[k - 1];
      }
    }
  }

  /** For every byte sequence: when it loads, and what it loads to. */
  lemma LoadMeaning<E>(codec: Codec<E>, content: seq<byte>, lines: seq<seq<byte>>, last: seq<byte>)
    requires IsSplit(content, lines, last)
    ensures IsLoad(codec, content, lines, last, Replay(codec, content))
  {
    LinesOfSplit(content, lines, last);
    var ends := content != [] && content[|content| - 1] == NL;
    var at := ReplayDecodes(codec, Lines(content), ends);
    hide IsSplit, Lines, Malformed, AreDecoded;
    assert forall i | 0 <= i < |lines| :: WithRest(lines, last)[i] == lines[i];
  }

  /** A malformed record that is terminated makes loading fail, whatever stands before and behind it. */
  lemma MalformedRecordBlocksLoading<E>(codec: Codec<E>, a: seq<byte>, raw: seq<byte>, line: seq<byte>, b: seq<byte>)
    requires Terminated(a) && NL !in raw && IsLine(raw, line) && Malformed(codec, line)
    ensures Replay(codec, a + raw + [NL] + b) == Err
  {
    var before, rest := SplitExists(a);
    var behind, last := SplitExists(b);
    SplitInserts(a, before, rest, raw, line, b, behind, last);
    var lines := before + [line] + behind;
    LoadMeaning(codec, a + raw + [NL] + b, lines, last);
    assert lines[|before|] == line;
  }

  lemma {:induction false} SplitInserts(a: seq<byte>, before: seq<seq<byte>>, rest: seq<byte>, raw: seq<byte>,
                                        line: seq<byte>, b: seq<byte>, behind: seq<seq<byte>>, last: seq<byte>)
    requires Terminated(a) && IsSplit(a, before, rest)
    requires NL !in raw && IsLine(raw, line) && IsSplit(b, behind, last)
    ensures IsSplit(a + raw + [NL] + b, before + [line] + behind, last)
    decreases |before|
  {
    if before == [] {
      LastIsIn(a);
      hide IsSplit, IsLine;
      SplitCons(raw, line, b, behind, last);
      assert [] + [line] == [line] && [] + raw == raw;
    } else {
      var first, more := SplitHead(a, before, rest);
      hide IsSplit, IsLine;
      LastByte(first, more);
      SplitInserts(more, before[1..], rest, raw, line, b, behind, last);
      SplitCons(first, before[0], more + raw + [NL] + b, before[1..] + [line] + behind, last);
      Regroup(before[0], before[1..], [line], behind);
      assert [before[0]] + before[1..] == before;
      RegroupBytes(first, more, raw, b);
    }
  }

  lemma LastIsIn(a: seq<byte>)
    ensures a != [] ==> a[|a| - 1] in a
  {
  }

  lemma Regroup<T>(first: T, more: seq<T>, middle: seq<T>, rest: seq<T>)
    ensures [first] + (more + middle + rest) == [first] + more + middle + rest
  {
  }

  lemma RegroupBytes(first: seq<byte>, more: seq<byte>, raw: seq<byte>, b: seq<byte>)
    ensures first + [NL] + (more + raw + [NL] + b) == first + [NL] + more + raw + [NL] + b
  {
  }

  /** What the loader makes of a tail that lacks its newline. */
  ghost function TornEvents<E>(codec: Codec<E>, torn: seq<byte>): seq<E> {
    if torn == [] || codec.blank(torn) then []
    else match codec.decode(torn) case Some(event) => [event] case None => []
  }

  lemma {:induction false} FirstNewlineFacts(a: seq<byte>, b: seq<byte>)
    ensures NL !in a ==> FirstNewline(a) == |a| && FirstNewline(a + [NL] + b) == |a|
    ensures Terminated(a) && a != [] ==> FirstNewline(a) < |a|
    ensures FirstNewline(a) < |a| ==> FirstNewline(a + b) == FirstNewline(a)
    decreases |a|
  {
    if a != [] {
      assert a[0] in a;
      assert a[1..] + [NL] + b == (a + [NL] + b)[1..];
      assert a[1..] + b == (a + b)[1..];
      FirstNewlineFacts(a[1..], b);
    }
  }

  lemma NextLine(s: seq<byte>, n: nat)
    requires s != [] && n == FirstNewline(s) < |s|
    ensures Lines(s) == [StripCarriageReturn(s[..n])] + Lines(s[n + 1..])
  {
  }

  lemma {:induction false} LinesOfConcatenation(a: seq<byte>, b: seq<byte>)
    requires Terminated(a)
    ensures Lines(a + b) == Lines(a) + Lines(b)
    decreases |a|
  {
    hide FirstNewline, StripCarriageReturn;
    if a == [] {
      assert a + b == b;
    } else {
      hide Lines;
      FirstNewlineFacts(a, b);
      var n := FirstNewline(a);
      assert (a + b)[..n] == a[..n];
      assert (a + b)[n + 1..] == a[n + 1..] + b;
      NextLine(a, n);
      NextLine(a + b, n);
      LinesOfConcatenation(a[n + 1..], b);
    }
  }

  lemma {:induction false} ReplayOfConcatenation<E>(
    codec: Codec<E>, xs: seq<seq<byte>>, ys: seq<seq<byte>>, ends: bool)
    requires ys != [] || ends
    ensures ReplayLines(codec, xs + ys, ends) == Then(ReplayLines(codec, xs, true), ReplayLines(codec, ys, ends))
    decreases |xs|
  {
    if xs == [] {
      assert xs + ys == ys;
      ThenUnit(ReplayLines(codec, ys, ends));
    } else {
      assert (xs + ys)[1..] == xs[1..] + ys;
      ReplayOfConcatenation(codec, xs[1..], ys, ends);
      var rest := ReplayLines(codec, xs[1..], true);
      match codec.decode(xs[0])
      case Some(event) => ThenAssociates(Ok([event]), rest, ReplayLines(codec, ys, ends));
      case None =>
    }
  }

  lemma Utf8Splits(a: seq<byte>, t: seq<byte>)
    requires Terminated(a)
    ensures IsUtf8(a + t) <==> IsUtf8(a) && IsUtf8(t)
  {
    if IsUtf8(a) {
      ValidPrefix(a, t);
    } else if IsUtf8(a + t) {
      var n := |a| - 1;
      assert a + t == a[..n] + [NL] + t;
      CutAtAscii(a[..n], NL, t);
      assert a == a[..n] + [NL];
      assert CharLength([NL]) == 1;
      ValidPrefix(a[..n], [NL]);
    }
  }

  /** A file is its committed lines followed by its torn tail, for the loader too. */
  lemma ReplaySplits<E>(codec: Codec<E>, a: seq<byte>, t: seq<byte>)
    requires Terminated(a) && NL !in t && codec.blank([])
    ensures Replay(codec, a + t)
         == if IsUtf8(t) then Then(Replay(codec, a), Ok(TornEvents(codec, t))) else Err
  {
    Utf8Splits(a, t);
    if t == [] {
      assert a + t == a;
      ThenUnit(Replay(codec, a));
    } else if IsUtf8(a) && IsUtf8(t) {
      LinesOfConcatenation(a, t);
      var last := (a + t)[|a + t| - 1];
      assert last == t[|t| - 1] && last in t;
      FirstNewlineFacts(t, []);
      assert Lines(t) == [t];
      TornLine(codec, t);
      ReplayOfConcatenation(codec, Lines(a), [t], false);
    }
  }

  lemma TornLine<E>(codec: Codec<E>, t: seq<byte>)
    requires t != []
    ensures ReplayLines(codec, [t], false) == Ok(TornEvents(codec, t))
  {
    assert [t][1..] == [];
    if codec.decode(t).Some? {
      ThenUnit(Ok([codec.decode(t).value]));
    }
  }

  lemma {:induction false} ReplayOfEncoded<E(!new)>(codec: Codec<E>, events: seq<E>)
    requires ValidCodec(codec)
    ensures Terminated(EncodeAll(codec, events)) && IsUtf8(EncodeAll(codec, events))
    ensures Replay(codec, EncodeAll(codec, events)) == Ok(events)
    decreases |events|
  {
    if events != [] {
      var line, rest := codec.encode(events[0]), EncodeAll(codec, events[1..]);
      ReplayOfEncoded(codec, events[1..]);
      OneLine(codec, events[0]);
      ReplayPrepends(codec, line + [NL], rest);
      assert [events[0]] + events[1..] == events;
    }
  }

  lemma OneLine<E(!new)>(codec: Codec<E>, e: E)
    requires ValidCodec(codec)
    ensures IsUtf8(codec.encode(e) + [NL])
    ensures Replay(codec, codec.encode(e) + [NL]) == Ok([e])
  {
    var line := codec.encode(e);
    assert ValidLine(codec, e, line);
    assert line[..|line|] == line;
    assert CharLength([NL]) == 1;
    ValidPrefix(line, [NL]);
    FirstNewlineFacts(line, []);
    var s := line + [NL];
    assert line + [NL] + [] == s;
    assert s[..|line|] == line;
    assert s[|line| + 1..] == [];
    assert Lines(s) == [line];
    assert [line][1..] == [];
    assert s[|s| - 1] == NL;
    ThenUnit(Ok([e]));
    assert !codec.blank(line);
    assert ReplayLines(codec, [line][1..], true) == Ok([]);
    assert ReplayLines(codec, [line], true) == Then(Ok([e]), Ok([]));
  }

  /** Terminated text replays piece by piece. */
  lemma ReplayPrepends<E>(codec: Codec<E>, a: seq<byte>, b: seq<byte>)
    requires Terminated(a) && Terminated(b) && IsUtf8(a) && IsUtf8(b)
    ensures IsUtf8(a + b)
    ensures Replay(codec, a + b) == Then(Replay(codec, a), Replay(codec, b))
  {
    ValidPrefix(a, b);
    if b == [] {
      assert a + b == a;
      ThenUnit(Replay(codec, a));
    } else if a == [] {
      assert a + b == b;
      ThenUnit(Replay(codec, b));
    } else {
      LinesOfConcatenation(a, b);
      ReplayOfConcatenation(codec, Lines(a), Lines(b), true);
    }
  }

  /** An acknowledged append to a loadable journal keeps the committed events, drops the torn one and adds the batch. */
  lemma AppendExtendsReplay<E(!new)>(codec: Codec<E>, file: seq<byte>, batch: seq<E>)
    requires ValidCodec(codec) && Replay(codec, file).Ok? && batch != []
    ensures Replay(codec, Committed(file)).Ok?
    ensures Replay(codec, file).value == Replay(codec, Committed(file)).value + TornEvents(codec, Torn(file))
    ensures Replay(codec, AfterAppend(codec, file, batch, Complete))
         == Ok(Replay(codec, Committed(file)).value + batch)
  {
    var a, t := Committed(file), Torn(file);
    assert file == a + t;
    ReplaySplits(codec, a, t);
    ReplayOfEncoded(codec, batch);
    ReplayPrepends(codec, a, EncodeAll(codec, batch));
  }

  // ------------------------------------------------------------------------
  // Crash safety over whole histories
  // ------------------------------------------------------------------------

  datatype Attempt<E> = Attempt(batch: seq<E>, fate: Fate)

  ghost function FileAfter<E>(codec: Codec<E>, history: seq<Attempt<E>>): seq<byte> {
    if history == [] then []
    else
      var last := history[|history| - 1];
      AfterAppend(codec, FileAfter(codec, history[..|history| - 1]), last.batch, last.fate)
  }

  /** How many events of a batch have their whole line within the first `k` bytes. */
  ghost function LinesWithin<E>(codec: Codec<E>, batch: seq<E>, k: nat): (m: nat)
    ensures m <= |batch|
  {
    if batch == [] then 0
    else
      var size := |codec.encode(batch[0])| + 1;
      if k < size then 0 else 1 + LinesWithin(codec, batch[1..], k - size)
  }

  ghost function KeptOf<E>(codec: Codec<E>, attempt: Attempt<E>): (m: nat)
    ensures m <= |attempt.batch|
  {
    match attempt.fate
    case Complete => |attempt.batch|
    case StopBeforeRepair => 0
    case StopAfter(k) => LinesWithin(codec, attempt.batch, k)
  }

  /** Every acknowledged batch in full, and of every other batch a prefix that the attempt alone determines. */
  ghost function KeptEvents<E>(codec: Codec<E>, history: seq<Attempt<E>>): seq<E> {
    if history == [] then []
    else
      var last := history[|history| - 1];
      KeptEvents(codec, history[..|history| - 1]) + last.batch[..KeptOf(codec, last)]
  }

  /** `torn` is part of the first event that some unfinished attempt did not get onto disk. */
  ghost predicate TornFrom<E>(codec: Codec<E>, attempt: Attempt<E>, torn: seq<byte>) {
    var m := KeptOf(codec, attempt);
    attempt.fate.StopAfter? && m < |attempt.batch| && torn <= codec.encode(attempt.batch[m])
  }

  lemma {:induction false} EncodedPrefix<E(!new)>(codec: Codec<E>, batch: seq<E>, k: nat) returns (torn: seq<byte>)
    requires ValidCodec(codec) && k <= |EncodeAll(codec, batch)|
    ensures var m := LinesWithin(codec, batch, k);
            && EncodeAll(codec, batch)[..k] == EncodeAll(codec, batch[..m]) + torn
            && (if m < |batch| then torn <= codec.encode(batch[m]) else torn == [])
    decreases |batch|
  {
    hide ValidCodec;
    if batch == [] {
      torn := [];
    } else {
      var line, rest := codec.encode(batch[0]), EncodeAll(codec, batch[1..]);
      var all := line + [NL] + rest;
      if k < |line| + 1 {
        torn := line[..k];
        assert all[..k] == torn;
        assert batch[..0] == [];
      } else {
        torn := EncodedPrefix(codec, batch[1..], k - |line| - 1);
        var m := LinesWithin(codec, batch, k);
        assert all[..k] == line + [NL] + rest[..k - |line| - 1];
        assert batch[..m][1..] == batch[1..][..m - 1];
      }
    }
  }

  lemma {:induction false} EncodeAllConcatenates<E>(codec: Codec<E>, a: seq<E>, b: seq<E>)
    ensures EncodeAll(codec, a + b) == EncodeAll(codec, a) + EncodeAll(codec, b)
    decreases |a|
  {
    if a == [] {
      assert a + b == b;
    } else {
      assert (a + b)[1..] == a[1..] + b;
      EncodeAllConcatenates(codec, a[1..], b);
    }
  }

  /**
   Over any history of appends that may each stop anywhere, the newline-terminated part of the
   file is every acknowledged event in order and of each other batch a prefix, and the rest of
   the file is a part of one lost event.
   */
  lemma {:induction false} JournalIsCrashSafe<E(!new)>(codec: Codec<E>, history: seq<Attempt<E>>)
    requires ValidCodec(codec)
    ensures var file := FileAfter(codec, history);
            && Committed(file) == EncodeAll(codec, KeptEvents(codec, history))
            && (Torn(file) != [] ==> exists i :: 0 <= i < |history| && TornFrom(codec, history[i], Torn(file)))
    decreases |history|
  {
    if history == [] {
      assert FileAfter(codec, history) == [];
    } else {
      var earlier, last := history[..|history| - 1], history[|history| - 1];
      JournalIsCrashSafe(codec, earlier);
      var before, file := FileAfter(codec, earlier), FileAfter(codec, history);
      if file == before {
        assert last.batch == [] || last.fate.StopBeforeRepair? || KeptOf(codec, last) <= |last.batch|;
      }
      if last.batch == [] || last.fate.StopBeforeRepair? {
        assert last.batch[..KeptOf(codec, last)] == [];
        assert KeptEvents(codec, history) == KeptEvents(codec, earlier);
        if Torn(file) != [] {
          var i :| 0 <= i < |earlier| && TornFrom(codec, earlier[i], Torn(file));
          assert history[i] == earlier[i];
        }
      } else {
        LastAppend(codec, before, last);
        assert TornFrom(codec, last, Torn(file)) ==> TornFrom(codec, history[|history| - 1], Torn(file));
        EncodeAllConcatenates(codec, KeptEvents(codec, earlier), last.batch[..KeptOf(codec, last)]);
      }
    }
  }

  lemma LastAppend<E(!new)>(codec: Codec<E>, before: seq<byte>, last: Attempt<E>)
    requires ValidCodec(codec) && last.batch != [] && !last.fate.StopBeforeRepair?
    ensures var file := AfterAppend(codec, before, last.batch, last.fate);
            && Committed(file) == Committed(before) + EncodeAll(codec, last.batch[..KeptOf(codec, last)])
            && (Torn(file) != [] ==> TornFrom(codec, last, Torn(file)))
  {
    hide ValidCodec;
    var bytes := EncodeAll(codec, last.batch);
    if last.fate.Complete? {
      assert last.batch[..|last.batch|] == last.batch;
      assert Committed(before) + bytes == (Committed(before) + bytes) + [];
      TerminatedConcat(codec, Committed(before), last.batch);
      CommittedIsUnique(Committed(before) + bytes, []);
    } else {
      var k := if last.fate.written <= |bytes| then last.fate.written else |bytes|;
      WholeBatchWithin(codec, last.batch, last.fate.written);
      var kept := last.batch[..KeptOf(codec, last)];
      var torn := EncodedPrefix(codec, last.batch, k);
      assert bytes[..|bytes|] == bytes;
      TornHasNoNewline(codec, last.batch, KeptOf(codec, last), torn);
      TerminatedConcat(codec, Committed(before), kept);
      var a := Committed(before) + EncodeAll(codec, kept);
      assert Committed(before) + (EncodeAll(codec, kept) + torn) == a + torn;
      CommittedIsUnique(a, torn);
    }
  }

  lemma CompleteLeavesNoTail<E(!new)>(codec: Codec<E>, before: seq<byte>, batch: seq<E>)
    requires ValidCodec(codec) && batch != []
    ensures Torn(AfterAppend(codec, before, batch, Complete)) == []
  {
    var bytes := Committed(before) + EncodeAll(codec, batch);
    TerminatedConcat(codec, Committed(before), batch);
    assert bytes == bytes + [];
    CommittedIsUnique(bytes, []);
  }

  lemma TerminatedConcat<E(!new)>(codec: Codec<E>, a: seq<byte>, events: seq<E>)
    requires ValidCodec(codec) && Terminated(a)
    ensures Terminated(a + EncodeAll(codec, events))
  {
    ReplayOfEncoded(codec, events);
  }

  lemma TornHasNoNewline<E(!new)>(codec: Codec<E>, batch: seq<E>, m: nat, torn: seq<byte>)
    requires ValidCodec(codec) && m <= |batch|
    requires if m < |batch| then torn <= codec.encode(batch[m]) else torn == []
    ensures NL !in torn
  {
    if m < |batch| {
      var line := codec.encode(batch[m]);
      assert ValidLine(codec, batch[m], line);
      assert forall i | 0 <= i < |torn| :: torn[i] == line[i];
    }
  }

  lemma {:induction false} WholeBatchWithin<E>(codec: Codec<E>, batch: seq<E>, k: nat)
    ensures k >= |EncodeAll(codec, batch)| ==>
              LinesWithin(codec, batch, k) == LinesWithin(codec, batch, |EncodeAll(codec, batch)|)
    decreases |batch|
  {
    if batch != [] && k >= |EncodeAll(codec, batch)| {
      WholeBatchWithin(codec, batch[1..], k - |codec.encode(batch[0])| - 1);
    }
  }

  /** A later append never removes a committed byte, whatever the file holds and however far it gets. */
  lemma CommittedNeverLost<E(!new)>(codec: Codec<E>, file: seq<byte>, batch: seq<E>, fate: Fate)
    requires ValidCodec(codec)
    ensures Committed(file) <= Committed(AfterAppend(codec, file, batch, fate))
  {
    if batch != [] && !fate.StopBeforeRepair? {
      LastAppend(codec, file, Attempt(batch, fate));
    }
  }

  /**
   Loading after any history fails exactly when the last tear is inside a character. Otherwise it
   returns the kept events, followed by the torn record in the one case that it is complete.
   */
  lemma LoadAfterHistory<E(!new)>(codec: Codec<E>, history: seq<Attempt<E>>)
    requires ValidCodec(codec)
    ensures Replay(codec, FileAfter(codec, history))
         == if IsUtf8(Torn(FileAfter(codec, history))) then
              Ok(KeptEvents(codec, history) + TornEvents(codec, Torn(FileAfter(codec, history))))
            else Err
  {
    JournalIsCrashSafe(codec, history);
    LoadSplits(codec, FileAfter(codec, history), KeptEvents(codec, history));
  }

  lemma LoadSplits<E(!new)>(codec: Codec<E>, file: seq<byte>, events: seq<E>)
    requires ValidCodec(codec) && Committed(file) == EncodeAll(codec, events)
    ensures Replay(codec, file) == if IsUtf8(Torn(file)) then Ok(events + TornEvents(codec, Torn(file))) else Err
  {
    assert file == Committed(file) + Torn(file);
    ReplaySplits(codec, Committed(file), Torn(file));
    ReplayOfEncoded(codec, events);
  }

  /** The only torn record that loads is a lost event whose line is complete but for its newline. */
  lemma TornRecordIsLostEvent<E(!new)>(codec: Codec<E>, history: seq<Attempt<E>>)
    requires ValidCodec(codec)
    requires TornEvents(codec, Torn(FileAfter(codec, history))) != []
    ensures exists i ::
              && 0 <= i < |history|
              && TornFrom(codec, history[i], Torn(FileAfter(codec, history)))
              && TornEvents(codec, Torn(FileAfter(codec, history)))
              == [history[i].batch[KeptOf(codec, history[i])]]
  {
    var torn := Torn(FileAfter(codec, history));
    JournalIsCrashSafe(codec, history);
    var i :| 0 <= i < |history| && TornFrom(codec, history[i], torn);
    OnlyWholeRecordsDecode(codec, history[i].batch[KeptOf(codec, history[i])], torn);
  }

  lemma OnlyWholeRecordsDecode<E(!new)>(codec: Codec<E>, e: E, torn: seq<byte>)
    requires ValidCodec(codec) && torn <= codec.encode(e)
    requires TornEvents(codec, torn) != []
    ensures torn == codec.encode(e) && TornEvents(codec, torn) == [e]
  {
    assert ValidLine(codec, e, codec.encode(e));
    assert torn == codec.encode(e)[..|torn|];
  }

  // ------------------------------------------------------------------------
  // The hard error that a tear inside a character causes
  // ------------------------------------------------------------------------

  /** One event, whose record is a two-byte letter in braces. */
  const ACCENTED: seq<byte> := [0x7B, 0xC3, 0xA9, 0x7D]

  const ACCENTED_CODEC: Codec<bool> := Codec(
    (e: bool) => if e then ACCENTED else [0x7B, 0x7D],
    (line: seq<byte>) => if line == ACCENTED then Some(true) else if line == [0x7B, 0x7D] then Some(false) else None,
    (line: seq<byte>) => line == [])

  lemma AccentedCodecIsValid()
    ensures ValidCodec(ACCENTED_CODEC)
  {
    assert ACCENTED[1..] == [0xC3, 0xA9, 0x7D];
    assert [0xC3, 0xA9, 0x7D][2..] == [0x7D];
    assert [0x7D][1..] == [];
    assert [0x7B, 0x7D][1..] == [0x7D];
    assert CharLength(ACCENTED) == 1;
    assert CharLength([0xC3, 0xA9, 0x7D]) == 2;
    assert CharLength([0x7D]) == 1;
    assert IsUtf8([0x7D]);
    assert IsUtf8([0x7B, 0x7D]) && IsUtf8(ACCENTED);
    assert ValidLine(ACCENTED_CODEC, true, ACCENTED);
    assert ValidLine(ACCENTED_CODEC, false, [0x7B, 0x7D]);
  }

  lemma TearInsideCharacter()
    ensures AfterAppend(ACCENTED_CODEC, [], [true], StopAfter(2)) == [0x7B, 0xC3]
    ensures Committed([0x7B, 0xC3]) == [] && Torn([0x7B, 0xC3]) == [0x7B, 0xC3]
  {
    var torn: seq<byte> := [0x7B, 0xC3];
    assert EncodeAll(ACCENTED_CODEC, [true])[..2] == torn;
    CommittedIsUnique([], torn);
    assert [] + torn == torn;
  }

  /** A record cut inside its two-byte letter makes loading fail, until the next append removes it. */
  lemma TearInsideCharacterBlocksLoading()
    ensures ValidCodec(ACCENTED_CODEC)
    ensures Replay(ACCENTED_CODEC, AfterAppend(ACCENTED_CODEC, [], [true], StopAfter(2))) == Err
    ensures Replay(ACCENTED_CODEC, AfterAppend(ACCENTED_CODEC,
                     AfterAppend(ACCENTED_CODEC, [], [true], StopAfter(2)), [false], Complete)) == Ok([false])
  {
    hide ValidCodec, Committed, Torn, Replay;
    AccentedCodecIsValid();
    TearInsideCharacter();
    var torn: seq<byte> := [0x7B, 0xC3];
    assert torn[1..] == [0xC3];
    LoadSplits(ACCENTED_CODEC, torn, []);
    ReplayOfEncoded(ACCENTED_CODEC, [false]);
    assert [] + EncodeAll(ACCENTED_CODEC, [false]) == EncodeAll(ACCENTED_CODEC, [false]);
  }
}
