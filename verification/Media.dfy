/** Saving a transcript with its media in files of their own, and loading it back. */
module Media {
  const PREFIX := "@media/"

  datatype Block =
    | Image(data: string, mediaType: string)
    | Document(data: string, extractedText: string)
    | Other(payload: string)

  datatype Message = Message(role: string, content: seq<Block>)

  /** Media files by their name. */
  type Files = map<string, string>

  type Hash = string -> string

  predicate IsReference(data: string) {
    PREFIX <= data
  }

  predicate HasData(b: Block) {
    b.Image? || b.Document?
  }

  function WithData(b: Block, data: string): Block
    requires HasData(b)
  {
    match b
    case Image(_, mediaType) => Image(data, mediaType)
    case Document(_, text) => Document(data, text)
  }

  predicate IsInline(b: Block) {
    HasData(b) && !IsReference(b.data)
  }

  function ExternalBlock(hash: Hash, b: Block): Block {
    if IsInline(b) then WithData(b, PREFIX + hash(b.data)) else b
  }

  function RestoredBlock(files: Files, b: Block): Block {
    if HasData(b) && IsReference(b.data) && b.data[|PREFIX|..] in files
    then WithData(b, files[b.data[|PREFIX|..]]) else b
  }

  function External(hash: Hash, messages: seq<Message>): (r: seq<Message>)
    ensures |r| == |messages|
  {
    seq(|messages|, i requires 0 <= i < |messages| =>
      Message(messages[i].role,
              seq(|messages[i].content|, k requires 0 <= k < |messages[i].content| =>
                ExternalBlock(hash, messages[i].content[k]))))
  }

  function Restored(files: Files, messages: seq<Message>): (r: seq<Message>)
    ensures |r| == |messages|
  {
    seq(|messages|, i requires 0 <= i < |messages| =>
      Message(messages[i].role,
              seq(|messages[i].content|, k requires 0 <= k < |messages[i].content| =>
                RestoredBlock(files, messages[i].content[k]))))
  }

  ghost predicate Contains(messages: seq<Message>, b: Block) {
    exists i, k :: 0 <= i < |messages| && 0 <= k < |messages[i].content| && messages[i].content[k] == b
  }

  // ------------------------------------------------------------------------
  // The store
  // ------------------------------------------------------------------------

  class TranscriptStore {
    const hash: Hash
    var files: Files
    var transcript: seq<Message>

    constructor (hash: Hash)
      ensures this.hash == hash && files == map[] && transcript == []
    {
      this.hash := hash;
      files := map[];
      transcript := [];
    }

    /** A media file that exists is never written again. */
    method Save(messages: seq<Message>)
      modifies this
      ensures transcript == External(hash, messages)
      ensures files == Filed(hash, old(files), messages)
      ensures SavedFiles(hash, old(files), messages, files)
      ensures forall b | Contains(transcript, b) :: (b.Image? || b.Document?) ==> "@media/" <= b.data
    {
      for i := 0 to |messages|
        invariant files == Filed(hash, old(files), messages[..i])
      {
        var content := messages[i].content;
        for k := 0 to |content|
          invariant files == FiledBlocks(hash, Filed(hash, old(files), messages[..i]), content[..k])
        {
          assert content[..k + 1][..k] == content[..k];
          var b := content[k];
          if IsInline(b) {
            var name := hash(b.data);
            if name !in files {
              files := files[name := b.data];
            }
          }
        }
        assert content[..|content|] == content;
        assert messages[..i + 1][..i] == messages[..i];
      }
      assert messages[..|messages|] == messages;
      FiledIsSaved(hash, old(files), messages);
      transcript := External(hash, messages);
    }

    /** Puts file contents back in place of references, block by block. */
    method Load() returns (messages: seq<Message>)
      ensures messages == Restored(files, transcript)
    {
      messages := transcript;
      for i := 0 to |transcript|
        invariant |messages| == |transcript|
        invariant forall j | 0 <= j < i :: messages[j] == Restored(files, transcript)[j]
        invariant forall j | i <= j < |transcript| :: messages[j] == transcript[j]
      {
        var content := transcript[i].content;
        for k := 0 to |transcript[i].content|
          invariant |content| == |transcript[i].content|
          invariant forall j | 0 <= j < k :: content[j] == RestoredBlock(files, transcript[i].content[j])
          invariant forall j | k <= j < |content| :: content[j] == transcript[i].content[j]
        {
          var b := content[k];
          if HasData(b) && IsReference(b.data) {
            var name := b.data[|PREFIX|..];
            if name in files {
              content := content[k := WithData(b, files[name])];
            }
          }
        }
        assert content == Restored(files, transcript)[i].content;
        messages := messages[i := Message(transcript[i].role, content)];
      }
    }
  }

  function BlockHashes(hash: Hash, blocks: seq<Block>): set<string> {
    set b | b in blocks && IsInline(b) :: hash(b.data)
  }

  ghost function InlineHashes(hash: Hash, messages: seq<Message>): set<string> {
    if messages == [] then {}
    else InlineHashes(hash, messages[..|messages| - 1]) + BlockHashes(hash, messages[|messages| - 1].content)
  }

  function FiledBlock(hash: Hash, files: Files, b: Block): Files {
    if IsInline(b) && hash(b.data) !in files then files[hash(b.data) := b.data] else files
  }

  function FiledBlocks(hash: Hash, files: Files, blocks: seq<Block>): Files {
    if blocks == [] then files
    else FiledBlock(hash, FiledBlocks(hash, files, blocks[..|blocks| - 1]), blocks[|blocks| - 1])
  }

  function Filed(hash: Hash, files: Files, messages: seq<Message>): Files {
    if messages == [] then files
    else FiledBlocks(hash, Filed(hash, files, messages[..|messages| - 1]), messages[|messages| - 1].content)
  }

  /** Some inline block of the messages is what this name was written from. */
  ghost predicate WrittenFrom(hash: Hash, messages: seq<Message>, name: string, data: string) {
    exists b :: Contains(messages, b) && IsInline(b) && hash(b.data) == name && data == b.data
  }

  /** What a save does to the media files. */
  ghost predicate SavedFiles(hash: Hash, before: Files, messages: seq<Message>, after: Files) {
    && after.Keys == before.Keys + InlineHashes(hash, messages)
    && (forall name | name in before :: after[name] == before[name])
    && forall name | name in after && name !in before :: WrittenFrom(hash, messages, name, after[name])
  }

  lemma {:induction false} FiledBlocksIsSaved(hash: Hash, files: Files, blocks: seq<Block>)
    ensures var after := FiledBlocks(hash, files, blocks);
            && after.Keys == files.Keys + BlockHashes(hash, blocks)
            && (forall name | name in files :: after[name] == files[name])
            && forall name | name in after && name !in files ::
                 exists k :: 0 <= k < |blocks| && IsInline(blocks[k]) && hash(blocks[k].data) == name
                             && after[name] == blocks[k].data
  {
    if blocks != [] {
      var n := |blocks| - 1;
      FiledBlocksIsSaved(hash, files, blocks[..n]);
      assert blocks == blocks[..n] + [blocks[n]];
      BlockHashesNext(hash, blocks[..n], blocks[n]);
    }
  }

  lemma {:induction false} FiledIsSaved(hash: Hash, before: Files, messages: seq<Message>)
    ensures SavedFiles(hash, before, messages, Filed(hash, before, messages))
  {
    if messages != [] {
      var n := |messages| - 1;
      var middle, after := Filed(hash, before, messages[..n]), Filed(hash, before, messages);
      FiledIsSaved(hash, before, messages[..n]);
      FiledBlocksIsSaved(hash, middle, messages[n].content);
      forall name | name in after && name !in before
        ensures WrittenFrom(hash, messages, name, after[name])
      {
        if name in middle {
          ContainsGrows(hash, messages, n, name, middle[name]);
        } else {
          var k :| 0 <= k < |messages[n].content| && IsInline(messages[n].content[k])
                   && hash(messages[n].content[k].data) == name && after[name] == messages[n].content[k].data;
          assert Contains(messages, messages[n].content[k]);
        }
      }
    }
  }

  lemma ContainsGrows(hash: Hash, messages: seq<Message>, n: nat, name: string, data: string)
    requires n <= |messages| && WrittenFrom(hash, messages[..n], name, data)
    ensures WrittenFrom(hash, messages, name, data)
  {
    var b :| Contains(messages[..n], b) && IsInline(b) && hash(b.data) == name && data == b.data;
    var i, k :| 0 <= i < n && 0 <= k < |messages[..n][i].content| && messages[..n][i].content[k] == b;
    assert messages[i].content[k] == b;
  }

  lemma BlockHashesNext(hash: Hash, blocks: seq<Block>, b: Block)
    ensures BlockHashes(hash, blocks + [b]) == BlockHashes(hash, blocks) + if IsInline(b) then {hash(b.data)} else {}
  {
    var next := blocks + [b];
    assert forall x :: x in next <==> x in blocks || x == b;
  }

  lemma {:induction false} InlineHashesMeaning(hash: Hash, messages: seq<Message>, b: Block)
    requires Contains(messages, b) && IsInline(b)
    ensures hash(b.data) in InlineHashes(hash, messages)
    decreases |messages|
  {
    var i, k :| 0 <= i < |messages| && 0 <= k < |messages[i].content| && messages[i].content[k] == b;
    var n := |messages| - 1;
    if i == n {
      assert b in messages[n].content;
    } else {
      assert messages[..n][i].content[k] == b;
      InlineHashesMeaning(hash, messages[..n], b);
    }
  }

  // ------------------------------------------------------------------------
  // Round trip
  // ------------------------------------------------------------------------

  /** The block comes back from these files: inline data is filed under its hash, a literal reference names no file. */
  ghost predicate ComesBack(hash: Hash, files: Files, b: Block) {
    if IsInline(b) then hash(b.data) in files && files[hash(b.data)] == b.data
    else HasData(b) && b.data[|PREFIX|..] in files ==> files[b.data[|PREFIX|..]] == b.data
  }

  lemma BlockRoundTrip(hash: Hash, files: Files, b: Block)
    ensures RestoredBlock(files, ExternalBlock(hash, b)) == b <==> ComesBack(hash, files, b)
  {
    if IsInline(b) {
      var reference := PREFIX + hash(b.data);
      assert reference[|PREFIX|..] == hash(b.data);
      assert IsReference(reference);
      if hash(b.data) !in files {
        assert reference != b.data;
      }
    }
  }

  /** A saved transcript loads back exactly when every block comes back. */
  lemma RoundTripExactly(hash: Hash, files: Files, messages: seq<Message>)
    ensures Restored(files, External(hash, messages)) == messages <==>
            forall b | Contains(messages, b) :: ComesBack(hash, files, b)
  {
    var back := Restored(files, External(hash, messages));
    forall i, k | 0 <= i < |messages| && 0 <= k < |messages[i].content|
      ensures back[i].content[k] == messages[i].content[k] <==> ComesBack(hash, files, messages[i].content[k])
      ensures Contains(messages, messages[i].content[k])
    {
      BlockRoundTrip(hash, files, messages[i].content[k]);
    }
    if forall b | Contains(messages, b) :: ComesBack(hash, files, b) {
      forall i | 0 <= i < |messages|
        ensures back[i] == messages[i]
      {
        assert back[i].content == messages[i].content;
      }
    }
  }

  /** Every media file holds data whose hash is its name. */
  ghost predicate Intact(hash: Hash, files: Files) {
    forall name | name in files :: hash(files[name]) == name && !IsReference(files[name])
  }

  ghost predicate CollisionFree(hash: Hash) {
    forall a, b | hash(a) == hash(b) :: a == b
  }

  /** With intact files and no collisions, files stay intact and inline history comes back. */
  lemma InlineHistoryRoundTrips(hash: Hash, before: Files, messages: seq<Message>, after: Files)
    requires CollisionFree(hash) && Intact(hash, before) && SavedFiles(hash, before, messages, after)
    ensures Intact(hash, after)
    ensures IsInlineHistory(messages) ==> Restored(after, External(hash, messages)) == messages
  {
    forall b | Contains(messages, b) && IsInline(b)
      ensures ComesBack(hash, after, b)
    {
      InlineHashesMeaning(hash, messages, b);
    }
    RoundTripExactly(hash, after, messages);
  }

  /** The media files after a row of saves. */
  function FiledBySaves(hash: Hash, before: Files, saves: seq<seq<Message>>): Files {
    if saves == [] then before
    else Filed(hash, FiledBySaves(hash, before, saves[..|saves| - 1]), saves[|saves| - 1])
  }

  ghost predicate IsInlineHistory(messages: seq<Message>) {
    forall b | Contains(messages, b) && HasData(b) :: IsInline(b)
  }

  /** Over any row of saves the files stay intact, and every history saved on the way still loads back at the end. */
  lemma {:induction false} EverySaveLoadsBack(hash: Hash, before: Files, saves: seq<seq<Message>>)
    requires CollisionFree(hash) && Intact(hash, before)
    ensures var files := FiledBySaves(hash, before, saves);
            && Intact(hash, files)
            && (forall n | 0 <= n < |saves| && IsInlineHistory(saves[n]) ::
                  Restored(files, External(hash, saves[n])) == saves[n])
    decreases |saves|
  {
    if saves != [] {
      var last := |saves| - 1;
      var middle, files := FiledBySaves(hash, before, saves[..last]), FiledBySaves(hash, before, saves);
      EverySaveLoadsBack(hash, before, saves[..last]);
      FiledIsSaved(hash, middle, saves[last]);
      InlineHistoryRoundTrips(hash, middle, saves[last], files);
      forall n | 0 <= n < last && IsInlineHistory(saves[n])
        ensures Restored(files, External(hash, saves[n])) == saves[n]
      {
        assert Restored(middle, External(hash, saves[..last][n])) == saves[n];
        LoadsBackFromMoreFiles(hash, middle, files, saves[n]);
      }
    }
  }

  lemma LoadsBackFromMoreFiles(hash: Hash, fewer: Files, more: Files, messages: seq<Message>)
    requires IsInlineHistory(messages) && forall name | name in fewer :: name in more && more[name] == fewer[name]
    requires Restored(fewer, External(hash, messages)) == messages
    ensures Restored(more, External(hash, messages)) == messages
  {
    RoundTripExactly(hash, fewer, messages);
    RoundTripExactly(hash, more, messages);
    forall b | Contains(messages, b)
      ensures ComesBack(hash, more, b)
    {
      assert ComesBack(hash, fewer, b);
    }
  }

  /** A media file cut short by a crash is never repaired: saving its data again and loading returns the short file. */
  lemma TornMediaIsPermanent(hash: Hash, before: Files, data: string, mediaType: string, after: Files)
    requires !IsReference(data) && hash(data) in before && before[hash(data)] != data
    requires SavedFiles(hash, before, [Message("user", [Image(data, mediaType)])], after)
    ensures Restored(after, External(hash, [Message("user", [Image(data, mediaType)])]))
         == [Message("user", [Image(before[hash(data)], mediaType)])]
  {
    var messages := [Message("user", [Image(data, mediaType)])];
    var reference := PREFIX + hash(data);
    assert reference[|PREFIX|..] == hash(data);
    var back := Restored(after, External(hash, messages));
    assert back[0].content[0] == Image(before[hash(data)], mediaType);
    assert back[0].content == [Image(before[hash(data)], mediaType)];
  }
}
