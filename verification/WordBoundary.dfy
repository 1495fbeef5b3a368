/** Text matches whose neighbours are not identifier bytes, for files without a grammar. */
module WordBoundary {
  import opened Utf8

  /** ASCII letters, digits and the underscore; every non-ASCII byte counts as one too. */
  predicate IsIdentByte(b: byte) {
    0x30 <= b <= 0x39 || 0x41 <= b <= 0x5A || 0x61 <= b <= 0x7A || b == 0x5F || b >= 0x80
  }

  /** The bytes that go on with an identifier, by the characters they stand for. */
  lemma IdentBytesMeaning(b: byte)
    ensures var c := b as char;
            IsIdentByte(b) <==> '0' <= c <= '9' || 'A' <= c <= 'Z' || 'a' <= c <= 'z' || c == '_' || b as int > 127
  {
  }

  /** The needle stands at `i` with no identifier byte on either side. */
  predicate BoundedAt(haystack: seq<byte>, needle: seq<byte>, i: nat) {
    && i + |needle| <= |haystack|
    && haystack[i..i + |needle|] == needle
    && (i == 0 || !IsIdentByte(haystack[i - 1]))
    && (i + |needle| == |haystack| || !IsIdentByte(haystack[i + |needle|]))
  }

  ghost predicate BoundedOverlap(haystack: seq<byte>, needle: seq<byte>) {
    exists i: nat, j: nat ::
      BoundedAt(haystack, needle, i) && BoundedAt(haystack, needle, j) && i < j < i + |needle|
  }

  datatype Match = Match(start: nat, end: nat)

  /**
   * The matches are bounded occurrences, in order and disjoint, and every other bounded occurrence
   * starts inside a match.
   */
  ghost predicate IsReport(haystack: seq<byte>, needle: seq<byte>, matches: seq<Match>) {
    && (forall k | 0 <= k < |matches| ::
          BoundedAt(haystack, needle, matches[k].start) && matches[k].end == matches[k].start + |needle|)
    && (forall j, k | 0 <= j < k < |matches| :: matches[j].end <= matches[k].start)
    && (forall i: nat {:trigger Covered(matches, i)} | BoundedAt(haystack, needle, i) :: Covered(matches, i))
  }

  ghost predicate Covered(matches: seq<Match>, i: nat) {
    exists k :: 0 <= k < |matches| && matches[k].start <= i < matches[k].end
  }

  lemma CoveredGrows(matches: seq<Match>, m: Match)
    ensures forall p: nat | Covered(matches, p) || m.start <= p < m.end :: Covered(matches + [m], p)
  {
    var more := matches + [m];
    assert more[|matches|] == m && forall k | 0 <= k < |matches| :: more[k] == matches[k];
  }

  method FindWordBoundaryMatches(haystack: seq<byte>, needle: seq<byte>) returns (matches: seq<Match>)
    ensures needle == [] ==> matches == []
    ensures needle != [] ==> IsReport(haystack, needle, matches)
  {
    matches := [];
    if needle == [] {
      return;
    }
    var i: nat := 0;
    while i + |needle| <= |haystack|
      invariant forall k | 0 <= k < |matches| ::
          BoundedAt(haystack, needle, matches[k].start) && matches[k].end == matches[k].start + |needle| <= i
      invariant forall j, k | 0 <= j < k < |matches| :: matches[j].end <= matches[k].start
      invariant forall p: nat {:trigger Covered(matches, p)} | p < i && BoundedAt(haystack, needle, p) ::
          Covered(matches, p)
      decreases |haystack| - i
    {
      if haystack[i..i + |needle|] == needle {
        var beforeOk := i == 0 || !IsIdentByte(haystack[i - 1]);
        var afterOk := i + |needle| == |haystack| || !IsIdentByte(haystack[i + |needle|]);
        if beforeOk && afterOk {
          ghost var earlier := matches;
          matches := matches + [Match(i, i + |needle|)];
          CoveredGrows(earlier, Match(i, i + |needle|));
          i := i + |needle|;
          continue;
        }
      }
      i := i + 1;
    }
  }

  /** Every bounded occurrence is reported exactly when no two of them overlap. */
  lemma ReportIsCompleteExactly(haystack: seq<byte>, needle: seq<byte>, matches: seq<Match>)
    requires needle != [] && IsReport(haystack, needle, matches)
    ensures (forall i: nat | BoundedAt(haystack, needle, i) :: Match(i, i + |needle|) in matches)
            <==> !BoundedOverlap(haystack, needle)
  {
    if BoundedOverlap(haystack, needle) {
      var i: nat, j: nat :|
        BoundedAt(haystack, needle, i) && BoundedAt(haystack, needle, j) && i < j < i + |needle|;
      OverlapNotBothReported(haystack, needle, matches, i, j);
    } else {
      forall i: nat | BoundedAt(haystack, needle, i)
        ensures Match(i, i + |needle|) in matches
      {
        assert Covered(matches, i);
        var k :| 0 <= k < |matches| && matches[k].start <= i < matches[k].end;
        ReportedWhenApart(haystack, needle, matches[k], i);
      }
    }
  }

  /** Covered by a match that starts elsewhere, an occurrence would overlap that match. */
  lemma ReportedWhenApart(haystack: seq<byte>, needle: seq<byte>, m: Match, i: nat)
    requires BoundedAt(haystack, needle, m.start) && m.end == m.start + |needle|
    requires BoundedAt(haystack, needle, i) && m.start <= i < m.end
    requires !BoundedOverlap(haystack, needle)
    ensures m == Match(i, i + |needle|)
  {
  }

  lemma OverlapNotBothReported(haystack: seq<byte>, needle: seq<byte>, matches: seq<Match>, i: nat, j: nat)
    requires IsReport(haystack, needle, matches) && i < j < i + |needle|
    ensures Match(i, i + |needle|) !in matches || Match(j, j + |needle|) !in matches
  {
  }

  /** Occurrences of an identifier cannot overlap: the byte before the second one belongs to the first. */
  lemma IdentifiersDoNotOverlap(haystack: seq<byte>, needle: seq<byte>)
    requires forall k | 0 <= k < |needle| :: IsIdentByte(needle[k])
    ensures !BoundedOverlap(haystack, needle)
  {
    forall i: nat, j: nat | BoundedAt(haystack, needle, i) && i < j < i + |needle|
      ensures !BoundedAt(haystack, needle, j)
    {
      assert haystack[j - 1] == haystack[i..i + |needle|][j - 1 - i];
    }
  }

  const A_SPACE_A: seq<byte> := [0x61, 0x20, 0x61]

  const A_SPACE_A_SPACE_A: seq<byte> := [0x61, 0x20, 0x61, 0x20, 0x61]

  /** In "a a a" the needle "a a" stands twice on its own, and every report has only the first of the two. */
  lemma SecondOfOverlappingIsMissing(matches: seq<Match>)
    requires IsReport(A_SPACE_A_SPACE_A, A_SPACE_A, matches)
    ensures BoundedAt(A_SPACE_A_SPACE_A, A_SPACE_A, 0) && BoundedAt(A_SPACE_A_SPACE_A, A_SPACE_A, 2)
    ensures BoundedOverlap(A_SPACE_A_SPACE_A, A_SPACE_A)
    ensures Match(0, 3) in matches && Match(2, 5) !in matches
  {
    var haystack, needle := A_SPACE_A_SPACE_A, A_SPACE_A;
    assert haystack[0..3] == needle && haystack[2..5] == needle;
    assert BoundedAt(haystack, needle, 0) && BoundedAt(haystack, needle, 2);
    assert haystack[1..4] != needle by {
      assert haystack[1..4][0] == 0x20;
    }
    assert Covered(matches, 0);
    var k :| 0 <= k < |matches| && matches[k].start <= 0 < matches[k].end;
    assert matches[k] == Match(0, 3);
  }
}
