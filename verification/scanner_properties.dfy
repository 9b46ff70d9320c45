/**
  Properties of the microsatellite scanner: the declarative description of
  its output determines that output uniquely, reported runs are maximal on both
  sides, the scan finds nothing exactly when no three consecutive units occur,
  and two worked examples hold: runs separated by other characters stay
  separate, and four adjacent units form one match.
 */
module ScannerProperties {
  import opened Motif
  import opened Scanner

  /**
    The declarative description fixes the scan: a list of matches that meets
    it from offset `i` on is the scan's own output from `i`.
   */
  lemma {:induction false} ScanUnique(s: string, i: nat, ms: seq<Match>)
    requires i <= |s|
    requires ScanSpec(s, i, ms)
    ensures ms == Scan(s, i)
    decreases |s| - i
  {
    if i == |s| {
      SpecAtEnd(s, ms);
    } else if Units(s, i) >= MinUnits {
      var k := Units(s, i);
      SpecAtMatch(s, i, ms);
      ScanUnique(s, i + 4 * k, ms[1..]);
      ScanAtMatch(s, i);
    } else {
      SpecAtSkip(s, i, ms);
      ScanUnique(s, i + 1, ms);
    }
  }

  /** At the end of the string no match remains. */
  lemma SpecAtEnd(s: string, ms: seq<Match>)
    requires ScanSpec(s, |s|, ms)
    ensures ms == []
  {
    HeadIn(ms);
  }

  /**
    Where the scan reports a match, a list meeting the description starts
    with that same match, and its remainder meets the description from the
    match's end.
   */
  lemma SpecAtMatch(s: string, i: nat, ms: seq<Match>)
    requires i < |s| && Units(s, i) >= MinUnits
    requires ScanSpec(s, i, ms)
    ensures ms != [] && ms == [Match(i, 4 * Units(s, i))] + ms[1..]
    ensures ScanSpec(s, i + 4 * Units(s, i), ms[1..])
  {
    SpecHead(s, i, ms);
    SpecTail(s, i, ms);
    assert ms == [ms[0]] + ms[1..];
  }

  /** Where the scan reports a match, a list meeting the description starts with that match. */
  lemma SpecHead(s: string, i: nat, ms: seq<Match>)
    requires i < |s| && Units(s, i) >= MinUnits
    requires ScanSpec(s, i, ms)
    ensures ms != [] && ms[0] == Match(i, 4 * Units(s, i))
  {
    UnitsIsLongestRun(s, i, MinUnits);
    var m :| m in ms && m.pos <= i && i + 4 * MinUnits <= m.End();
    var a :| 0 <= a < |ms| && ms[a] == m;
    assert ms[0] in ms;
    assert a == 0;
    UnitsOfMaximalRun(s, i, m.len / 4);
  }

  /** After its first match, a list meeting the description meets it from that match's end. */
  lemma SpecTail(s: string, i: nat, ms: seq<Match>)
    requires ms != [] && ScanSpec(s, i, ms)
    ensures ScanSpec(s, ms[0].End(), ms[1..])
  {
    var rest := ms[1..];
    forall m' | m' in rest
      ensures ms[0].End() <= m'.pos
    {
      var b :| 0 <= b < |rest| && rest[b] == m';
      assert ms[b + 1] == m';
    }
    forall p: nat | ms[0].End() <= p && RunAt(s, p, MinUnits)
      ensures Covered(rest, p, p + 4 * MinUnits)
    {
      CoveredPastHead(ms, p, p + 4 * MinUnits);
    }
  }

  /** Where the scan steps over an offset, no match of a list meeting the description starts there. */
  lemma SpecAtSkip(s: string, i: nat, ms: seq<Match>)
    requires i < |s| && Units(s, i) < MinUnits
    requires ScanSpec(s, i, ms)
    ensures ScanSpec(s, i + 1, ms)
  {
    forall m | m in ms
      ensures i + 1 <= m.pos
    {
      UnitsIsLongestRun(s, i, m.len / 4);
    }
    UnitsIsLongestRun(s, i, MinUnits);
  }

  /** A stretch covered by a list but not by its first match is covered by the rest. */
  lemma CoveredPastHead(ms: seq<Match>, lo: nat, hi: nat)
    requires ms != [] && ms[0].End() <= lo
    ensures Covered(ms, lo, hi) && lo < hi ==> Covered(ms[1..], lo, hi)
  {
    if Covered(ms, lo, hi) && lo < hi {
      var m :| m in ms && m.pos <= lo && hi <= m.End();
      assert ms == [ms[0]] + ms[1..];
      assert m in ms[1..];
    }
  }

  /**
    `find_acgt_microsatellites` is characterised by its description: a list of
    matches meets it if and only if it is the scanner's result.
   */
  lemma FindCharacterized(s: string, ms: seq<Match>)
    ensures ScanSpec(s, 0, ms) <==> ms == FindMicrosatellites(s)
  {
    if ScanSpec(s, 0, ms) {
      ScanUnique(s, 0, ms);
    }
  }

  /** Two different matches of an ordered list do not overlap. */
  lemma OrderedSeparated(ms: seq<Match>, x: Match)
    requires Ordered(ms) && x in ms
    ensures forall y :: y in ms && y != x ==> y.End() <= x.pos || x.End() <= y.pos
  {
    forall y | y in ms && y != x
      ensures y.End() <= x.pos || x.End() <= y.pos
    {
      var a :| 0 <= a < |ms| && ms[a] == x;
      var b :| 0 <= b < |ms| && ms[b] == y;
    }
  }

  /**
    Reported runs are maximal on the left too: the four characters just
    before a match are never a unit, so a match is a whole run.
   */
  lemma LeftMaximal(s: string, m: Match)
    requires m in FindMicrosatellites(s) && m.pos >= 4
    ensures !UnitAt(s, m.pos - 4)
  {
    var ms := FindMicrosatellites(s);
    RunPrefix(s, m.pos, 2, m.len / 4 - 2);
    RunConcat(s, m.pos - 4, 1, 2);
    OrderedSeparated(ms, m);
  }

  /**
    The shape of every reported pair `(pos, len)`: `len` is a multiple of 4 and
    at least 12, `s[pos..pos + len]` is `ACGT` repeated `len / 4` times, and the
    four characters after it, when there are four, are not `ACGT`.
   */
  lemma MatchShape(s: string, m: Match)
    requires m in FindMicrosatellites(s)
    ensures m.len % 4 == 0 && m.len >= 12
    ensures m.pos + m.len <= |s| && s[m.pos..m.pos + m.len] == Repeat(m.len / 4)
    ensures m.pos + m.len + 4 <= |s| ==> s[m.pos + m.len..m.pos + m.len + 4] != "ACGT"
  {
    RunAtSpelled(s, m.pos, m.len / 4);
    UnitAtSpelled(s, m.End());
  }

  /** Every occurrence of `ACGTACGTACGT` in the sequence lies inside some reported match. */
  lemma OccurrenceCovered(s: string, p: nat)
    requires p + 12 <= |s| && s[p..p + 12] == "ACGTACGTACGT"
    ensures exists m :: m in FindMicrosatellites(s) && m.pos <= p && p + 12 <= m.pos + m.len
  {
    assert Repeat(MinUnits) == "ACGTACGTACGT";
    RunAtSpelled(s, p, MinUnits);
    var ms := FindMicrosatellites(s);
    assert Covered(ms, p, p + 4 * MinUnits);
    var m :| m in ms && m.pos <= p && p + 4 * MinUnits <= m.End();
    assert p + 12 <= m.pos + m.len;
  }

  /** The scan finds nothing exactly when no three consecutive units occur anywhere. */
  lemma NoMatchIffNoOccurrence(s: string)
    ensures FindMicrosatellites(s) == [] ==> forall p: nat :: !RunAt(s, p, MinUnits)
    ensures (forall p: nat :: !RunAt(s, p, MinUnits)) ==> FindMicrosatellites(s) == []
    ensures FindMicrosatellites(s) == [] <==> CountRepeats(s) == 0
  {
    var ms := FindMicrosatellites(s);
    if ms != [] {
      var first: nat := ms[0].pos;
      assert ms[0] in ms;
      RunPrefix(s, first, MinUnits, ms[0].len / 4 - MinUnits);
      assert RunAt(s, first, MinUnits);
    }
  }

  /** A sequence that is nothing but `k >= 3` units is one match, the whole sequence. */
  lemma RepeatIsOneMatch(s: string, k: nat)
    requires k >= MinUnits && s == Repeat(k)
    ensures FindMicrosatellites(s) == [Match(0, 4 * k)]
  {
    RunAtSpelled(s, 0, k);
    assert s[0..4 * k] == s;
    MaximalRunScan(s, 0, k);
  }

  /** Runs separated by other characters are reported separately. */
  lemma SeparatedRunsExample(s: string)
    requires s == "ACGTACGTACGTGGGACGTACGTACGT"
    ensures FindMicrosatellites(s) == [Match(0, 12), Match(15, 12)]
  {
    SeparatedFirstRun(s);
    SeparatedSecondRun(s);
  }

  /** The first run of the separated-runs example, and the three offsets skipped after it. */
  lemma SeparatedFirstRun(s: string)
    requires s == "ACGTACGTACGTGGGACGTACGTACGT"
    ensures Scan(s, 0) == [Match(0, 12)] + Scan(s, 15)
  {
    SeparatedFirstRunSpelled(s);
    MaximalRunScan(s, 0, 3);
    ScanAtSkip(s, 12);
    ScanAtSkip(s, 13);
    ScanAtSkip(s, 14);
  }

  /** The separated-runs example starts with three units followed by `GGG`. */
  lemma SeparatedFirstRunSpelled(s: string)
    requires s == "ACGTACGTACGTGGGACGTACGTACGT"
    ensures RunAt(s, 0, 3) && !UnitAt(s, 12) && !UnitAt(s, 13) && !UnitAt(s, 14)
  {
  }

  /** The second run of the separated-runs example ends the string. */
  lemma SeparatedSecondRun(s: string)
    requires s == "ACGTACGTACGTGGGACGTACGTACGT"
    ensures Scan(s, 15) == [Match(15, 12)]
  {
    assert RunAt(s, 15, 3) && !UnitAt(s, 27);
    MaximalRunScan(s, 15, 3);
  }

  /** Four adjacent units are one match of length 16, not a match of three and a leftover. */
  lemma AdjacentRunsExample(s: string)
    requires s == "ACGTACGTACGTACGT"
    ensures FindMicrosatellites(s) == [Match(0, 16)]
  {
    assert s == Repeat(4);
    RepeatIsOneMatch(s, 4);
  }
}
