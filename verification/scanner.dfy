/**
  The microsatellite scanner: `find_acgt_microsatellites` and
  `count_acgt_repeats`. Both run the regular expression `(ACGT){3,}` over the
  sequence with Python's leftmost, greedy, non-overlapping scanning. For this
  one fixed pattern that scan is written out directly: at offset `i` the
  greedy repetition takes every consecutive unit; if there are at least three
  the match is reported and scanning resumes right after it, otherwise
  scanning resumes at `i + 1`.
 */
module Scanner {
  import opened Motif

  /** One reported microsatellite: the pair `(match.start(), len(match.group()))`. */
  datatype Match = Match(pos: nat, len: nat) {
    /** The offset just past the match. */
    function End(): nat { pos + len }
  }

  /** `m` is a run of at least three whole units inside `s`. */
  predicate WellFormed(s: string, m: Match) {
    && m.End() <= |s|
    && m.len % 4 == 0
    && m.len >= 4 * MinUnits
    && RunAt(s, m.pos, m.len / 4)
  }

  /** Every match ends at or before the start of every later match. */
  predicate Ordered(ms: seq<Match>) {
    forall a, b :: 0 <= a < b < |ms| ==> ms[a].End() <= ms[b].pos
  }

  /** Some match of `ms` contains the whole stretch `[lo, hi)`. */
  predicate Covered(ms: seq<Match>, lo: nat, hi: nat) {
    exists m :: m in ms && m.pos <= lo && hi <= m.End()
  }

  /**
    The matches the scan reports from offset `i` on, declaratively: each is a
    run of at least three units that cannot be extended to the right, none
    starts before `i`, they are ordered and do not overlap, and every
    occurrence of three consecutive units at or after `i` lies inside one.
   */
  ghost predicate ScanSpec(s: string, i: nat, ms: seq<Match>) {
    && (forall m :: m in ms ==> WellFormed(s, m) && i <= m.pos && !UnitAt(s, m.End()))
    && Ordered(ms)
    && Complete(s, i, ms)
  }

  /** Every occurrence of three consecutive units at or after `i` lies inside a match of `ms`. */
  ghost predicate Complete(s: string, i: nat, ms: seq<Match>) {
    forall p: nat :: i <= p && RunAt(s, p, MinUnits) ==> Covered(ms, p, p + 4 * MinUnits)
  }

  /**
    Leftmost-greedy scanning of `(ACGT){3,}` from offset `i`: what
    `re.finditer` yields once it has reached offset `i`.
   */
  function Scan(s: string, i: nat): (ms: seq<Match>)
    requires i <= |s|
    ensures forall m :: m in ms ==> WellFormed(s, m) && i <= m.pos && !UnitAt(s, m.End())
    ensures Ordered(ms)
    decreases |s| - i
  {
    if i == |s| then []
    else
      var k := Units(s, i);
      if k >= MinUnits then [Match(i, 4 * k)] + Scan(s, i + 4 * k)
      else Scan(s, i + 1)
  }

  /** `find_acgt_microsatellites`: every (ACGT)n microsatellite with n >= 3, left to right. */
  function FindMicrosatellites(s: string): (r: seq<Match>)
    ensures ScanSpec(s, 0, r)
    ensures forall a, b :: 0 <= a < b < |r| ==> r[a].pos < r[b].pos
    ensures |s| < 4 * MinUnits ==> r == []
  {
    ScanComplete(s, 0);
    var r := Scan(s, 0);
    assert r != [] ==> r[0] in r;
    r
  }

  /**
    What `re.findall` returns from offset `i` on: the pattern has one capture
    group, so each match contributes the group's last capture, one unit.
   */
  function FindAllGroups(s: string, i: nat): (groups: seq<string>)
    requires i <= |s|
    ensures forall g :: g in groups ==> g == Unit
    decreases |s| - i
  {
    if i == |s| then []
    else
      var k := Units(s, i);
      if k >= MinUnits then [Unit] + FindAllGroups(s, i + 4 * k)
      else FindAllGroups(s, i + 1)
  }

  /** `count_acgt_repeats`: the number of matches, found by a second scan. */
  function CountRepeats(s: string): (n: nat)
    ensures n == |FindMicrosatellites(s)|
  {
    GroupsMatchScan(s, 0);
    |FindAllGroups(s, 0)|
  }

  /** Where at least three units start, the scan reports them and resumes after them. */
  lemma ScanAtMatch(s: string, i: nat)
    requires i < |s| && Units(s, i) >= MinUnits
    ensures Scan(s, i) == [Match(i, 4 * Units(s, i))] + Scan(s, i + 4 * Units(s, i))
  {
  }

  /** A maximal run of at least three units is reported whole, and scanning resumes after it. */
  lemma MaximalRunScan(s: string, i: nat, k: nat)
    requires k >= MinUnits && RunAt(s, i, k) && !UnitAt(s, i + 4 * k)
    ensures i + 4 * k <= |s| && Scan(s, i) == [Match(i, 4 * k)] + Scan(s, i + 4 * k)
  {
    RunInBounds(s, i, k);
    UnitsOfMaximalRun(s, i, k);
    ScanAtMatch(s, i);
  }

  /** Where fewer than three units start, the scan moves on by one character. */
  lemma ScanAtSkip(s: string, i: nat)
    requires i < |s| && Units(s, i) < MinUnits
    ensures Scan(s, i) == Scan(s, i + 1)
  {
  }

  /**
    The first element of a non-empty list is one of its elements, stated as an
    implication so that a caller whose facts rule out a non-empty list can use
    it without indexing into that list.
   */
  lemma HeadIn(ms: seq<Match>)
    ensures ms != [] ==> ms[0] in ms
  {
  }

  /** The `findall` scan and the `finditer` scan see the same number of matches. */
  lemma {:induction false} GroupsMatchScan(s: string, i: nat)
    requires i <= |s|
    ensures |FindAllGroups(s, i)| == |Scan(s, i)|
    decreases |s| - i
  {
    if i < |s| {
      var k := Units(s, i);
      if k >= MinUnits {
        GroupsMatchScan(s, i + 4 * k);
      } else {
        GroupsMatchScan(s, i + 1);
      }
    }
  }

  /** Completeness: every occurrence of three consecutive units lies inside a reported match. */
  lemma {:induction false} ScanComplete(s: string, i: nat)
    requires i <= |s|
    ensures Complete(s, i, Scan(s, i))
    decreases |s| - i
  {
    if i < |s| {
      var k := Units(s, i);
      if k >= MinUnits {
        ScanComplete(s, i + 4 * k);
        CompleteAfterMatch(s, i);
      } else {
        ScanComplete(s, i + 1);
        CompleteAfterSkip(s, i);
      }
    }
  }

  /** A reported match covers every occurrence that starts inside it. */
  lemma CompleteAfterMatch(s: string, i: nat)
    requires i < |s| && Units(s, i) >= MinUnits
    requires Complete(s, i + 4 * Units(s, i), Scan(s, i + 4 * Units(s, i)))
    ensures Complete(s, i, Scan(s, i))
  {
    var k := Units(s, i);
    var m := Match(i, 4 * k);
    var rest := Scan(s, i + 4 * k);
    var ms := Scan(s, i);
    assert ms == [m] + rest;
    forall p: nat | i <= p && RunAt(s, p, MinUnits)
      ensures Covered(ms, p, p + 4 * MinUnits)
    {
      if p < m.End() {
        InsideRunOnBoundary(s, i, k, p);
        assert m in ms;
      } else {
        CoveredByTail(m, rest, p, p + 4 * MinUnits);
      }
    }
  }

  /** Whatever the tail of a list covers, the whole list covers. */
  lemma CoveredByTail(m: Match, rest: seq<Match>, lo: nat, hi: nat)
    ensures Covered(rest, lo, hi) ==> Covered([m] + rest, lo, hi)
  {
    if Covered(rest, lo, hi) {
      var m' :| m' in rest && m'.pos <= lo && hi <= m'.End();
      assert m' in [m] + rest;
    }
  }

  /** No occurrence starts at an offset the scan steps over. */
  lemma CompleteAfterSkip(s: string, i: nat)
    requires i < |s| && Units(s, i) < MinUnits
    requires Complete(s, i + 1, Scan(s, i + 1))
    ensures Complete(s, i, Scan(s, i))
  {
    UnitsIsLongestRun(s, i, MinUnits);
  }

  /**
    Three consecutive units that start inside a maximal run of `k` units lie
    wholly inside it: an 'A' inside a run only ever starts a unit, so the
    three units are the run's own units.
   */
  lemma InsideRunOnBoundary(s: string, i: nat, k: nat, p: nat)
    requires i <= p < i + 4 * k
    requires RunAt(s, i, k) && !UnitAt(s, i + 4 * k)
    requires RunAt(s, p, MinUnits)
    ensures p + 4 * MinUnits <= i + 4 * k
  {
    assert s[p..p + 4 * MinUnits] == Repeat(MinUnits);
    assert s[p] == Repeat(MinUnits)[0] == 'A';
    RunChar(s, i, k, p - i);
    var j := (p - i) / 4;
    assert p == i + 4 * j;
    RunPrefix(s, i, j, k - j);
    RunConcat(s, i, j, MinUnits);
    MaximalRunIsLongest(s, i, k, j + MinUnits);
  }
}
