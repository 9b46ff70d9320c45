/**
  `count_acgt_motifs`: the scanner's `(position, length)` pairs folded into a
  dictionary from each pair to the number of times it occurs. The reference
  meaning of "the number of times it occurs" is the multiplicity of the pair in
  the multiset of the input list.
 */
module MotifCounts {
  import opened Scanner

  /**
    The dictionary built by the loop of `count_acgt_motifs`, one pair at a
    time from the left: each pair's entry is its previous entry (0 when
    absent) plus one.
   */
  function CountMotifs(ms: seq<Match>): (counts: map<Match, nat>)
    ensures counts.Keys == set m | m in ms
    ensures forall m :: m in counts ==> counts[m] == multiset(ms)[m]
    decreases |ms|
  {
    if ms == [] then map[]
    else
      var before := CountMotifs(ms[..|ms| - 1]);
      var key := ms[|ms| - 1];
      assert ms == ms[..|ms| - 1] + [key];
      before[key := (if key in before then before[key] else 0) + 1]
  }

  /** Some key of a non-empty dictionary. */
  ghost function Pick(counts: map<Match, nat>): (k: Match)
    requires counts != map[]
    ensures k in counts
  {
    var k :| k in counts; k
  }

  /** The sum of the values of a dictionary. */
  ghost function Total(counts: map<Match, nat>): nat
    decreases |counts|
  {
    if counts == map[] then 0
    else
      var k := Pick(counts);
      assert (counts - {k}).Keys == counts.Keys - {k};
      counts[k] + Total(counts - {k})
  }

  /** The sum may be taken starting from any key. */
  lemma {:induction false} TotalRemove(counts: map<Match, nat>, k: Match)
    requires k in counts
    ensures Total(counts) == counts[k] + Total(counts - {k})
    decreases |counts|
  {
    var j := Pick(counts);
    if j != k {
      var rest := counts - {j};
      assert rest.Keys == counts.Keys - {j};
      assert (counts - {k}).Keys == counts.Keys - {k};
      TotalRemove(rest, k);
      TotalRemove(counts - {k}, j);
      assert rest - {k} == (counts - {k}) - {j};
    }
  }

  /** Setting one entry changes the sum by the difference in that entry alone. */
  lemma TotalUpdate(counts: map<Match, nat>, k: Match, v: nat)
    ensures Total(counts[k := v]) == Total(counts - {k}) + v
    ensures k in counts ==> Total(counts) == Total(counts - {k}) + counts[k]
    ensures k !in counts ==> Total(counts) == Total(counts - {k})
  {
    TotalRemove(counts[k := v], k);
    assert counts[k := v] - {k} == counts - {k};
    if k in counts {
      TotalRemove(counts, k);
    } else {
      assert counts - {k} == counts;
    }
  }

  /** The counts add up to the number of pairs folded: no pair is lost or counted twice. */
  lemma {:induction false} CountMotifsTotal(ms: seq<Match>)
    ensures Total(CountMotifs(ms)) == |ms|
    decreases |ms|
  {
    if ms != [] {
      var before := CountMotifs(ms[..|ms| - 1]);
      var key := ms[|ms| - 1];
      var seen := if key in before then before[key] else 0;
      assert CountMotifs(ms) == before[key := seen + 1];
      CountMotifsTotal(ms[..|ms| - 1]);
      TotalUpdate(before, key, seen + 1);
    }
  }

  /** A dictionary whose every value is 1 sums to its number of keys. */
  lemma {:induction false} TotalOfOnes(counts: map<Match, nat>)
    requires forall m :: m in counts ==> counts[m] == 1
    ensures Total(counts) == |counts|
    decreases |counts|
  {
    if counts != map[] {
      var k := Pick(counts);
      assert (counts - {k}).Keys == counts.Keys - {k};
      TotalOfOnes(counts - {k});
    }
  }

  /** In a list whose positions strictly increase, every element occurs once. */
  lemma {:induction false} IncreasingOccursOnce(ms: seq<Match>, m: Match)
    requires forall a, b :: 0 <= a < b < |ms| ==> ms[a].pos < ms[b].pos
    requires m in ms
    ensures multiset(ms)[m] == 1
    decreases |ms|
  {
    var tail := ms[1..];
    assert ms == [ms[0]] + tail;
    if m == ms[0] {
      assert m !in tail by {
        forall j | 0 <= j < |tail|
          ensures tail[j] != m
        {
          assert tail[j] == ms[j + 1];
        }
      }
    } else {
      IncreasingOccursOnce(tail, m);
    }
  }

  /**
    Folding a list whose positions strictly increase counts every pair once,
    and the dictionary has exactly one entry per pair.
   */
  lemma {:induction false} IncreasingCountsAreOne(ms: seq<Match>)
    requires forall a, b :: 0 <= a < b < |ms| ==> ms[a].pos < ms[b].pos
    ensures forall m :: m in CountMotifs(ms) ==> CountMotifs(ms)[m] == 1
    ensures |CountMotifs(ms)| == |ms|
  {
    var counts := CountMotifs(ms);
    forall m | m in counts
      ensures counts[m] == 1
    {
      IncreasingOccursOnce(ms, m);
    }
    TotalOfOnes(counts);
    CountMotifsTotal(ms);
  }

  /**
    Applied to the scanner's output every count is 1: the matches have
    strictly increasing positions, so no pair repeats, and the dictionary has
    exactly one entry per match.
   */
  lemma ScanCountsAreOne(s: string)
    ensures var counts := CountMotifs(FindMicrosatellites(s));
      && counts.Keys == set m | m in FindMicrosatellites(s)
      && (forall m :: m in counts ==> counts[m] == 1)
      && |counts| == |FindMicrosatellites(s)|
  {
    IncreasingCountsAreOne(FindMicrosatellites(s));
  }
}
