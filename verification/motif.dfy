/**
  The vocabulary of an (ACGT)n microsatellite: the four-letter unit, runs of
  consecutive units inside a DNA string, and the greedy count of how many units
  follow one another from a given offset. Strings are sequences of characters;
  offsets are 0-based, as in Python.
 */
module Motif {

  /** The repeated unit of the pattern `(ACGT){3,}`. */
  const Unit: string := "ACGT"

  /** The least number of consecutive units the `{3,}` repetition accepts. */
  const MinUnits: nat := 3

  /** `Unit` written `k` times in a row. */
  function Repeat(k: nat): (r: string)
    ensures |r| == 4 * k
  {
    if k == 0 then [] else Unit + Repeat(k - 1)
  }

  /** One whole unit starts at offset `i` of `s`. */
  predicate UnitAt(s: string, i: nat) {
    && i + 4 <= |s|
    && s[i] == Unit[0] && s[i + 1] == Unit[1] && s[i + 2] == Unit[2] && s[i + 3] == Unit[3]
  }

  /** `k` consecutive units start at offset `i` of `s`. */
  predicate RunAt(s: string, i: nat, k: nat)
    decreases k
  {
    if k == 0 then i <= |s| else UnitAt(s, i) && RunAt(s, i + 4, k - 1)
  }

  /**
    The number of consecutive units starting at `i`: what the greedy
    repetition `(ACGT)*` consumes when it is tried at offset `i`.
   */
  function Units(s: string, i: nat): (k: nat)
    requires i <= |s|
    ensures i + 4 * k <= |s|
    ensures RunAt(s, i, k)
    ensures !UnitAt(s, i + 4 * k)
    decreases |s| - i
  {
    if UnitAt(s, i) then 1 + Units(s, i + 4) else 0
  }

  /** A unit is the four characters `ACGT` at that offset. */
  lemma UnitAtSpelled(s: string, i: nat)
    ensures UnitAt(s, i) <==> i + 4 <= |s| && s[i..i + 4] == Unit
  {
    if i + 4 <= |s| {
      assert s[i..i + 4] == [s[i], s[i + 1], s[i + 2], s[i + 3]];
    }
  }

  /** A run of `k` units is the stretch `s[i..i + 4k]` spelling `Unit` `k` times. */
  lemma {:induction false} RunAtSpelled(s: string, i: nat, k: nat)
    ensures RunAt(s, i, k) <==> i + 4 * k <= |s| && s[i..i + 4 * k] == Repeat(k)
    decreases k
  {
    if k > 0 {
      RunAtSpelled(s, i + 4, k - 1);
      UnitAtSpelled(s, i);
      if i + 4 * k <= |s| {
        var whole := s[i..i + 4 * k];
        assert whole == s[i..i + 4] + s[i + 4..i + 4 * k];
        assert Repeat(k) == Unit + Repeat(k - 1);
        if whole == Repeat(k) {
          assert whole[..4] == Unit;
          assert whole[4..] == Repeat(k - 1);
        }
      }
    }
  }

  /** A run lies inside the string. */
  lemma {:induction false} RunInBounds(s: string, i: nat, k: nat)
    ensures RunAt(s, i, k) ==> i + 4 * k <= |s|
    decreases k
  {
    if k > 0 {
      RunInBounds(s, i + 4, k - 1);
    }
  }

  /** A run of `a` units followed by a run of `b` units is a run of `a + b` units. */
  lemma {:induction false} RunConcat(s: string, i: nat, a: nat, b: nat)
    ensures RunAt(s, i, a) && RunAt(s, i + 4 * a, b) ==> RunAt(s, i, a + b)
    decreases a
  {
    if a == 0 {
      RunInBounds(s, i, b);
    } else {
      RunConcat(s, i + 4, a - 1, b);
    }
  }

  /** Every prefix of a run is a run. */
  lemma {:induction false} RunPrefix(s: string, i: nat, a: nat, b: nat)
    ensures RunAt(s, i, a + b) ==> RunAt(s, i, a)
    decreases a
  {
    if a == 0 {
      RunInBounds(s, i, b);
    } else {
      RunPrefix(s, i + 4, a - 1, b);
    }
  }

  /** The tail of a run, after its first `a` units, is a run. */
  lemma {:induction false} RunSuffix(s: string, i: nat, a: nat, b: nat)
    ensures RunAt(s, i, a + b) ==> RunAt(s, i + 4 * a, b)
    decreases a
  {
    if a > 0 {
      RunSuffix(s, i + 4, a - 1, b);
    }
  }

  /**
    The greedy count is exact: `k` units start at `i` if and only if `k` is at
    most `Units(s, i)`.
   */
  lemma UnitsIsLongestRun(s: string, i: nat, k: nat)
    requires i <= |s|
    ensures RunAt(s, i, k) <==> k <= Units(s, i)
  {
    var u := Units(s, i);
    if k <= u {
      RunPrefix(s, i, k, u - k);
    } else {
      RunPrefix(s, i, u + 1, k - (u + 1));
      RunSuffix(s, i, u, 1);
    }
  }

  /** A run that cannot be extended to the right has exactly the greedy count of units. */
  lemma UnitsOfMaximalRun(s: string, i: nat, k: nat)
    requires RunAt(s, i, k) && !UnitAt(s, i + 4 * k)
    ensures Units(s, i) == k
  {
    RunInBounds(s, i, k);
    UnitsIsLongestRun(s, i, k);
    UnitsIsLongestRun(s, i, k + 1);
    RunSuffix(s, i, k, 1);
  }

  /**
    A run that cannot be extended to the right is the longest run from its
    start: no run of more units starts there.
   */
  lemma MaximalRunIsLongest(s: string, i: nat, k: nat, n: nat)
    requires RunAt(s, i, k) && !UnitAt(s, i + 4 * k)
    ensures RunAt(s, i, n) ==> n <= k
  {
    RunInBounds(s, i, k);
    UnitsOfMaximalRun(s, i, k);
    UnitsIsLongestRun(s, i, n);
  }

  /**
    Inside a run every character is fixed by its distance to the run's start:
    in particular an 'A' occurs only on a unit boundary.
   */
  lemma {:induction false} RunChar(s: string, i: nat, k: nat, j: nat)
    requires RunAt(s, i, k)
    requires j < 4 * k
    ensures i + j < |s| && s[i + j] == Unit[j % 4]
    ensures s[i + j] == 'A' ==> j % 4 == 0
    decreases k
  {
    RunInBounds(s, i, k);
    if j >= 4 {
      RunChar(s, i + 4, k - 1, j - 4);
    }
  }
}
