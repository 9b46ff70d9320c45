# (ACGT)n microsatellite scanner — a Dafny model

This project models the core of a small DNA-analysis script. The script finds
tandem repeats of the four-letter motif `ACGT` that occur three or more times
in a row. These repeats are one class of microsatellite, also called simple
sequence repeats. The model covers three functions:

- `find_acgt_microsatellites` runs `re.finditer(r'(ACGT){3,}', sequence)`.
  It returns each match's `(start, length)`.
- `count_acgt_repeats` counts the same matches with a second scan, using
  `re.findall`.
- `count_acgt_motifs` folds the `(start, length)` pairs into a dictionary from
  each pair to its number of occurrences.

The regular-expression engine is not modelled in general. For this one fixed
pattern, Python's leftmost, greedy, non-overlapping scan is written out
directly (`Scanner.Scan`):

- At offset `i`, count the consecutive `ACGT` units (`Motif.Units`).
- If there are at least three, report `(i, 4k)` and resume at `i + 4k`.
- Otherwise, resume at `i + 1`.

The group is repeated greedily and nothing follows it in the pattern, so there
is no backtracking and this scan is exact.

Files:

- `motif.dfy` (module `Motif`): the unit, runs of units (`RunAt`), the greedy
  unit count, and lemmas about runs.
- `scanner.dfy` (module `Scanner`): the `Match` pair and the two scans. It also
  defines `ScanSpec`, a declarative description of the scan's output, and
  proves the scan complete.
- `scanner_properties.dfy` (module `ScannerProperties`):
  - the scan's output is the only list that meets `ScanSpec`;
  - matches are maximal on both sides;
  - the exact shape of each match, and the empty cases;
  - the worked examples.
- `motif_counts.dfy` (module `MotifCounts`): the dictionary fold. Its
  reference meaning is multiset multiplicity.

## Model

| member | source | states |
|---|---|---|
| `Motif.Units` | find_microsatellites_final.py:6 | The greedy `(ACGT)*` count at offset `i`: that many units start at `i`, they fit inside the string, and no further unit follows them. |
| `Motif.UnitsIsLongestRun` | find_microsatellites_final.py:6 | `k` consecutive units start at `i` if and only if `k` is at most the greedy count, so the greedy repetition takes the longest possible run. |
| `Motif.RunAtSpelled` | find_microsatellites_final.py:6-7 | A run of `k` units at `i` is exactly the slice `s[i..i+4k]` spelling `ACGT` `k` times (both directions). |
| `Scanner.Scan` | find_microsatellites_final.py:6-7 | Every pair the scan yields is a run of at least three whole units inside the string. It starts no earlier than the scan's starting offset and cannot be extended to the right. Each pair ends at or before the start of every later pair. |
| `Scanner.ScanComplete` | find_microsatellites_final.py:6-7 | Completeness: every occurrence of three consecutive units at or after the starting offset lies inside one of the pairs the scan yields. |
| `Scanner.FindMicrosatellites` | find_microsatellites_final.py:5-8 | The result meets the full declarative description: well-formed, right-maximal, ordered, non-overlapping and complete. Positions strictly increase. A sequence shorter than 12 characters, including the empty one, yields no pair. |
| `Scanner.FindAllGroups` | find_microsatellites_final.py:11 | Every element of the `findall` list is the last capture of the group `(ACGT)`, which is `"ACGT"`. |
| `Scanner.GroupsMatchScan` | find_microsatellites_final.py:6-11 | The `findall` scan and the `finditer` scan produce lists of the same length from every offset. |
| `Scanner.CountRepeats` | find_microsatellites_final.py:10-11 | `count_acgt_repeats(s)` equals the number of pairs `find_acgt_microsatellites(s)` returns, for every `s`. |
| `ScannerProperties.ScanUnique` | find_microsatellites_final.py:6-7 | Any list of pairs that meets the declarative description from offset `i` is the scan's output from `i`. |
| `ScannerProperties.FindCharacterized` | find_microsatellites_final.py:5-8 | A list of pairs meets the declarative description if and only if it is `find_acgt_microsatellites(s)`. |
| `ScannerProperties.LeftMaximal` | find_microsatellites_final.py:6 | The four characters just before a reported match are never `ACGT`, so every match is a whole maximal run. |
| `ScannerProperties.MatchShape` | find_microsatellites_final.py:6-7 | Every reported `(pos, len)` has `len % 4 == 0` and `len >= 12`. It lies inside the sequence, and `s[pos..pos+len]` is `ACGT` repeated `len/4` times. The next four characters, when present, are not `ACGT`. |
| `ScannerProperties.OccurrenceCovered` | find_microsatellites_final.py:6-7 | Every occurrence of `ACGTACGTACGT` in the sequence lies entirely inside some reported match. |
| `ScannerProperties.NoMatchIffNoOccurrence` | find_microsatellites_final.py:6-11 | The result is empty exactly when `ACGT` never occurs three times in a row. It is empty exactly when the repeat count is 0. |
| `ScannerProperties.RepeatIsOneMatch` | find_microsatellites_final.py:6-7 | A sequence that is `ACGT` repeated exactly `k >= 3` times yields the single pair `(0, 4k)`. |
| `ScannerProperties.SeparatedRunsExample` | find_microsatellites_final.py:6-7 | `ACGTACGTACGT` + `GGG` + `ACGTACGTACGT` yields `(0, 12)` and `(15, 12)`: runs separated by other characters are not merged. |
| `ScannerProperties.AdjacentRunsExample` | find_microsatellites_final.py:6-7 | Four adjacent units yield the single pair `(0, 16)`, not a three-unit match plus a leftover. |
| `MotifCounts.CountMotifs` | find_microsatellites_final.py:13-17 | The dictionary's keys are exactly the distinct pairs of the input. Each value is the number of times that pair occurs in the input (its multiset multiplicity). |
| `MotifCounts.CountMotifsTotal` | find_microsatellites_final.py:13-17 | The dictionary's values sum to the length of the input list. |
| `MotifCounts.IncreasingCountsAreOne` | find_microsatellites_final.py:13-17 | Folding a list whose positions strictly increase gives every pair the count 1, and the dictionary has one entry per pair. |
| `MotifCounts.ScanCountsAreOne` | find_microsatellites_final.py:5-17 | Applied to the scanner's output, every count is 1. The keys are exactly the reported matches, and there is one entry per match, because positions strictly increase. |

## Left out

- `read_sequence_from_file` (find_microsatellites_final.py:32-41) is left out. It does file I/O, catches `FileNotFoundError` and prints to the console. The model takes the sequence as a string that has already had its newlines removed. Characters are not checked against the nucleotide alphabet, and neither does the script check them.
- `plot_acgt_microsatellite_info` (find_microsatellites_final.py:19-30) is left out because it is matplotlib rendering. Its line 21 takes the length component of each key rather than a count. That quirk does not affect the scanner.
- `main` (find_microsatellites_final.py:43-66) is left out because it only does interactive input, printing and orchestration.
- General regular-expression matching in Python's `re` engine is left out. Only the semantics of the one fixed pattern `(ACGT){3,}` are modelled.
- Dictionary insertion order is left out. A Python `dict` keeps insertion order, but a Dafny `map` is unordered. The model states keys and values only.
