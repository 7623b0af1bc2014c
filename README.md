# Muon–tau skim: a Dafny model of the per-event selection

The skim reduces a collision dataset to the events of a Higgs-to-tau-tau search.
It works in several steps. It keeps events that fired the muon–tau trigger. It
marks the good muons, taus and jets. It keeps events with at least one good muon
and at least one good tau. For each event it picks one muon–tau pair. It then
writes a fixed set of columns for that pair: the pair's kinematics, the first two
good jets (or the -999 sentinel), a weight for the sample, and a generator-truth
flag.

This project models that per-event logic of `skim.cxx` in Dafny and proves how it
behaves:

- `Azimuth` (azimuth.dfy): `std::fmod` over the reals, and `Helper::DeltaPhi` both
  as a function and as a method that updates its local `r` in place.
- `Candidates` (candidates.dfy): the muon, tau and jet records and the three
  goodness masks. It also has the two RVec operations the skim applies to masks:
  `Sum(mask)` (here `Count`) and `x[mask]` (here `Masked`).
- `PairSelection` (pair_selection.dfy): the `build_pair` lambda, written as methods
  over a `validPair` array with the source's three loops. They are proved against a
  reference function `SelectPair` and against a declarative description of the
  chosen pair: largest pt first, then smallest isolation, where the first candidate
  wins a tie.
- `JetVariables` (jet_variables.dfy): `get_first`, `get_second`, `compute_mjj`,
  `compute_ptjj` and `compute_jdeta`, together with their -999 sentinel.
- `Sample` (sample.dfy): the test "the input path contains Run2012" (main passes
  its first argument, the input file, as `sample`), the event weight and `gen_match`.
- `Skim` (skim.dfy): the filter chain, the event-retention predicate and the output
  record, plus lemmas that connect them from end to end.

Reals stand for float and double. The half-period `c` of `DeltaPhi` is a
parameter, as it is in the source, where it defaults to `M_PI`; callers pass
`Azimuth.Pi`, the value of M_PI. `build_pair` instantiates `DeltaPhi` with
`T = float`, so in the source the default is M_PI rounded to float
(about 3.14159274); that difference belongs to the rounding the reals leave out.

## Model

| member | source | states |
|---|---|---|
| `Azimuth.Fmod` | skim.cxx:79 | the truncated remainder: x equals an integer quotient times m plus r, r has the sign of x, and abs(r) < m |
| `Azimuth.FmodOdd` | skim.cxx:79 | fmod(-x, m) = -fmod(x, m) |
| `Azimuth.DeltaPhi` | skim.cxx:77-87 | the wrapped difference lies in [-c, c], and v2 - v1 equals it plus a whole number of periods 2c |
| `Azimuth.ComputeDeltaPhi` | skim.cxx:77-87 | after the in-place branch updates of `r`, the result is in [-c, c] and equals `DeltaPhi` |
| `Azimuth.DeltaPhiOfSmallDifference` | skim.cxx:80-86 | a difference already in [-c, c] comes back unchanged |
| `Azimuth.DeltaPhiAntisymmetric` | skim.cxx:77-87 | swapping the two azimuths negates the result |
| `Azimuth.DeltaPhiAcrossBoundary` | skim.cxx:77-87 | azimuths -3 and 3 give 6 - 2π (about -0.283), not 6 |
| `Candidates.IsGoodMuon` | skim.cxx:41 | a good muon: abs(eta) < 2.1, pt > 17 and the tight ID |
| `Candidates.IsGoodTau` | skim.cxx:54-56 | a good tau: non-zero charge, abs(eta) < 2.3, pt > 20 and the decay-mode, tight-isolation and both anti-lepton IDs |
| `Candidates.IsGoodJet` | skim.cxx:231 | a good jet: pile-up ID, abs(eta) < 4.7 and pt > 30 |
| `Candidates.GoodMuons` | skim.cxx:41 | the mask has one entry per muon, and an entry is set iff abs(eta) < 2.1, pt > 17 and tightId |
| `Candidates.GoodTaus` | skim.cxx:54-56 | an entry is set iff charge != 0, abs(eta) < 2.3, pt > 20 and all four ID flags hold |
| `Candidates.GoodJets` | skim.cxx:231 | an entry is set iff puId, abs(eta) < 4.7 and pt > 30 |
| `Candidates.Count` | skim.cxx:66-67 | `Sum(mask)` is never more than the mask length |
| `Candidates.CountPositiveIff` | skim.cxx:66-67 | `Sum(mask) > 0` iff some entry is set |
| `Candidates.Masked` | skim.cxx:174 | `x[mask]` has exactly `Sum(mask)` entries |
| `Candidates.MaskedAt` | skim.cxx:174 | a set entry i appears in `x[mask]` at the position equal to the number of set entries before i |
| `PairSelection.Combinations` | skim.cxx:105-106 | `Combinations(v1, v2)` has one entry per pair in the cross product, and every index is in range |
| `PairSelection.CombinationsCover` | skim.cxx:105 | the pair (a, b) is enumerated at flat index a·n2 + b |
| `PairSelection.CombinationsMuonMajor` | skim.cxx:105 | the enumeration is muon-major: the muon index never decreases, and for one muon the tau index increases |
| `PairSelection.SeparatedInDeltaR` | skim.cxx:114-117 | the squared ΔR, with Δφ from `DeltaPhi` at half-period π, exceeds 0.25 |
| `PairSelection.ValidPair` | skim.cxx:113-121 | muon m and tau t are in range, both good, and ΔR-separated: the condition under which `validPair` is set |
| `PairSelection.SelectPair` | skim.cxx:101-149 | the reference selection: the first muon of strictly largest pt above -1 among valid pairs, then its first tau of strictly smallest iso below 999 |
| `PairSelection.DeltaRThreshold` | skim.cxx:114-117 | for r = sqrt(s), r > 0.5 iff s > 0.25, which justifies the squared test |
| `PairSelection.BestMuonBelow` | skim.cxx:124-133 | the muon chosen among the first k muons is -1 or an index below k |
| `PairSelection.BestTauBelow` | skim.cxx:136-146 | the tau chosen among the first k taus is -1 or an index below k |
| `PairSelection.BestMuonBelowIsSelected` | skim.cxx:124-133 | scanning the muons with a strict `<` from maxPt = -1 yields the described muon |
| `PairSelection.BestTauBelowIsSelected` | skim.cxx:136-146 | scanning the taus with a strict `>` from minIso = 999 yields the described tau |
| `PairSelection.SelectedMuonUnique` | skim.cxx:124-133 | the description fixes the muon index, so the selection is deterministic |
| `PairSelection.SelectedTauUnique` | skim.cxx:136-146 | the description fixes the tau index |
| `PairSelection.SelectPairIsSelected` | skim.cxx:124-146 | the reference selection meets both descriptions |
| `PairSelection.SelectedPairIsValid` | skim.cxx:109-148 | idx_1 is -1 or a good muon of some valid pair; idx_1 = -1 forces idx_2 = -1; idx_2 != -1 makes (idx_1, idx_2) a valid pair; with no valid pair both are -1 |
| `PairSelection.SomeMuonChosen` | skim.cxx:124-133 | a valid pair whose muon has pt above -1 forces idx_1 != -1 |
| `PairSelection.SelectedMuonMaximisesPt` | skim.cxx:124-133 | idx_1 has the largest pt over all valid pairs, and the smallest index among muons with that pt |
| `PairSelection.SelectedTauMinimisesIso` | skim.cxx:136-146 | idx_2 has iso below 999, the smallest iso over the valid pairs of idx_1, and the smallest index among taus with that iso |
| `PairSelection.SomeTauChosen` | skim.cxx:136-146 | a valid tau of the chosen muon with iso below 999 forces idx_2 != -1 |
| `PairSelection.HarderMuonWinsExample` | skim.cxx:124-133 | with valid muons of pt 20 and 35 and one tau, the muon of pt 35 is chosen |
| `PairSelection.FirstMuonWinsTieExample` | skim.cxx:129 | with two valid muons of equal pt, the first one (index 0) is chosen |
| `PairSelection.BuildPair` | skim.cxx:101-149 | the returned pair meets the declarative description and equals `SelectPair` |
| `PairSelection.FindValidPairs` | skim.cxx:109-121 | after the loop, validPair[k] holds iff the k-th enumerated pair is good on both sides and more than 0.5 apart in ΔR |
| `PairSelection.FindBestMuon` | skim.cxx:123-133 | the pt loop over the marked pairs returns the described muon |
| `PairSelection.FindBestTau` | skim.cxx:135-146 | the isolation loop over the marked pairs of idx_1 returns the described tau |
| `JetVariables.GetFirst` | skim.cxx:172-176 | -999 when no entry is set; otherwise x at the first set index |
| `JetVariables.GetSecond` | skim.cxx:178-182 | -999 with fewer than two set entries; otherwise x at the second set index |
| `JetVariables.FirstSetIndexExists` | skim.cxx:174 | a mask with a set entry has a first set entry |
| `JetVariables.SecondSetIndexExists` | skim.cxx:180 | a mask with two set entries has a second set entry |
| `JetVariables.ComputeMjj` | skim.cxx:184-188 | the dijet mass with at least two good jets, otherwise -999 |
| `JetVariables.ComputePtjj` | skim.cxx:190-194 | the dijet pt with at least two good jets, otherwise -999 |
| `JetVariables.ComputeJdeta` | skim.cxx:196-200 | x - y with at least two good jets, otherwise -999 |
| `Sample.Contains` | skim.cxx:257 | `find(sub) != npos`, as a scan over the start positions of the name |
| `Sample.IsData` | skim.cxx:274 | the input path contains "Run2012" |
| `Sample.ContainsIffOccurs` | skim.cxx:257 | the substring scan succeeds iff "Run2012" occurs at some position of the name |
| `Sample.NotDataWithoutR` | skim.cxx:257 | a name without the letter R is never classed as data |
| `Sample.EventWeight` | skim.cxx:256-262 | data weigh exactly 1; for simulation, weight × numEvents = xsec × lumi × scale |
| `Sample.GenMatch` | skim.cxx:273-281 | always false for data; when true, both linked generator particles have abs(pdgId) = 15 |
| `Sample.GenMatchWhenBothTaus` | skim.cxx:277-279 | for simulation, two linked particles with pdgId ±15 set the flag |
| `Sample.GenMatchSignAgnostic` | skim.cxx:278-279 | flipping the signs of pdgIds leaves the flag unchanged |
| `Sample.SimulationWeightExample` | skim.cxx:260 | xsec 10, 1000 events, lumi 100 and scale 2 give weight 2 |
| `Sample.DataWeightExample` | skim.cxx:257-258 | a Run2012 sample weighs 1 whatever the other arguments, and its gen_match is false |
| `Skim.PassesMinimalSelection` | skim.cxx:30-32 | the trigger fired, nMuon > 0 and nTau > 0 |
| `Skim.HasGoodCandidates` | skim.cxx:66-67 | `Sum(goodTaus) > 0` and `Sum(goodMuons) > 0` |
| `Skim.PairOf` | skim.cxx:151-153 | the `pairIdx` column: `build_pair` applied to the event's columns |
| `Skim.HasPair` | skim.cxx:156-157 | the filters `idx_1 != -1` and `idx_2 != -1` |
| `Skim.Retained` | skim.cxx:328-332 | the event passes every filter of the chain, in order: minimal selection, good candidates, pair found |
| `Skim.GenLinksDefined` | skim.cxx:277-279 | for a retained event, the generator look-ups that `gen_match` evaluates are in range |
| `Skim.PairInputOf` | skim.cxx:151-153 | the selector reads the event's muons and taus with masks of the same lengths |
| `Skim.RetainedPairIsValid` | skim.cxx:151-157 | the pair of a retained event is a good muon and a good tau more than 0.5 apart in ΔR |
| `Skim.RetainedIffTriggerAndPair` | skim.cxx:156-157 | an event is retained iff the trigger fired and both pair indices are set, since a found pair implies the count and mask filters |
| `Skim.NoGoodCandidateDropsEvent` | skim.cxx:66-67 | no good muon, or no good tau, means the event is dropped |
| `Skim.RetainedWhenValidPairExists` | skim.cxx:151-157 | a triggered event with a valid pair is kept, provided every tau iso is below 999 |
| `Skim.JetColumn` | skim.cxx:233-242 | a Jet_* column has one entry per jet, with the attribute of that jet |
| `Skim.SkimEvent` | skim.cxx:328-335 | a record is produced iff the event passes every filter |
| `Skim.SkimRecordPair` | skim.cxx:208-220 | the muon and tau columns (pt, eta, phi, mass, iso, charge, decay mode) are those of the selected pair (idx_1, idx_2), which passes the full muon and tau cuts, ID flags included, and is more than 0.5 apart in ΔR |
| `Skim.SkimWeightPerSample` | skim.cxx:256-262 | a record's weight is `EventWeight` of the run's arguments, independent of the event; for data it is 1 and gen_match is false |
| `Skim.SkimJetColumns` | skim.cxx:231-248 | njets = Sum(goodJets); with no good jet every jet-1 column (pt, eta, phi, mass, btag) is -999, with fewer than two every jet-2 column and jdeta are -999; otherwise the jet-1 and jet-2 columns come from the first and second good jets in collection order, and jdeta = jeta_1 - jeta_2 |
| `Skim.DroppedEventNeedsNoGenLinks` | skim.cxx:328-334 | a dropped event yields no record and needs nothing of its generator links, since `gen_match` is defined after every filter |
| `Skim.UntriggeredUnmatchedExample` | skim.cxx:30 | an untriggered event with a valid pair and unmatched (-1) generator links has pair (0, 0) and yields no record |
| `Skim.SingleGoodPairExample` | skim.cxx:101-157 | one good muon at (eta 0, phi 0) and one good tau at (eta 1, phi 1) give pair (0, 0), and the triggered event is kept |

## Left out

- Four-vector arithmetic is not modelled, because it is floating-point and trigonometric code in a ROOT library: `add_p4`, the `p4` sums, `M()`, `Pt()`, and `compute_mt` with `cos` and `sqrt`. So the columns m_vis, pt_vis, mt_1, mt_2, mjj and ptjj are not in `Skim.Record`.
- `ComputeMjj` and `ComputePtjj` receive the four-vector's mass and pt as parameters; only their -999 guard is modelled.
- RDataFrame wiring is not modelled: string-JIT `Define`/`Filter`, `Count`, `Snapshot`, `Report`, `TStopwatch`, argument parsing with `atof`, and the `argc != 6` usage message are I/O or framework glue. The event count `numEvents` is a parameter.
- Reals replace IEEE float and double. This covers the float/double mixing in `DeltaPhi`, rounding, and the conversion of the event count to float.
- `sqrt(deta² + dphi²) > 0.5` is modelled as `deta² + dphi² > 0.25`. `PairSelection.DeltaRThreshold` shows the two are equivalent.
- The branches `nMuon` and `nTau` are taken to be the lengths of the muon and tau collections.
- Masks, columns and collections of one event are taken to have equal lengths (`PairInput.Aligned`, `|x| == |g|`). Every Muon_*, Tau_* and Jet_* column of an event has nMuon, nTau or nJet entries, and each mask is computed from those columns, so the requirement holds wherever the source uses them.
- Generator links that are out of range are not modelled. `Skim.SkimEvent` and `Sample.GenMatch` require only that the lookups the C++ `&&` actually evaluates are in range, and `Skim.SkimEvent` requires it only of retained events, since `gen_match` is defined after every filter.
- `Sample.EventWeight` requires a non-zero event count for simulated samples. The float division by zero that would otherwise happen is not modelled.
- `Sample.EventWeight` models the value that the weight lambda at skim.cxx:260 is written to compute. As the code reads (not executed), that lambda captures `AddEventWeight`'s by-value parameters `numEvents`, `xsec`, `lumi` and `scale` by reference (`[&]`). RDataFrame evaluates it lazily, in the event loop that `Snapshot` (skim.cxx:341) starts after `AddEventWeight` has returned. The lambda would then read objects whose lifetime has ended, which is undefined behaviour in C++. The model does not capture this; it takes the intended value.
- fit.py, reduce.py and the two test scripts are not part of this model: fit.py does statistical fitting, reduce.py does file I/O, and the tests compare logs and histograms from real runs.

## Behaviour of the code worth noting

- `DeltaPhi` keeps a remainder of exactly −c, so its result lies in [−c, c] and both ends occur. `Azimuth.DeltaPhi` states [−c, c].
- For `v1 = -3, v2 = 3`, `DeltaPhi` returns 6 − 2π ≈ −0.283 (`Azimuth.DeltaPhiAcrossBoundary`). Swapping the arguments flips the sign (`Azimuth.DeltaPhiAntisymmetric`).
- The pair searches start at maxPt = −1 and minIso = 999 and replace only on a strict improvement. So a muon with pt ≤ −1 is never chosen, and neither is a tau with iso ≥ 999. The model keeps both bounds (`MuonCandidate`, `TauCandidate`). As a result, an event can fail the second pair filter even though its chosen muon has a valid tau; `Skim.RetainedWhenValidPairExists` therefore needs every iso in the event below 999.
