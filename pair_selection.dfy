/** The muon-tau pair selector of FindMuonTauPair (skim.cxx:101-149).

    The selector enumerates every (muon, tau) index pair in the order of
    `ROOT::VecOps::Combinations`, marks the pairs whose members are both good
    and separated by more than 0.5 in Delta R, picks the muon of largest pt
    among the marked pairs and then, among the marked pairs of that muon, the
    tau of smallest isolation. Both searches keep the first candidate on a
    tie; -1 stands for "nothing chosen". */
module PairSelection {
  import opened Azimuth
  import opened Candidates

  /** The columns the selector reads, with the good masks beside them. */
  datatype PairInput = PairInput(
    muons: seq<Muon>, goodMuons: seq<bool>,
    taus: seq<Tau>, goodTaus: seq<bool>)
  {
    /** Every mask is as long as its collection. */
    predicate Aligned() {
      |goodMuons| == |muons| && |goodTaus| == |taus|
    }
  }

  /** The selected (muon, tau) indices; -1 when none was chosen. */
  datatype PairIdx = PairIdx(idx1: int, idx2: int)

  /** The index lists returned by `Combinations(v1, v2)` for sizes n1, n2:
      entry k pairs index first[k] of v1 with index second[k] of v2. */
  datatype Combination = Combination(first: seq<int>, second: seq<int>)

  // ----- Integer division facts for the muon-major enumeration -----

  lemma MulMonotone(a: int, b: int, n: int)
    requires a <= b && n >= 0
    ensures a * n <= b * n
  {
    assert (b - a) * n >= 0;
  }

  /** Division by n recovers the row and the column of a flat index a * n + b. */
  lemma FlatIndexDivMod(a: int, b: int, n: int)
    requires 0 <= a && 0 <= b < n
    ensures (a * n + b) / n == a && (a * n + b) % n == b
  {
    var k := a * n + b;
    var q, r := k / n, k % n;
    assert k == q * n + r && 0 <= r < n;
    if q > a {
      MulMonotone(a + 1, q, n);
    } else if q < a {
      MulMonotone(q + 1, a, n);
    }
  }

  /** Division by n is monotone. */
  lemma DivMonotone(k: int, l: int, n: int)
    requires 0 <= k <= l && n > 0
    ensures k / n <= l / n
  {
    if k / n > l / n {
      MulMonotone(l / n + 1, k / n, n);
    }
  }

  /** A flat index below n1 * n2 has a row below n1. */
  lemma FlatIndexRow(k: int, n1: int, n2: int)
    requires 0 <= k < n1 * n2 && n2 > 0
    ensures 0 <= k / n2 < n1
  {
    if k / n2 >= n1 {
      MulMonotone(n1, k / n2, n2);
    }
  }

  /** `Combinations(v1, v2)` for |v1| == n1 and |v2| == n2, muon-major. */
  function Combinations(n1: nat, n2: nat): (c: Combination)
    ensures |c.first| == n1 * n2 && |c.second| == n1 * n2
    ensures forall k :: 0 <= k < n1 * n2 ==> 0 <= c.first[k] < n1 && 0 <= c.second[k] < n2
  {
    if n2 == 0 then Combination([], [])
    else
      assert forall k :: 0 <= k < n1 * n2 ==> 0 <= k / n2 < n1 by {
        forall k | 0 <= k < n1 * n2 { FlatIndexRow(k, n1, n2); }
      }
      Combination(seq(n1 * n2, k => k / n2), seq(n1 * n2, k => k % n2))
  }

  /** Every pair (a, b) of the cross product is enumerated, at flat index a * n2 + b. */
  lemma CombinationsCover(n1: nat, n2: nat, a: int, b: int)
    requires 0 <= a < n1 && 0 <= b < n2
    ensures 0 <= a * n2 + b < n1 * n2
    ensures Combinations(n1, n2).first[a * n2 + b] == a
    ensures Combinations(n1, n2).second[a * n2 + b] == b
  {
    FlatIndexDivMod(a, b, n2);
    MulMonotone(a + 1, n1, n2);
  }

  /** The enumeration is muon-major: the first index never decreases, and
      within one first index the second index increases. */
  lemma CombinationsMuonMajor(n1: nat, n2: nat, k: int, l: int)
    requires 0 <= k < l < n1 * n2
    ensures Combinations(n1, n2).first[k] <= Combinations(n1, n2).first[l]
    ensures Combinations(n1, n2).first[k] == Combinations(n1, n2).first[l] ==>
              Combinations(n1, n2).second[k] < Combinations(n1, n2).second[l]
  {
    DivMonotone(k, l, n2);
    var c := Combinations(n1, n2);
    assert k == (k / n2) * n2 + k % n2 && l == (l / n2) * n2 + l % n2;
  }

  // ----- What a valid pair is -----

  /** Delta R above 0.5, compared squared: sqrt(s) > 0.5 iff s > 0.25 for s >= 0. */
  predicate SeparatedInDeltaR(eta1: real, phi1: real, eta2: real, phi2: real) {
    var deta := eta1 - eta2;
    var dphi := DeltaPhi(phi1, phi2, Pi);
    deta * deta + dphi * dphi > 0.25
  }

  /** For r = sqrt(s), the source's test r > 0.5 is the model's test s > 0.25. */
  lemma DeltaRThreshold(s: real, r: real)
    requires r >= 0.0 && r * r == s
    ensures r > 0.5 <==> s > 0.25
  {
    if r > 0.5 {
      assert r * r > 0.5 * r >= 0.25 by { assert (r - 0.5) * r > 0.0; }
    } else {
      assert r * r <= 0.5 * r <= 0.25 by { assert (0.5 - r) * r >= 0.0; }
    }
  }

  /** The muon index m and the tau index t make a valid pair. */
  predicate ValidPair(p: PairInput, m: int, t: int)
    requires p.Aligned()
  {
    0 <= m < |p.muons| && 0 <= t < |p.taus| &&
    p.goodMuons[m] && p.goodTaus[t] &&
    SeparatedInDeltaR(p.muons[m].eta, p.muons[m].phi, p.taus[t].eta, p.taus[t].phi)
  }

  /** Muon m belongs to at least one valid pair. */
  predicate HasValidTau(p: PairInput, m: int)
    requires p.Aligned()
  {
    exists t | 0 <= t < |p.taus| :: ValidPair(p, m, t)
  }

  // ----- Declarative description of the selection -----

  /** A muon the pt search can choose: in a valid pair and above the initial maxPt of -1. */
  predicate MuonCandidate(p: PairInput, m: int)
    requires p.Aligned()
  {
    0 <= m < |p.muons| && HasValidTau(p, m) && p.muons[m].pt > -1.0
  }

  /** i1 is what the pt search returns when it looks at the muons below k:
      -1 if none of them is a candidate, otherwise a candidate of maximal pt
      among the muons in valid pairs, with every such muon before it strictly softer. */
  predicate IsSelectedMuonAmong(p: PairInput, k: nat, i1: int)
    requires p.Aligned() && k <= |p.muons|
  {
    if i1 == -1 then
      forall m | 0 <= m < k :: !MuonCandidate(p, m)
    else
      0 <= i1 < k && MuonCandidate(p, i1) &&
      (forall m | 0 <= m < k && HasValidTau(p, m) :: p.muons[m].pt <= p.muons[i1].pt) &&
      (forall m | 0 <= m < i1 && HasValidTau(p, m) :: p.muons[m].pt < p.muons[i1].pt)
  }

  predicate IsSelectedMuon(p: PairInput, i1: int)
    requires p.Aligned()
  {
    IsSelectedMuonAmong(p, |p.muons|, i1)
  }

  /** A tau the isolation search can choose for muon i1: in a valid pair with
      i1 and below the initial minIso of 999. */
  predicate TauCandidate(p: PairInput, i1: int, t: int)
    requires p.Aligned()
  {
    ValidPair(p, i1, t) && p.taus[t].relIso < 999.0
  }

  /** i2 is what the isolation search returns for muon i1 when it looks at the taus below k. */
  predicate IsSelectedTauAmong(p: PairInput, i1: int, k: nat, i2: int)
    requires p.Aligned() && k <= |p.taus|
  {
    if i2 == -1 then
      forall t | 0 <= t < k :: !TauCandidate(p, i1, t)
    else
      0 <= i2 < k && TauCandidate(p, i1, i2) &&
      (forall t | 0 <= t < k && ValidPair(p, i1, t) :: p.taus[i2].relIso <= p.taus[t].relIso) &&
      (forall t | 0 <= t < i2 && ValidPair(p, i1, t) :: p.taus[i2].relIso < p.taus[t].relIso)
  }

  predicate IsSelectedTau(p: PairInput, i1: int, i2: int)
    requires p.Aligned()
  {
    IsSelectedTauAmong(p, i1, |p.taus|, i2)
  }

  // ----- Reference definition: a scan over muons, then over taus -----

  /** pt of the current best muon, -1 (the initial maxPt) for the sentinel. */
  function PtOf(p: PairInput, b: int): real
    requires -1 <= b < |p.muons|
  {
    if b == -1 then -1.0 else p.muons[b].pt
  }

  /** isolation of the current best tau, 999 (the initial minIso) for the sentinel. */
  function IsoOf(p: PairInput, b: int): real
    requires -1 <= b < |p.taus|
  {
    if b == -1 then 999.0 else p.taus[b].relIso
  }

  /** The muon chosen among the muons below k, scanning them in index order. */
  function BestMuonBelow(p: PairInput, k: nat): (b: int)
    requires p.Aligned() && k <= |p.muons|
    ensures -1 <= b < k
  {
    if k == 0 then -1
    else
      var b := BestMuonBelow(p, k - 1);
      if HasValidTau(p, k - 1) && PtOf(p, b) < p.muons[k - 1].pt then k - 1 else b
  }

  /** The tau chosen for muon i1 among the taus below k, scanning them in index order. */
  function BestTauBelow(p: PairInput, i1: int, k: nat): (b: int)
    requires p.Aligned() && k <= |p.taus|
    ensures -1 <= b < k
  {
    if k == 0 then -1
    else
      var b := BestTauBelow(p, i1, k - 1);
      if ValidPair(p, i1, k - 1) && IsoOf(p, b) > p.taus[k - 1].relIso then k - 1 else b
  }

  /** The pair the selector returns. */
  function SelectPair(p: PairInput): (r: PairIdx)
    requires p.Aligned()
  {
    var i1 := BestMuonBelow(p, |p.muons|);
    PairIdx(i1, BestTauBelow(p, i1, |p.taus|))
  }

  // ----- The reference definition meets the description -----

  lemma {:induction false} BestMuonBelowIsSelected(p: PairInput, k: nat)
    requires p.Aligned() && k <= |p.muons|
    ensures IsSelectedMuonAmong(p, k, BestMuonBelow(p, k))
  {
    if k > 0 {
      var b := BestMuonBelow(p, k - 1);
      BestMuonBelowIsSelected(p, k - 1);
      var last := k - 1;
      if HasValidTau(p, last) && PtOf(p, b) < p.muons[last].pt {
        assert BestMuonBelow(p, k) == last;
        forall m | 0 <= m < k && HasValidTau(p, m)
          ensures p.muons[m].pt <= p.muons[last].pt
          ensures m < last ==> p.muons[m].pt < p.muons[last].pt
        {
          if m < last {
            assert p.muons[m].pt <= PtOf(p, b) by {
              if b == -1 { assert !MuonCandidate(p, m); }
            }
          }
        }
      } else {
        assert BestMuonBelow(p, k) == b;
        if b == -1 {
          assert !MuonCandidate(p, last);
        } else {
          assert HasValidTau(p, last) ==> p.muons[last].pt <= p.muons[b].pt;
        }
      }
    }
  }

  lemma {:induction false} BestTauBelowIsSelected(p: PairInput, i1: int, k: nat)
    requires p.Aligned() && k <= |p.taus|
    ensures IsSelectedTauAmong(p, i1, k, BestTauBelow(p, i1, k))
  {
    if k > 0 {
      var b := BestTauBelow(p, i1, k - 1);
      BestTauBelowIsSelected(p, i1, k - 1);
      var last := k - 1;
      if ValidPair(p, i1, last) && IsoOf(p, b) > p.taus[last].relIso {
        assert BestTauBelow(p, i1, k) == last;
        forall t | 0 <= t < k && ValidPair(p, i1, t)
          ensures p.taus[last].relIso <= p.taus[t].relIso
          ensures t < last ==> p.taus[last].relIso < p.taus[t].relIso
        {
          if t < last {
            assert IsoOf(p, b) <= p.taus[t].relIso by {
              if b == -1 { assert !TauCandidate(p, i1, t); }
            }
          }
        }
      } else {
        assert BestTauBelow(p, i1, k) == b;
        if b == -1 {
          assert !TauCandidate(p, i1, last);
        } else {
          assert ValidPair(p, i1, last) ==> p.taus[b].relIso <= p.taus[last].relIso;
        }
      }
    }
  }

  /** The description determines the muon. */
  lemma SelectedMuonUnique(p: PairInput, a: int, b: int)
    requires p.Aligned() && IsSelectedMuon(p, a) && IsSelectedMuon(p, b)
    ensures a == b
  {
  }

  /** The description determines the tau. */
  lemma SelectedTauUnique(p: PairInput, i1: int, a: int, b: int)
    requires p.Aligned() && IsSelectedTau(p, i1, a) && IsSelectedTau(p, i1, b)
    ensures a == b
  {
  }

  /** SelectPair chooses the muon and the tau the description asks for. */
  lemma SelectPairIsSelected(p: PairInput)
    requires p.Aligned()
    ensures IsSelectedMuon(p, SelectPair(p).idx1)
    ensures IsSelectedTau(p, SelectPair(p).idx1, SelectPair(p).idx2)
  {
    BestMuonBelowIsSelected(p, |p.muons|);
    BestTauBelowIsSelected(p, SelectPair(p).idx1, |p.taus|);
  }

  // ----- The properties the selection promises -----

  /** The chosen muon is -1 or a good muon of some valid pair; a tau is chosen
      only together with a muon, and then forms a valid pair with it. With no
      valid pair at all, both indices are -1. */
  lemma SelectedPairIsValid(p: PairInput)
    requires p.Aligned()
    ensures var r := SelectPair(p);
      (r.idx1 == -1 || (0 <= r.idx1 < |p.muons| && p.goodMuons[r.idx1] && HasValidTau(p, r.idx1))) &&
      (r.idx1 == -1 ==> r.idx2 == -1) &&
      (r.idx2 != -1 ==> ValidPair(p, r.idx1, r.idx2)) &&
      ((forall m, t :: !ValidPair(p, m, t)) ==> r == PairIdx(-1, -1))
  {
    SelectPairIsSelected(p);
  }

  /** A valid pair whose muon has pt above -1 forces a muon to be chosen. */
  lemma SomeMuonChosen(p: PairInput, m: int, t: int)
    requires p.Aligned() && ValidPair(p, m, t) && p.muons[m].pt > -1.0
    ensures SelectPair(p).idx1 != -1
  {
    SelectPairIsSelected(p);
    assert MuonCandidate(p, m);
  }

  /** The chosen muon has the largest pt over all valid pairs; on a tie the
      lower muon index, met first in the enumeration, wins. */
  lemma SelectedMuonMaximisesPt(p: PairInput)
    requires p.Aligned()
    ensures var i1 := SelectPair(p).idx1;
      i1 != -1 ==>
        0 <= i1 < |p.muons| &&
        (forall m, t :: ValidPair(p, m, t) ==> p.muons[m].pt <= p.muons[i1].pt) &&
        (forall m, t :: ValidPair(p, m, t) && p.muons[m].pt == p.muons[i1].pt ==> i1 <= m)
  {
    SelectPairIsSelected(p);
    var i1 := SelectPair(p).idx1;
    if i1 != -1 {
      forall m, t | ValidPair(p, m, t)
        ensures p.muons[m].pt <= p.muons[i1].pt
        ensures p.muons[m].pt == p.muons[i1].pt ==> i1 <= m
      {
        assert HasValidTau(p, m);
      }
    }
  }

  /** The chosen tau has the smallest isolation over the valid pairs of the
      chosen muon, below 999; on a tie the lower tau index wins. */
  lemma SelectedTauMinimisesIso(p: PairInput)
    requires p.Aligned()
    ensures var r := SelectPair(p);
      r.idx2 != -1 ==>
        0 <= r.idx2 < |p.taus| && p.taus[r.idx2].relIso < 999.0 &&
        (forall t :: ValidPair(p, r.idx1, t) ==> p.taus[r.idx2].relIso <= p.taus[t].relIso) &&
        (forall t :: ValidPair(p, r.idx1, t) && p.taus[t].relIso == p.taus[r.idx2].relIso ==> r.idx2 <= t)
  {
    SelectPairIsSelected(p);
  }

  /** When the chosen muon has a valid tau of isolation below 999, a tau is chosen. */
  lemma SomeTauChosen(p: PairInput, t: int)
    requires p.Aligned()
    ensures ValidPair(p, SelectPair(p).idx1, t) && p.taus[t].relIso < 999.0 ==> SelectPair(p).idx2 != -1
  {
    if ValidPair(p, SelectPair(p).idx1, t) && p.taus[t].relIso < 999.0 {
      SelectPairIsSelected(p);
      assert TauCandidate(p, SelectPair(p).idx1, t);
    }
  }

  /** Two valid muons of pt 20 and 35 against one tau: the muon of pt 35 is chosen. */
  lemma HarderMuonWinsExample()
    ensures var p := PairInput(
        [Muon(20.0, 0.0, 0.0, 0.1, -1, 0.05, true, 0), Muon(35.0, 0.0, 0.0, 0.1, -1, 0.05, true, 1)],
        [true, true],
        [Tau(25.0, 1.0, 1.0, 1.2, 1, 0.1, 0, true, true, true, true, 2)],
        [true]);
      SelectPair(p) == PairIdx(1, 0)
  {
    var p := PairInput(
        [Muon(20.0, 0.0, 0.0, 0.1, -1, 0.05, true, 0), Muon(35.0, 0.0, 0.0, 0.1, -1, 0.05, true, 1)],
        [true, true],
        [Tau(25.0, 1.0, 1.0, 1.2, 1, 0.1, 0, true, true, true, true, 2)],
        [true]);
    DeltaPhiOfSmallDifference(0.0, 1.0, Pi);
    assert ValidPair(p, 0, 0) && ValidPair(p, 1, 0);
    assert HasValidTau(p, 0) && HasValidTau(p, 1);
    assert BestMuonBelow(p, 1) == 0;
    assert BestMuonBelow(p, 2) == 1;
    assert BestTauBelow(p, 1, 1) == 0;
  }

  /** Two valid muons of equal pt: the first one enumerated, index 0, is chosen. */
  lemma FirstMuonWinsTieExample()
    ensures var p := PairInput(
        [Muon(35.0, 0.0, 0.0, 0.1, -1, 0.05, true, 0), Muon(35.0, 0.0, 0.0, 0.1, 1, 0.05, true, 1)],
        [true, true],
        [Tau(25.0, 1.0, 1.0, 1.2, 1, 0.1, 0, true, true, true, true, 2)],
        [true]);
      SelectPair(p) == PairIdx(0, 0)
  {
    var p := PairInput(
        [Muon(35.0, 0.0, 0.0, 0.1, -1, 0.05, true, 0), Muon(35.0, 0.0, 0.0, 0.1, 1, 0.05, true, 1)],
        [true, true],
        [Tau(25.0, 1.0, 1.0, 1.2, 1, 0.1, 0, true, true, true, true, 2)],
        [true]);
    DeltaPhiOfSmallDifference(0.0, 1.0, Pi);
    assert ValidPair(p, 0, 0) && ValidPair(p, 1, 0);
    assert HasValidTau(p, 0) && HasValidTau(p, 1);
    assert BestMuonBelow(p, 1) == 0;
    assert BestMuonBelow(p, 2) == 0;
    assert BestTauBelow(p, 0, 1) == 0;
  }

  // ----- The selector as the source writes it -----

  /** The flat-index facts the three loops of `build_pair` share: valid[k]
      says whether the k-th enumerated pair is valid. */
  predicate MarksValidPairs(p: PairInput, comb: Combination, valid: seq<bool>)
    requires p.Aligned()
  {
    comb == Combinations(|p.muons|, |p.taus|) && |valid| == |comb.first| &&
    forall k :: 0 <= k < |valid| ==> valid[k] == ValidPair(p, comb.first[k], comb.second[k])
  }

  /** `build_pair` (skim.cxx:101-149): mark the valid pairs, then search for
      the muon, then for the tau. */
  method BuildPair(p: PairInput) returns (idx1: int, idx2: int)
    requires p.Aligned()
    ensures IsSelectedMuon(p, idx1) && IsSelectedTau(p, idx1, idx2)
    ensures PairIdx(idx1, idx2) == SelectPair(p)
  {
    var comb := Combinations(|p.muons|, |p.taus|);
    var valid := FindValidPairs(p, comb);
    idx1 := FindBestMuon(p, comb, valid);
    idx2 := FindBestTau(p, comb, valid, idx1);
    SelectPairIsSelected(p);
    SelectedMuonUnique(p, idx1, SelectPair(p).idx1);
    SelectedTauUnique(p, idx1, idx2, SelectPair(p).idx2);
  }

  /** The first loop of `build_pair` (skim.cxx:109-121): fill validPair in place. */
  method FindValidPairs(p: PairInput, comb: Combination) returns (valid: seq<bool>)
    requires p.Aligned() && comb == Combinations(|p.muons|, |p.taus|)
    ensures MarksValidPairs(p, comb, valid)
  {
    var numComb := |comb.first|;
    var validPair := new bool[numComb](_ => false);
    for i := 0 to numComb
      invariant forall k :: 0 <= k < i ==>
        validPair[k] == ValidPair(p, comb.first[k], comb.second[k])
      invariant forall k :: i <= k < numComb ==> !validPair[k]
    {
      var i1, i2 := comb.first[i], comb.second[i];
      if p.goodMuons[i1] && p.goodTaus[i2] {
        var deta := p.muons[i1].eta - p.taus[i2].eta;
        var dphi := ComputeDeltaPhi(p.muons[i1].phi, p.taus[i2].phi, Pi);
        if deta * deta + dphi * dphi > 0.25 {
          validPair[i] := true;
        }
      }
    }
    valid := validPair[..];
  }

  /** The second loop of `build_pair` (skim.cxx:123-133): the muon of largest pt
      over the valid pairs, replaced only by a strictly larger pt. */
  method FindBestMuon(p: PairInput, comb: Combination, valid: seq<bool>) returns (idx1: int)
    requires p.Aligned() && MarksValidPairs(p, comb, valid)
    ensures IsSelectedMuon(p, idx1)
  {
    var n1, n2 := |p.muons|, |p.taus|;
    idx1 := -1;
    var maxPt := -1.0;
    for i := 0 to |valid|
      invariant -1 <= idx1 < n1 && maxPt == PtOf(p, idx1)
      invariant idx1 != -1 ==> p.muons[idx1].pt > -1.0
      invariant idx1 != -1 ==> exists k :: 0 <= k < i && valid[k] && comb.first[k] == idx1
      invariant forall k :: 0 <= k < i && valid[k] ==> p.muons[comb.first[k]].pt <= maxPt
      invariant forall k :: 0 <= k < i && valid[k] && comb.first[k] < idx1 ==>
        p.muons[comb.first[k]].pt < maxPt
    {
      if !valid[i] {
        continue;
      }
      var tmp := comb.first[i];
      // The pairs are muon-major, so no earlier muon than idx1 comes up again.
      assert idx1 <= tmp by {
        if idx1 != -1 {
          var k0 :| 0 <= k0 < i && valid[k0] && comb.first[k0] == idx1;
          CombinationsMuonMajor(n1, n2, k0, i);
        }
      }
      if maxPt < p.muons[tmp].pt {
        maxPt := p.muons[tmp].pt;
        idx1 := tmp;
      }
    }
    MuonSearchResult(p, comb, valid, idx1);
  }

  /** The third loop of `build_pair` (skim.cxx:135-146): among the valid pairs of
      muon idx1, the tau of smallest isolation, replaced only by a strictly smaller one. */
  method FindBestTau(p: PairInput, comb: Combination, valid: seq<bool>, idx1: int) returns (idx2: int)
    requires p.Aligned() && MarksValidPairs(p, comb, valid)
    ensures IsSelectedTau(p, idx1, idx2)
  {
    var n1, n2 := |p.muons|, |p.taus|;
    idx2 := -1;
    var minIso := 999.0;
    for i := 0 to |valid|
      invariant -1 <= idx2 < n2 && minIso == IsoOf(p, idx2)
      invariant idx2 != -1 ==> p.taus[idx2].relIso < 999.0
      invariant idx2 != -1 ==>
        exists k :: 0 <= k < i && valid[k] && comb.first[k] == idx1 && comb.second[k] == idx2
      invariant forall k :: 0 <= k < i && valid[k] && comb.first[k] == idx1 ==>
        minIso <= p.taus[comb.second[k]].relIso
      invariant forall k :: 0 <= k < i && valid[k] && comb.first[k] == idx1 && comb.second[k] < idx2 ==>
        minIso < p.taus[comb.second[k]].relIso
    {
      if !valid[i] {
        continue;
      }
      if comb.first[i] != idx1 {
        continue;
      }
      var tmp := comb.second[i];
      // Within the row of idx1 the tau index increases, so tmp is past idx2.
      assert idx2 < tmp by {
        if idx2 != -1 {
          var k0 :| 0 <= k0 < i && valid[k0] && comb.first[k0] == idx1 && comb.second[k0] == idx2;
          CombinationsMuonMajor(n1, n2, k0, i);
        }
      }
      if minIso > p.taus[tmp].relIso {
        minIso := p.taus[tmp].relIso;
        idx2 := tmp;
      }
    }
    TauSearchResult(p, comb, valid, idx1, idx2);
  }

  /** What the pt loop has established over all flat indices, read back per muon. */
  lemma MuonSearchResult(p: PairInput, comb: Combination, valid: seq<bool>, idx1: int)
    requires p.Aligned()
    requires MarksValidPairs(p, comb, valid)
    requires -1 <= idx1 < |p.muons|
    requires idx1 != -1 ==> p.muons[idx1].pt > -1.0
    requires idx1 != -1 ==> exists k :: 0 <= k < |valid| && valid[k] && comb.first[k] == idx1
    requires forall k :: 0 <= k < |valid| && valid[k] ==> p.muons[comb.first[k]].pt <= PtOf(p, idx1)
    requires forall k :: 0 <= k < |valid| && valid[k] && comb.first[k] < idx1 ==>
      p.muons[comb.first[k]].pt < PtOf(p, idx1)
    ensures IsSelectedMuon(p, idx1)
  {
    var n1, n2 := |p.muons|, |p.taus|;
    forall m | 0 <= m < n1 && HasValidTau(p, m)
      ensures p.muons[m].pt <= PtOf(p, idx1)
      ensures m < idx1 ==> p.muons[m].pt < PtOf(p, idx1)
    {
      var t :| 0 <= t < n2 && ValidPair(p, m, t);
      CombinationsCover(n1, n2, m, t);
      assert valid[m * n2 + t];
    }
    if idx1 != -1 {
      var k :| 0 <= k < |valid| && valid[k] && comb.first[k] == idx1;
      assert ValidPair(p, idx1, comb.second[k]);
    }
  }

  /** What the isolation loop has established, read back per tau. */
  lemma TauSearchResult(p: PairInput, comb: Combination, valid: seq<bool>, idx1: int, idx2: int)
    requires p.Aligned()
    requires MarksValidPairs(p, comb, valid)
    requires -1 <= idx2 < |p.taus|
    requires idx2 != -1 ==> p.taus[idx2].relIso < 999.0
    requires idx2 != -1 ==>
      exists k :: 0 <= k < |valid| && valid[k] && comb.first[k] == idx1 && comb.second[k] == idx2
    requires forall k :: 0 <= k < |valid| && valid[k] && comb.first[k] == idx1 ==>
      IsoOf(p, idx2) <= p.taus[comb.second[k]].relIso
    requires forall k :: 0 <= k < |valid| && valid[k] && comb.first[k] == idx1 && comb.second[k] < idx2 ==>
      IsoOf(p, idx2) < p.taus[comb.second[k]].relIso
    ensures IsSelectedTau(p, idx1, idx2)
  {
    var n1, n2 := |p.muons|, |p.taus|;
    forall t | 0 <= t < n2 && ValidPair(p, idx1, t)
      ensures IsoOf(p, idx2) <= p.taus[t].relIso
      ensures t < idx2 ==> IsoOf(p, idx2) < p.taus[t].relIso
    {
      CombinationsCover(n1, n2, idx1, t);
      assert valid[idx1 * n2 + t];
    }
    if idx2 != -1 {
      var k :| 0 <= k < |valid| && valid[k] && comb.first[k] == idx1 && comb.second[k] == idx2;
      assert ValidPair(p, idx1, idx2);
    }
  }
}
