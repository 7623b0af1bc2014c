/** Reconstructed candidates of one event and their goodness masks
    (skim.cxx:41, 54-56, 231), with the RVec operations the skim applies to
    masks: `Sum(mask)` and the masked view `x[mask]`. */
module Candidates {

  /** One entry of the Muon_* columns. */
  datatype Muon = Muon(
    pt: real, eta: real, phi: real, mass: real,
    charge: int, relIso: real, tightId: bool, genPartIdx: int)

  /** One entry of the Tau_* columns. */
  datatype Tau = Tau(
    pt: real, eta: real, phi: real, mass: real,
    charge: int, relIso: real, decayMode: int,
    idDecayMode: bool, idIsoTight: bool, idAntiEleTight: bool, idAntiMuTight: bool,
    genPartIdx: int)

  /** One entry of the Jet_* columns. */
  datatype Jet = Jet(pt: real, eta: real, phi: real, mass: real, btag: real, puId: bool)

  function Abs(x: real): (r: real)
    ensures r >= 0.0 && (r == x || r == -x)
  {
    if x < 0.0 then -x else x
  }

  /** The muon cut of FindGoodMuons. */
  predicate IsGoodMuon(m: Muon) {
    Abs(m.eta) < 2.1 && m.pt > 17.0 && m.tightId
  }

  /** The hadronic-tau cut of FindGoodTaus. */
  predicate IsGoodTau(t: Tau) {
    t.charge != 0 && Abs(t.eta) < 2.3 && t.pt > 20.0 &&
    t.idDecayMode && t.idIsoTight && t.idAntiEleTight && t.idAntiMuTight
  }

  /** The jet cut of the goodJets column. */
  predicate IsGoodJet(j: Jet) {
    j.puId && Abs(j.eta) < 4.7 && j.pt > 30.0
  }

  /** The goodMuons column: the muon cut evaluated element by element. */
  function GoodMuons(muons: seq<Muon>): (mask: seq<bool>)
    ensures |mask| == |muons|
    ensures forall i :: 0 <= i < |muons| ==> (mask[i] <==> IsGoodMuon(muons[i]))
  {
    seq(|muons|, i requires 0 <= i < |muons| => IsGoodMuon(muons[i]))
  }

  /** The goodTaus column. */
  function GoodTaus(taus: seq<Tau>): (mask: seq<bool>)
    ensures |mask| == |taus|
    ensures forall i :: 0 <= i < |taus| ==> (mask[i] <==> IsGoodTau(taus[i]))
  {
    seq(|taus|, i requires 0 <= i < |taus| => IsGoodTau(taus[i]))
  }

  /** The goodJets column. */
  function GoodJets(jets: seq<Jet>): (mask: seq<bool>)
    ensures |mask| == |jets|
    ensures forall i :: 0 <= i < |jets| ==> (mask[i] <==> IsGoodJet(jets[i]))
  {
    seq(|jets|, i requires 0 <= i < |jets| => IsGoodJet(jets[i]))
  }

  /** `Sum(mask)`: the number of set entries. */
  function Count(g: seq<bool>): (n: nat)
    ensures n <= |g|
  {
    if |g| == 0 then 0 else Count(g[..|g| - 1]) + (if g[|g| - 1] then 1 else 0)
  }

  /** `x[mask]`: the entries of x whose mask entry is set, in collection order. */
  function Masked(x: seq<real>, g: seq<bool>): (r: seq<real>)
    requires |x| == |g|
    ensures |r| == Count(g)
  {
    if |g| == 0 then []
    else Masked(x[..|g| - 1], g[..|g| - 1]) + (if g[|g| - 1] then [x[|g| - 1]] else [])
  }

  /** A mask sums to a positive number exactly when some entry is set. */
  lemma {:induction false} CountPositiveIff(g: seq<bool>)
    ensures Count(g) > 0 <==> exists i :: 0 <= i < |g| && g[i]
  {
    if |g| > 0 {
      var p := g[..|g| - 1];
      CountPositiveIff(p);
      if Count(g) > 0 && !g[|g| - 1] {
        var i :| 0 <= i < |p| && p[i];
        assert g[i];
      }
      if exists i :: 0 <= i < |g| && g[i] {
        var i :| 0 <= i < |g| && g[i];
        if i < |g| - 1 {
          assert p[i];
        }
      }
    }
  }

  /** Counting a prefix one entry longer adds that entry. */
  lemma CountPrefixStep(g: seq<bool>, i: nat)
    requires i < |g|
    ensures Count(g[..i + 1]) == Count(g[..i]) + (if g[i] then 1 else 0)
  {
    assert g[..i + 1][..i] == g[..i];
  }

  /** Counting a prefix never exceeds counting the whole mask. */
  lemma {:induction false} CountPrefixBound(g: seq<bool>, i: nat)
    requires i <= |g|
    ensures Count(g[..i]) <= Count(g)
    decreases |g| - i
  {
    if i < |g| {
      CountPrefixStep(g, i);
      CountPrefixBound(g, i + 1);
    } else {
      assert g[..i] == g;
    }
  }

  /** A set entry i of the mask sits in `x[mask]` at the position given by the
      number of set entries before it. */
  lemma {:induction false} MaskedAt(x: seq<real>, g: seq<bool>, i: nat)
    requires |x| == |g| && i < |g| && g[i]
    ensures Count(g[..i]) < |Masked(x, g)|
    ensures Masked(x, g)[Count(g[..i])] == x[i]
  {
    var n := |g| - 1;
    var px, pg := x[..n], g[..n];
    if i == n {
      assert pg == g[..i];
    } else {
      MaskedAt(px, pg, i);
      assert pg[..i] == g[..i];
    }
  }
}
