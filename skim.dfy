/** One event through the skim (skim.cxx:328-335): the filter chain, the
    pair selection, the derived columns and the sample-dependent columns. */
module Skim {
  import opened Azimuth
  import opened Candidates
  import opened PairSelection
  import opened JetVariables
  import opened Sample

  /** The input columns of one event that the skim reads. */
  datatype Event = Event(
    trigger: bool,
    muons: seq<Muon>, taus: seq<Tau>, jets: seq<Jet>,
    metPt: real, metPhi: real, npv: int, run: int,
    genPdgId: seq<int>)

  datatype Option<T> = None | Some(value: T)

  /** The output columns that do not need four-vector arithmetic. */
  datatype Record = Record(
    njets: nat, npv: int,
    pt1: real, eta1: real, phi1: real, m1: real, iso1: real, q1: int,
    pt2: real, eta2: real, phi2: real, m2: real, iso2: real, q2: int, dm2: int,
    jpt1: real, jeta1: real, jphi1: real, jm1: real, jbtag1: real,
    jpt2: real, jeta2: real, jphi2: real, jm2: real, jbtag2: real,
    ptMet: real, phiMet: real, jdeta: real,
    genMatch: bool, run: int, weight: real)

  // ----- The filter chain -----

  /** MinimalSelection: the trigger fired and both collections are non-empty. */
  predicate PassesMinimalSelection(ev: Event) {
    ev.trigger && |ev.muons| > 0 && |ev.taus| > 0
  }

  /** FilterGoodEvents: at least one good tau and at least one good muon. */
  predicate HasGoodCandidates(ev: Event) {
    Count(GoodTaus(ev.taus)) > 0 && Count(GoodMuons(ev.muons)) > 0
  }

  /** The columns the pair selector reads. */
  function PairInputOf(ev: Event): (p: PairInput)
    ensures p.Aligned() && p.muons == ev.muons && p.taus == ev.taus
  {
    PairInput(ev.muons, GoodMuons(ev.muons), ev.taus, GoodTaus(ev.taus))
  }

  /** The pairIdx column. */
  function PairOf(ev: Event): PairIdx {
    SelectPair(PairInputOf(ev))
  }

  /** The two pair filters of FindMuonTauPair. */
  predicate HasPair(ev: Event) {
    PairOf(ev).idx1 != -1 && PairOf(ev).idx2 != -1
  }

  /** The event passes every filter of the chain. */
  predicate Retained(ev: Event) {
    PassesMinimalSelection(ev) && HasGoodCandidates(ev) && HasPair(ev)
  }

  /** A retained event's pair: a good muon and a good tau more than 0.5 apart in Delta R. */
  lemma RetainedPairIsValid(ev: Event)
    requires Retained(ev)
    ensures var r := PairOf(ev);
      0 <= r.idx1 < |ev.muons| && 0 <= r.idx2 < |ev.taus| &&
      IsGoodMuon(ev.muons[r.idx1]) && IsGoodTau(ev.taus[r.idx2]) &&
      SeparatedInDeltaR(ev.muons[r.idx1].eta, ev.muons[r.idx1].phi,
                        ev.taus[r.idx2].eta, ev.taus[r.idx2].phi)
  {
    SelectedPairIsValid(PairInputOf(ev));
  }

  /** Once a pair is found, the earlier filters other than the trigger hold too. */
  lemma {:induction false} RetainedIffTriggerAndPair(ev: Event)
    ensures Retained(ev) <==> ev.trigger && HasPair(ev)
  {
    if ev.trigger && HasPair(ev) {
      var p := PairInputOf(ev);
      var r := PairOf(ev);
      SelectedPairIsValid(p);
      assert ValidPair(p, r.idx1, r.idx2);
      CountPositiveIff(p.goodMuons);
      CountPositiveIff(p.goodTaus);
    }
  }

  /** An event with no good muon, or with no good tau, is dropped. */
  lemma NoGoodCandidateDropsEvent(ev: Event)
    requires (forall i :: 0 <= i < |ev.muons| ==> !IsGoodMuon(ev.muons[i])) ||
             (forall i :: 0 <= i < |ev.taus| ==> !IsGoodTau(ev.taus[i]))
    ensures !Retained(ev)
  {
    CountPositiveIff(GoodMuons(ev.muons));
    CountPositiveIff(GoodTaus(ev.taus));
  }

  /** A triggered event with a good, separated muon-tau pair is kept, provided
      no tau isolation reaches the search's starting value 999. */
  lemma RetainedWhenValidPairExists(ev: Event, m: int, t: int)
    requires ev.trigger
    requires ValidPair(PairInputOf(ev), m, t)
    requires forall k :: 0 <= k < |ev.taus| ==> ev.taus[k].relIso < 999.0
    ensures Retained(ev)
  {
    var p := PairInputOf(ev);
    assert IsGoodMuon(ev.muons[m]);
    SomeMuonChosen(p, m, t);
    SelectedPairIsValid(p);
    var i1 := SelectPair(p).idx1;
    var t1 :| 0 <= t1 < |p.taus| && ValidPair(p, i1, t1);
    SomeTauChosen(p, t1);
    RetainedIffTriggerAndPair(ev);
  }

  // ----- The derived columns -----

  /** One Jet_* column as an RVec. */
  function JetColumn(jets: seq<Jet>, f: Jet -> real): (x: seq<real>)
    ensures |x| == |jets| && forall i :: 0 <= i < |jets| ==> x[i] == f(jets[i])
  {
    seq(|jets|, i requires 0 <= i < |jets| => f(jets[i]))
  }

  /** The generator look-ups of CheckGeneratorTaus are in range for the pair of
      this event, if the event is retained: the column is defined after every
      filter, so a dropped event's links are never read. */
  predicate GenLinksDefined(ev: Event) {
    var r := PairOf(ev);
    Retained(ev) && 0 <= r.idx1 < |ev.muons| && 0 <= r.idx2 < |ev.taus| ==>
      GenLookupsDefined(ev.genPdgId, ev.muons[r.idx1].genPartIdx, ev.taus[r.idx2].genPartIdx)
  }

  /** The record the skim writes for the event, or None when a filter drops it. */
  function SkimEvent(ev: Event, sample: string, numEvents: real, xsec: real, lumi: real, scale: real): (out: Option<Record>)
    requires !IsData(sample) ==> numEvents != 0.0
    requires !IsData(sample) ==> GenLinksDefined(ev)
    ensures out.Some? <==> Retained(ev)
  {
    if !Retained(ev) then None
    else
      RetainedPairIsValid(ev);
      var r := PairOf(ev);
      var mu, tau := ev.muons[r.idx1], ev.taus[r.idx2];
      var g := GoodJets(ev.jets);
      var jeta1 := GetFirst(JetColumn(ev.jets, (j: Jet) => j.eta), g);
      var jeta2 := GetSecond(JetColumn(ev.jets, (j: Jet) => j.eta), g);
      Some(Record(
        njets := Count(g), npv := ev.npv,
        pt1 := mu.pt, eta1 := mu.eta, phi1 := mu.phi, m1 := mu.mass, iso1 := mu.relIso, q1 := mu.charge,
        pt2 := tau.pt, eta2 := tau.eta, phi2 := tau.phi, m2 := tau.mass, iso2 := tau.relIso,
        q2 := tau.charge, dm2 := tau.decayMode,
        jpt1 := GetFirst(JetColumn(ev.jets, (j: Jet) => j.pt), g),
        jeta1 := jeta1,
        jphi1 := GetFirst(JetColumn(ev.jets, (j: Jet) => j.phi), g),
        jm1 := GetFirst(JetColumn(ev.jets, (j: Jet) => j.mass), g),
        jbtag1 := GetFirst(JetColumn(ev.jets, (j: Jet) => j.btag), g),
        jpt2 := GetSecond(JetColumn(ev.jets, (j: Jet) => j.pt), g),
        jeta2 := jeta2,
        jphi2 := GetSecond(JetColumn(ev.jets, (j: Jet) => j.phi), g),
        jm2 := GetSecond(JetColumn(ev.jets, (j: Jet) => j.mass), g),
        jbtag2 := GetSecond(JetColumn(ev.jets, (j: Jet) => j.btag), g),
        ptMet := ev.metPt, phiMet := ev.metPhi,
        jdeta := ComputeJdeta(jeta1, jeta2, g),
        genMatch := GenMatch(sample, ev.genPdgId, mu.genPartIdx, tau.genPartIdx),
        run := ev.run,
        weight := EventWeight(sample, numEvents, xsec, lumi, scale)))
  }

  /** The record's muon and tau columns are those of the selected pair
      (idx_1, idx_2), a muon and a tau that pass their full cuts and are more
      than 0.5 apart in Delta R. */
  lemma SkimRecordPair(ev: Event, sample: string, numEvents: real, xsec: real, lumi: real, scale: real)
    requires !IsData(sample) ==> numEvents != 0.0
    requires !IsData(sample) ==> GenLinksDefined(ev)
    requires SkimEvent(ev, sample, numEvents, xsec, lumi, scale).Some?
    ensures var rec := SkimEvent(ev, sample, numEvents, xsec, lumi, scale).value;
      var r := PairOf(ev);
      0 <= r.idx1 < |ev.muons| && 0 <= r.idx2 < |ev.taus| &&
      var mu, tau := ev.muons[r.idx1], ev.taus[r.idx2];
      rec.pt1 == mu.pt && rec.eta1 == mu.eta && rec.phi1 == mu.phi && rec.m1 == mu.mass &&
      rec.iso1 == mu.relIso && rec.q1 == mu.charge &&
      rec.pt2 == tau.pt && rec.eta2 == tau.eta && rec.phi2 == tau.phi && rec.m2 == tau.mass &&
      rec.iso2 == tau.relIso && rec.q2 == tau.charge && rec.dm2 == tau.decayMode &&
      IsGoodMuon(mu) && IsGoodTau(tau) &&
      Abs(rec.eta1) < 2.1 && rec.pt1 > 17.0 &&
      rec.q2 != 0 && Abs(rec.eta2) < 2.3 && rec.pt2 > 20.0 &&
      SeparatedInDeltaR(rec.eta1, rec.phi1, rec.eta2, rec.phi2)
  {
    RetainedPairIsValid(ev);
  }

  /** The weight column is the sample's weight, which depends on the sample's
      arguments alone and so is the same for every event of a run; data
      weigh 1 and are never generator-matched. */
  lemma SkimWeightPerSample(ev: Event, sample: string, numEvents: real, xsec: real, lumi: real, scale: real)
    requires !IsData(sample) ==> numEvents != 0.0
    requires !IsData(sample) ==> GenLinksDefined(ev)
    requires SkimEvent(ev, sample, numEvents, xsec, lumi, scale).Some?
    ensures SkimEvent(ev, sample, numEvents, xsec, lumi, scale).value.weight == EventWeight(sample, numEvents, xsec, lumi, scale)
    ensures IsData(sample) ==> SkimEvent(ev, sample, numEvents, xsec, lumi, scale).value.weight == 1.0
    ensures IsData(sample) ==> !SkimEvent(ev, sample, numEvents, xsec, lumi, scale).value.genMatch
  {
  }

  /** The jet columns hold -999 unless enough jets are good; the two jets are
      the first two good ones in collection order, however their pt compare. */
  lemma SkimJetColumns(ev: Event, sample: string, numEvents: real, xsec: real, lumi: real, scale: real)
    requires !IsData(sample) ==> numEvents != 0.0
    requires !IsData(sample) ==> GenLinksDefined(ev)
    requires SkimEvent(ev, sample, numEvents, xsec, lumi, scale).Some?
    ensures var rec := SkimEvent(ev, sample, numEvents, xsec, lumi, scale).value;
      var g := GoodJets(ev.jets);
      rec.njets == Count(g) &&
      (rec.njets == 0 ==> rec.jpt1 == Sentinel && rec.jeta1 == Sentinel && rec.jphi1 == Sentinel &&
                          rec.jm1 == Sentinel && rec.jbtag1 == Sentinel) &&
      (rec.njets < 2 ==> rec.jpt2 == Sentinel && rec.jeta2 == Sentinel && rec.jphi2 == Sentinel &&
                         rec.jm2 == Sentinel && rec.jbtag2 == Sentinel && rec.jdeta == Sentinel) &&
      (forall i :: 0 <= i < |g| && g[i] && Count(g[..i]) == 0 ==>
         rec.jpt1 == ev.jets[i].pt && rec.jeta1 == ev.jets[i].eta && rec.jphi1 == ev.jets[i].phi &&
         rec.jm1 == ev.jets[i].mass && rec.jbtag1 == ev.jets[i].btag && rec.jpt1 > 30.0) &&
      (forall i :: 0 <= i < |g| && g[i] && Count(g[..i]) == 1 ==>
         rec.jpt2 == ev.jets[i].pt && rec.jeta2 == ev.jets[i].eta && rec.jphi2 == ev.jets[i].phi &&
         rec.jm2 == ev.jets[i].mass && rec.jbtag2 == ev.jets[i].btag && rec.jpt2 > 30.0) &&
      (forall i, j :: 0 <= i < j < |g| && g[i] && g[j] && Count(g[..i]) == 0 && Count(g[..j]) == 1 ==>
         rec.jdeta == ev.jets[i].eta - ev.jets[j].eta)
  {
    var g := GoodJets(ev.jets);
    forall j | 0 <= j < |g| && g[j] && Count(g[..j]) == 1
      ensures Count(g) >= 2
    {
      CountPrefixStep(g, j);
      CountPrefixBound(g, j + 1);
    }
  }

  /** One good muon (pt 30 at eta 0, phi 0) and one good tau (pt 25 at eta 1,
      phi 1) are about 1.41 apart in Delta R: the pair (0, 0) is chosen and the
      triggered event is kept. */
  lemma SingleGoodPairExample(ev: Event)
    requires ev.trigger
    requires ev.muons == [Muon(30.0, 0.0, 0.0, 0.1, -1, 0.05, true, 0)]
    requires ev.taus == [Tau(25.0, 1.0, 1.0, 1.2, 1, 0.1, 0, true, true, true, true, 1)]
    ensures PairOf(ev) == PairIdx(0, 0)
    ensures Retained(ev)
  {
    var p := PairInputOf(ev);
    DeltaPhiOfSmallDifference(0.0, 1.0, Pi);
    assert ValidPair(p, 0, 0);
    assert HasValidTau(p, 0);
    assert BestMuonBelow(p, 1) == 0;
    assert BestTauBelow(p, 0, 1) == 0;
  }

  /** A dropped event yields no record, and its generator links may be anything:
      the skim can be applied to it whatever they hold. */
  lemma DroppedEventNeedsNoGenLinks(ev: Event, sample: string, numEvents: real, xsec: real, lumi: real, scale: real)
    requires !IsData(sample) ==> numEvents != 0.0
    requires !Retained(ev)
    ensures GenLinksDefined(ev)
    ensures SkimEvent(ev, sample, numEvents, xsec, lumi, scale) == None
  {
  }

  /** An untriggered event with a valid pair whose muon has no generator match
      (link -1, empty generator list): the pair is still found, and the event
      is dropped by the trigger filter without a generator look-up. */
  lemma UntriggeredUnmatchedExample(ev: Event)
    requires !ev.trigger
    requires ev.muons == [Muon(30.0, 0.0, 0.0, 0.1, -1, 0.05, true, -1)]
    requires ev.taus == [Tau(25.0, 1.0, 1.0, 1.2, 1, 0.1, 0, true, true, true, true, -1)]
    requires ev.genPdgId == []
    ensures PairOf(ev) == PairIdx(0, 0)
    ensures GenLinksDefined(ev)
    ensures SkimEvent(ev, "GluGluToHToTauTau", 1000.0, 10.0, 100.0, 2.0) == None
  {
    var p := PairInputOf(ev);
    DeltaPhiOfSmallDifference(0.0, 1.0, Pi);
    assert ValidPair(p, 0, 0);
    assert HasValidTau(p, 0);
    assert BestMuonBelow(p, 1) == 0;
    assert BestTauBelow(p, 0, 1) == 0;
    SimulationWeightExample();
  }
}
