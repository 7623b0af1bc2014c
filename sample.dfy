/** Sample-dependent columns of the skim: the event weight of AddEventWeight
    (skim.cxx:256-262) and the generator-truth flag of CheckGeneratorTaus
    (skim.cxx:273-281). Both classify the sample by whether its name
    contains "Run2012", which marks recorded collision data. */
module Sample {

  /** The tag in the name of a recorded-data sample. */
  const DataTag: string := "Run2012"

  /** The particle-identifier code of the tau lepton. */
  const TauPdgId: int := 15

  /** sub occurs in s starting at position i. */
  predicate OccursAt(s: string, sub: string, i: int) {
    0 <= i && i + |sub| <= |s| && s[i..i + |sub|] == sub
  }

  /** `s.find(sub) != std::string::npos`, as a scan over the start positions. */
  predicate Contains(s: string, sub: string)
    decreases |s|
  {
    |sub| <= |s| && (s[..|sub|] == sub || Contains(s[1..], sub))
  }

  /** The scan finds sub exactly when sub occurs somewhere in s. */
  lemma {:induction false} ContainsIffOccurs(s: string, sub: string)
    ensures Contains(s, sub) <==> exists i :: OccursAt(s, sub, i)
    decreases |s|
  {
    if |sub| <= |s| {
      if s[..|sub|] == sub {
        assert OccursAt(s, sub, 0);
      } else {
        ContainsIffOccurs(s[1..], sub);
        if Contains(s[1..], sub) {
          var i :| OccursAt(s[1..], sub, i);
          assert s[1..][i..i + |sub|] == s[i + 1..i + 1 + |sub|];
          assert OccursAt(s, sub, i + 1);
        }
        if exists i :: OccursAt(s, sub, i) {
          var i :| OccursAt(s, sub, i);
          assert i != 0;
          assert s[1..][i - 1..i - 1 + |sub|] == s[i..i + |sub|];
          assert OccursAt(s[1..], sub, i - 1);
        }
      }
    }
  }

  /** The sample is recorded data. */
  predicate IsData(sample: string) {
    Contains(sample, DataTag)
  }

  /** `weight`: 1 for data; for simulation the cross section divided by the
      number of events of the input, times the luminosity and the scale. */
  function EventWeight(sample: string, numEvents: real, xsec: real, lumi: real, scale: real): (w: real)
    requires !IsData(sample) ==> numEvents != 0.0
    ensures IsData(sample) ==> w == 1.0
    ensures !IsData(sample) ==> w * numEvents == xsec * lumi * scale
  {
    if IsData(sample) then 1.0 else xsec / numEvents * lumi * scale
  }

  function AbsInt(x: int): (r: int)
    ensures r >= 0 && (r == x || r == -x)
  {
    if x < 0 then -x else x
  }

  /** The generator-particle look-ups `CheckGeneratorTaus` performs are in range:
      the muon's link always, the tau's link only once the muon's particle is a tau,
      since `&&` evaluates its second operand only then. */
  predicate GenLookupsDefined(pdgId: seq<int>, muonLink: int, tauLink: int) {
    0 <= muonLink < |pdgId| &&
    (AbsInt(pdgId[muonLink]) == TauPdgId ==> 0 <= tauLink < |pdgId|)
  }

  /** `gen_match`: false for data; for simulation, whether the generator
      particles linked to the selected muon and tau are both taus. */
  function GenMatch(sample: string, pdgId: seq<int>, muonLink: int, tauLink: int): (b: bool)
    requires !IsData(sample) ==> GenLookupsDefined(pdgId, muonLink, tauLink)
    ensures IsData(sample) ==> !b
    ensures b ==> 0 <= tauLink < |pdgId| && AbsInt(pdgId[muonLink]) == 15 && AbsInt(pdgId[tauLink]) == 15
  {
    if IsData(sample) then false
    else AbsInt(pdgId[muonLink]) == TauPdgId && AbsInt(pdgId[tauLink]) == TauPdgId
  }

  /** For simulation, both linked particles being taus or antitaus sets the flag. */
  lemma GenMatchWhenBothTaus(sample: string, pdgId: seq<int>, muonLink: int, tauLink: int)
    requires !IsData(sample)
    requires 0 <= muonLink < |pdgId| && 0 <= tauLink < |pdgId|
    requires pdgId[muonLink] in {15, -15} && pdgId[tauLink] in {15, -15}
    ensures GenMatch(sample, pdgId, muonLink, tauLink)
  {
  }

  /** The flag does not depend on the charge sign carried by the identifiers. */
  lemma GenMatchSignAgnostic(sample: string, pdgId: seq<int>, flipped: seq<int>, muonLink: int, tauLink: int)
    requires !IsData(sample) ==> GenLookupsDefined(pdgId, muonLink, tauLink)
    requires |flipped| == |pdgId|
    requires forall i :: 0 <= i < |pdgId| ==> flipped[i] == pdgId[i] || flipped[i] == -pdgId[i]
    ensures !IsData(sample) ==> GenLookupsDefined(flipped, muonLink, tauLink)
    ensures GenMatch(sample, flipped, muonLink, tauLink) == GenMatch(sample, pdgId, muonLink, tauLink)
  {
  }

  /** A simulated sample with cross section 10, 1000 events, luminosity 100 and scale 2 weighs 2. */
  lemma SimulationWeightExample()
    ensures !IsData("GluGluToHToTauTau")
    ensures EventWeight("GluGluToHToTauTau", 1000.0, 10.0, 100.0, 2.0) == 2.0
  {
    var name := "GluGluToHToTauTau";
    forall i | 0 <= i < |name| ensures name[i] != 'R' { }
    NotDataWithoutR(name);
  }

  /** A name without the letter R cannot contain the data tag. */
  lemma {:induction false} NotDataWithoutR(s: string)
    requires forall i :: 0 <= i < |s| ==> s[i] != 'R'
    ensures !IsData(s)
    decreases |s|
  {
    if |DataTag| <= |s| {
      assert s[..|DataTag|][0] != DataTag[0];
      NotDataWithoutR(s[1..]);
    }
  }

  /** A data sample weighs exactly 1, whatever the other arguments. */
  lemma DataWeightExample(numEvents: real, xsec: real, lumi: real, scale: real)
    ensures IsData("Run2012B_TauPlusX")
    ensures EventWeight("Run2012B_TauPlusX", numEvents, xsec, lumi, scale) == 1.0
    ensures !GenMatch("Run2012B_TauPlusX", [], 0, 0)
  {
    assert OccursAt("Run2012B_TauPlusX", DataTag, 0);
    ContainsIffOccurs("Run2012B_TauPlusX", DataTag);
  }
}
