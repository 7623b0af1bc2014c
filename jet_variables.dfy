/** The masked accessors and sentinel guards of DeclareVariables
    (skim.cxx:172-200). A quantity that needs more good objects than the
    event has is the sentinel -999. */
module JetVariables {
  import opened Candidates

  /** The value of an undefined kinematic quantity. */
  const Sentinel: real := -999.0

  /** `get_first(x, g)`: x at the first set index of g, or -999 when g has none. */
  function GetFirst(x: seq<real>, g: seq<bool>): (r: real)
    requires |x| == |g|
    ensures Count(g) == 0 ==> r == Sentinel
    ensures forall i :: 0 <= i < |g| && g[i] && Count(g[..i]) == 0 ==> r == x[i]
  {
    assert forall i :: 0 <= i < |g| && g[i] ==>
      Count(g[..i]) < Count(g) && Masked(x, g)[Count(g[..i])] == x[i] by {
      forall i | 0 <= i < |g| && g[i] { MaskedAt(x, g, i); }
    }
    if Count(g) >= 1 then Masked(x, g)[0] else Sentinel
  }

  /** `get_second(x, g)`: x at the second set index of g, or -999 when g has fewer than two. */
  function GetSecond(x: seq<real>, g: seq<bool>): (r: real)
    requires |x| == |g|
    ensures Count(g) < 2 ==> r == Sentinel
    ensures forall i :: 0 <= i < |g| && g[i] && Count(g[..i]) == 1 ==> r == x[i]
  {
    assert forall i :: 0 <= i < |g| && g[i] ==>
      Count(g[..i]) < Count(g) && Masked(x, g)[Count(g[..i])] == x[i] by {
      forall i | 0 <= i < |g| && g[i] { MaskedAt(x, g, i); }
    }
    if Count(g) >= 2 then Masked(x, g)[1] else Sentinel
  }

  /** `compute_mjj(p4, g)`: the dijet mass, given as the mass of the summed
      jet four-vector, only when at least two jets are good. */
  function ComputeMjj(p4Mass: real, g: seq<bool>): (r: real)
    ensures Count(g) >= 2 ==> r == p4Mass
    ensures Count(g) < 2 ==> r == Sentinel
  {
    if Count(g) >= 2 then p4Mass else Sentinel
  }

  /** `compute_ptjj(p4, g)`: the dijet transverse momentum under the same guard. */
  function ComputePtjj(p4Pt: real, g: seq<bool>): (r: real)
    ensures Count(g) >= 2 ==> r == p4Pt
    ensures Count(g) < 2 ==> r == Sentinel
  {
    if Count(g) >= 2 then p4Pt else Sentinel
  }

  /** `compute_jdeta(x, y, g)`: the pseudorapidity gap x - y under the same guard. */
  function ComputeJdeta(x: real, y: real, g: seq<bool>): (r: real)
    ensures Count(g) >= 2 ==> r == x - y
    ensures Count(g) < 2 ==> r == Sentinel
  {
    if Count(g) >= 2 then x - y else Sentinel
  }

  /** When some entry is set, the first set entry exists: an index i with
      g[i] and nothing set before it. */
  lemma {:induction false} FirstSetIndexExists(g: seq<bool>) returns (i: nat)
    requires Count(g) >= 1
    ensures i < |g| && g[i] && Count(g[..i]) == 0
  {
    CountPositiveIff(g);
    var j :| 0 <= j < |g| && g[j];
    i := j;
    while Count(g[..i]) > 0
      invariant i < |g| && g[i]
      decreases i
    {
      CountPositiveIff(g[..i]);
      var k :| 0 <= k < i && g[..i][k];
      i := k;
    }
  }

  /** With at least two set entries, the second set entry exists. */
  lemma SecondSetIndexExists(g: seq<bool>) returns (i: nat)
    requires Count(g) >= 2
    ensures i < |g| && g[i] && Count(g[..i]) == 1
  {
    var first := FirstSetIndexExists(g);
    var rest := g[first + 1..];
    assert g == g[..first + 1] + rest;
    CountPrefixStep(g, first);
    CountSplit(g, first + 1);
    var j := FirstSetIndexExists(rest);
    i := first + 1 + j;
    assert g[..i] == g[..first + 1] + rest[..j];
    CountSplit(g[..i], first + 1);
    assert g[..i][..first + 1] == g[..first + 1];
    assert g[..i][first + 1..] == rest[..j];
  }

  /** Counting is additive over a split of the mask. */
  lemma {:induction false} CountSplit(g: seq<bool>, n: nat)
    requires n <= |g|
    ensures Count(g) == Count(g[..n]) + Count(g[n..])
    decreases |g|
  {
    if |g| > n {
      var p := g[..|g| - 1];
      CountSplit(p, n);
      assert p[..n] == g[..n];
      assert g[n..][..|g[n..]| - 1] == p[n..];
    } else {
      assert g[..n] == g;
      assert g[n..] == [];
    }
  }
}
