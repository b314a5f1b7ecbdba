// How much each candidate stage takes, against the paths it could take.

module PathStages {
  import opened Prelude
  import opened LedgerObjects
  import opened BookTables
  import opened SearchBudgets
  import opened PathSearch

  function Chains(stage: Stage, dst: Asset, mids: seq<Asset>): (r: seq<Path>)
    ensures |r| == |mids|
  {
    seq(|mids|, i requires 0 <= i < |mids| => ChainOf(stage, dst, mids[i]))
  }

  lemma ChainsDiffer(stage: Stage, dst: Asset, mids: seq<Asset>)
    requires NoDuplicates(mids)
    ensures NoDuplicates(Chains(stage, dst, mids))
  {
    var chains := Chains(stage, dst, mids);
    forall i, j | 0 <= i < j < |chains|
      ensures chains[i] != chains[j]
    {
      assert stage.OutOfXrp? ==> chains[i][1] == mids[i] && chains[j][1] == mids[j];
      assert !stage.OutOfXrp? ==> chains[i][0] == mids[i] && chains[j][0] == mids[j];
    }
  }

  /** The chains a stage that was never stopped has listed: as many as it may take, or
      every one there is. */
  lemma StageFills(t: Tables, src: Asset, dst: Asset, domain: Option<Domain>, stage: Stage, budget: SearchBudget,
                   proceed: nat -> bool, from: nat, scan: Scan, cands: seq<Path>)
    returns (mids: seq<Asset>)
    requires StageRan(t, src, dst, domain, stage, budget, proceed, from, scan, cands)
    requires Open(t, src, dst, domain, stage, budget) && |cands| < CANDIDATE_LIMIT && forall n :: proceed(n)
    ensures NoDuplicates(mids)
    ensures forall a :: a in mids ==> a in Between(t, src, dst, domain, stage) && UsableIn(stage, src, dst, a)
                                      && ChainOf(stage, dst, a) in cands
    ensures || |mids| == Limit(stage, budget)
            || forall a :: a in Between(t, src, dst, domain, stage) && UsableIn(stage, src, dst, a) ==> a in mids
  {
    hide Open, Between, UsableIn, UsableAmong, ChainOf, Limit;
    mids := UsableAmong(stage, src, dst, scan.mids[..scan.k]);
    UsableAmongAre(stage, src, dst, scan.mids[..scan.k]);
    assert scan.k == |scan.mids| ==> scan.mids[..scan.k] == scan.mids;
    forall a | a in mids
      ensures a in scan.mids && ChainOf(stage, dst, a) in cands
    {
      var j :| 0 <= j < scan.k && scan.mids[..scan.k][j] == a;
      assert scan.mids[j] == a;
    }
  }

  /** `chosen` are so many different ones of the candidates. */
  ghost predicate Among(chosen: seq<Path>, n: int, cands: seq<Path>) {
    NoDuplicates(chosen) && |chosen| == n && forall p :: p in chosen ==> p in cands
  }

  /** Never stopped and with room left, the pair stage lists every pair, or the
      two-hop limit's number of pairs through some asset. */
  lemma PairsFill(t: Tables, src: Asset, dst: Asset, domain: Option<Domain>, budget: SearchBudget,
                  proceed: nat -> bool, scan: Scan, cands: seq<Path>)
    requires StageRan(t, src, dst, domain, TwoHop, budget, proceed, 0, scan, cands)
    requires (forall n :: proceed(n)) && |cands| < CANDIDATE_LIMIT
    requires forall p :: IsHead(t, src, dst, domain, p) ==> p in cands
    ensures || (forall p :: IsPair(t, src, dst, domain, p) ==> p in cands)
            || exists chosen :: Among(chosen, budget.twoHop, cands)
                 && forall p :: p in chosen ==> |p| == 2 && IsPair(t, src, dst, domain, p)
  {
    hide StageRan, Neighbors, Feeders, HasBook, Among, IsPair;
    var mids := StageFills(t, src, dst, domain, TwoHop, budget, proceed, 0, scan, cands);
    if |mids| == budget.twoHop {
      ChosenChains(TwoHop, dst, mids, cands);
      forall p | p in Chains(TwoHop, dst, mids)
        ensures |p| == 2 && IsPair(t, src, dst, domain, p)
      {
        var i :| 0 <= i < |mids| && Chains(TwoHop, dst, mids)[i] == p;
        assert mids[i] in mids;
        MidPair(t, src, dst, domain, mids[i]);
      }
    } else {
      forall p | IsPair(t, src, dst, domain, p)
        ensures p in cands
      {
        PairThroughMid(t, src, dst, domain, p);
        if !IsHead(t, src, dst, domain, p) {
          assert p == ChainOf(TwoHop, dst, p[0]);
        }
      }
    }
  }

  lemma PairThroughMid(t: Tables, src: Asset, dst: Asset, domain: Option<Domain>, p: Path)
    requires IsPair(t, src, dst, domain, p)
    ensures IsHead(t, src, dst, domain, p)
            || (p == [p[0], dst] && UsableIn(TwoHop, src, dst, p[0]) && p[0] in Between(t, src, dst, domain, TwoHop))
  {
    hide Neighbors, Feeders, HasBook;
    if |p| == 2 {
      assert p == [p[0], p[1]];
    }
  }

  lemma ChosenChains(stage: Stage, dst: Asset, mids: seq<Asset>, cands: seq<Path>)
    requires NoDuplicates(mids) && forall a :: a in mids ==> ChainOf(stage, dst, a) in cands
    ensures Among(Chains(stage, dst, mids), |mids|, cands)
  {
    ChainsDiffer(stage, dst, mids);
    forall p | p in Chains(stage, dst, mids)
      ensures p in cands
    {
      var i :| 0 <= i < |mids| && Chains(stage, dst, mids)[i] == p;
      assert mids[i] in mids;
    }
  }

  /** The stage into the hub lists every chain it could, or half the two-hop limit's
      number of them, rounded down, and at least one. */
  lemma IntoHubFills(t: Tables, src: Asset, dst: Asset, domain: Option<Domain>, budget: SearchBudget,
                     proceed: nat -> bool, from: nat, scan: Scan, cands: seq<Path>)
    requires StageRan(t, src, dst, domain, IntoXrp, budget, proceed, from, scan, cands)
    requires (forall n :: proceed(n)) && |cands| < CANDIDATE_LIMIT && budget.maxHops >= 3
    ensures || (forall p :: IsIntoHub(t, src, dst, domain, p) ==> p in cands)
            || exists chosen :: Among(chosen, Max(1, budget.twoHop / 2), cands)
                 && forall p :: p in chosen ==> IsIntoHub(t, src, dst, domain, p)
  {
    hide StageRan, Neighbors, Feeders, HasBook, Among;
    if Open(t, src, dst, domain, IntoXrp, budget) {
      var mids := StageFills(t, src, dst, domain, IntoXrp, budget, proceed, from, scan, cands);
      if |mids| == Limit(IntoXrp, budget) {
        ChosenChains(IntoXrp, dst, mids, cands);
        assert forall p :: p in Chains(IntoXrp, dst, mids) ==> IsIntoHub(t, src, dst, domain, p);
      } else {
        forall p | IsIntoHub(t, src, dst, domain, p)
          ensures p in cands
        {
          assert p == ChainOf(IntoXrp, dst, p[0]);
        }
      }
    }
  }

  /** ... and so does the stage out of the hub. */
  lemma OutOfHubFills(t: Tables, src: Asset, dst: Asset, domain: Option<Domain>, budget: SearchBudget,
                      proceed: nat -> bool, from: nat, scan: Scan, cands: seq<Path>)
    requires StageRan(t, src, dst, domain, OutOfXrp, budget, proceed, from, scan, cands)
    requires (forall n :: proceed(n)) && |cands| < CANDIDATE_LIMIT && budget.maxHops >= 3
    ensures || (forall p :: IsOutOfHub(t, src, dst, domain, p) ==> p in cands)
            || exists chosen :: Among(chosen, Max(1, budget.twoHop / 2), cands)
                 && forall p :: p in chosen ==> IsOutOfHub(t, src, dst, domain, p)
  {
    hide StageRan, Neighbors, Feeders, HasBook, Among;
    if Open(t, src, dst, domain, OutOfXrp, budget) {
      var mids := StageFills(t, src, dst, domain, OutOfXrp, budget, proceed, from, scan, cands);
      if |mids| == Limit(OutOfXrp, budget) {
        ChosenChains(OutOfXrp, dst, mids, cands);
        assert forall p :: p in Chains(OutOfXrp, dst, mids) ==> IsOutOfHub(t, src, dst, domain, p);
      } else {
        forall p | IsOutOfHub(t, src, dst, domain, p)
          ensures p in cands
        {
          assert p == ChainOf(OutOfXrp, dst, p[1]);
        }
      }
    }
  }

  lemma ScannedChain(src: Asset, dst: Asset, stage: Stage, mids: seq<Asset>, k: nat, p: Path)
    requires k <= |mids| && FromScan(src, dst, stage, mids, k, p)
    ensures p in Chains(stage, dst, UsableAmong(stage, src, dst, mids[..k]))
  {
    hide UsableIn, UsableAmong, ChainOf;
    var usable := UsableAmong(stage, src, dst, mids[..k]);
    UsableAmongAre(stage, src, dst, mids[..k]);
    var j :| 0 <= j < k && UsableIn(stage, src, dst, mids[j]) && p == ChainOf(stage, dst, mids[j]);
    assert mids[..k][j] == mids[j];
    var i :| 0 <= i < |usable| && usable[i] == mids[j];
    assert Chains(stage, dst, usable)[i] == p;
  }

  /** Nor does a stage ever take more than its limit. */
  lemma StageAtMost(t: Tables, src: Asset, dst: Asset, domain: Option<Domain>, stage: Stage, budget: SearchBudget,
                    proceed: nat -> bool, from: nat, scan: Scan, cands: seq<Path>, taken: seq<Path>)
    requires StageRan(t, src, dst, domain, stage, budget, proceed, from, scan, cands)
    requires NoDuplicates(taken) && forall p :: p in taken ==> FromStage(t, src, dst, domain, stage, budget, scan, p)
    ensures taken == [] || |taken| <= if stage == TwoHop then budget.twoHop else Max(1, budget.twoHop / 2)
  {
    hide Open, Between, UsableIn, UsableAmong, Chains, FromScan;
    if taken != [] {
      assert taken[0] in taken;
      var mids := UsableAmong(stage, src, dst, scan.mids[..scan.k]);
      UsableAmongAre(stage, src, dst, scan.mids[..scan.k]);
      var chains := Chains(stage, dst, mids);
      forall p | p in taken
        ensures p in chains
      {
        ScannedChain(src, dst, stage, scan.mids, scan.k, p);
      }
      CountElements(taken);
      CountElements(chains);
      SubsetSize(Elements(taken), Elements(chains));
    }
  }
}
