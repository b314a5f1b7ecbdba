// FastPathFinder::search, candidate generation: book pairs, hub chains and
// the bounded breadth-first walk over one state of the order books.

module PathSearch {
  import opened Prelude
  import opened LedgerObjects
  import opened BookTables
  import opened BookProofs
  import opened OrderBooks
  import opened SearchBudgets

  /** The assets a path trades into, one book after another. */
  type Path = seq<Asset>

  const CANDIDATE_LIMIT := 256

  /** Empty and overlong paths, paths already there and paths past the limit are dropped. */
  function AddPath(cands: seq<Path>, p: Path): (r: seq<Path>)
    ensures cands <= r
  {
    if p == [] || |p| > MAX_PATH_LENGTH || |cands| >= CANDIDATE_LIMIT || p in cands then cands else cands + [p]
  }

  /** What every candidate set satisfies. */
  ghost predicate Candidates(cands: seq<Path>) {
    && |cands| <= CANDIDATE_LIMIT
    && NoDuplicates(cands)
    && forall i :: 0 <= i < |cands| ==> 0 < |cands[i]| <= MAX_PATH_LENGTH
  }

  lemma AddPathKeeps(cands: seq<Path>, p: Path)
    requires Candidates(cands)
    ensures AddPath(cands, p) == if 0 < |p| <= 8 && |cands| < 256 && p !in cands then cands + [p] else cands
    ensures Candidates(AddPath(cands, p)) && |AddPath(cands, p)| <= |cands| + 1
    ensures forall q :: q in AddPath(cands, p) ==> q in cands || q == p
    ensures 0 < |p| <= MAX_PATH_LENGTH && |cands| < CANDIDATE_LIMIT ==> p in AddPath(cands, p)
    ensures cands <= AddPath(cands, p)
  {
  }

  // ---- Path quality ----

  /** An unknown tip counts half the scale. */
  function EdgeQuality(t: Tables, src: Asset, dst: Asset, domain: Option<Domain>): Quality {
    var q := TipQuality(t, src, dst, domain);
    if q == U64_MAX then U64_MAX / 2 else q
  }

  function Before(src: Asset, hops: Path, i: nat): Asset
    requires i < |hops|
  {
    if i == 0 then src else hops[i - 1]
  }

  /** The exact sum of the edge qualities along a path. */
  function QualitySum(t: Tables, src: Asset, hops: Path, domain: Option<Domain>): nat {
    if hops == [] then 0
    else
      var last := |hops| - 1;
      QualitySum(t, src, hops[..last], domain) + EdgeQuality(t, Before(src, hops, last), hops[last], domain)
  }

  function PathQuality(t: Tables, src: Asset, hops: Path, domain: Option<Domain>): Quality {
    if hops == [] then U64_MAX else Min(QualitySum(t, src, hops, domain), U64_MAX)
  }

  method GetEdgeQuality(books: LocalOrderBooks, src: Asset, dst: Asset, domain: Option<Domain>) returns (q: Quality)
    ensures q == EdgeQuality(books.Contents(), src, dst, domain)
  {
    q := books.GetTipQuality(src, dst, domain);
    if q == U64_MAX {
      q := U64_MAX / 2;
    }
  }

  lemma QualitySumNext(t: Tables, src: Asset, hops: Path, domain: Option<Domain>, i: nat)
    requires i < |hops|
    ensures QualitySum(t, src, hops[..i + 1], domain) ==
            QualitySum(t, src, hops[..i], domain) + EdgeQuality(t, Before(src, hops, i), hops[i], domain)
  {
    assert hops[..i + 1][..i] == hops[..i];
    assert hops[..i + 1][i] == hops[i];
    assert i > 0 ==> hops[..i + 1][i - 1] == hops[i - 1];
  }

  /** pathQ: the running total saturates and never wraps around. */
  method GetPathQuality(books: LocalOrderBooks, src: Asset, hops: Path, domain: Option<Domain>) returns (q: Quality)
    ensures q == PathQuality(books.Contents(), src, hops, domain)
  {
    hide EdgeQuality, QualitySum;
    if hops == [] {
      return U64_MAX;
    }
    ghost var t := books.Contents();
    q := GetEdgeQuality(books, src, hops[0], domain);
    QualitySumNone(t, src, hops, domain);
    QualitySumNext(t, src, hops, domain, 0);
    for i := 1 to |hops|
      invariant books.Contents() == t
      invariant q == Min(QualitySum(t, src, hops[..i], domain), U64_MAX)
    {
      var nq := GetEdgeQuality(books, hops[i - 1], hops[i], domain);
      QualitySumNext(t, src, hops, domain, i);
      q := if nq > U64_MAX - q then U64_MAX else q + nq;
    }
    assert hops[..|hops|] == hops;
  }

  lemma QualitySumNone(t: Tables, src: Asset, hops: Path, domain: Option<Domain>)
    ensures QualitySum(t, src, hops[..0], domain) == 0
  {
  }

  /** One step costs the better of the book's and the token pair's tip, and half of
      the scale, rounded down, when neither is known; a path costs the sum of its
      steps, or all of the scale if that is more. */
  lemma PathQualityMeans(t: Tables, src: Asset, p: Path, domain: Option<Domain>, next: Asset)
    ensures PathQuality(t, src, [], domain) == 0xFFFF_FFFF_FFFF_FFFF
    ensures var tip := Min(BookTipOf(t, Book(src, next, domain)), TokenTipOf(t, TokenOf(src), next));
            PathQuality(t, src, [next], domain) == if tip == 0xFFFF_FFFF_FFFF_FFFF then 0x7FFF_FFFF_FFFF_FFFF else tip
    ensures p != [] && PathQuality(t, src, p, domain) < 0xFFFF_FFFF_FFFF_FFFF ==>
              PathQuality(t, src, p + [next], domain) ==
              Min(PathQuality(t, src, p, domain) + PathQuality(t, p[|p| - 1], [next], domain), 0xFFFF_FFFF_FFFF_FFFF)
    ensures p != [] && PathQuality(t, src, p, domain) == 0xFFFF_FFFF_FFFF_FFFF ==>
              PathQuality(t, src, p + [next], domain) == 0xFFFF_FFFF_FFFF_FFFF
  {
    OneStep(t, src, next, domain);
    if p != [] {
      OneStep(t, p[|p| - 1], next, domain);
      QualitySumNext(t, src, p + [next], domain, |p|);
      assert (p + [next])[..|p| + 1] == p + [next] && (p + [next])[..|p|] == p;
    }
  }

  lemma OneStep(t: Tables, src: Asset, next: Asset, domain: Option<Domain>)
    ensures QualitySum(t, src, [next], domain) == EdgeQuality(t, src, next, domain)
  {
    assert [next][..0] == [];
    QualitySumNone(t, src, [next], domain);
  }

  // ---- One- and two-hop pairs ----

  /** A mid between two assets that is neither of them under any issuer; XRP
      between two issued assets has its own candidate. */
  predicate UsableMid(src: Asset, dst: Asset, mid: Asset) {
    && TokenOf(mid) != TokenOf(src) && TokenOf(mid) != TokenOf(dst)
    && !(!src.Xrp? && !dst.Xrp? && mid.Xrp?)
  }

  ghost predicate IsPair(t: Tables, src: Asset, dst: Asset, domain: Option<Domain>, p: Path) {
    || (p == [dst] && HasBook(t, src, dst, domain))
    || (p == [Xrp, dst] && !src.Xrp? && !dst.Xrp? && HasBook(t, src, Xrp, domain) && HasBook(t, Xrp, dst, domain))
    || (|p| == 2 && p[1] == dst && p[0] in Neighbors(t, src, domain) * Feeders(t, dst, domain)
        && TokenOf(p[0]) != TokenOf(src) && TokenOf(p[0]) != TokenOf(dst) && (p[0] == Xrp ==> src == Xrp || dst == Xrp))
  }

  datatype Scored = Scored(score: Quality, hops: Path)

  predicate ScoredLeq(a: Scored, b: Scored) {
    a.score < b.score || (a.score == b.score && |a.hops| <= |b.hops|)
  }

  /** Candidates of lower quality figures, which are better, first; of equal ones the
      shorter first. */
  ghost predicate ByScore(t: Tables, src: Asset, domain: Option<Domain>, cands: seq<Path>) {
    forall i, j :: 0 <= i < j < |cands| ==>
      var a, b := PathQuality(t, src, cands[i], domain), PathQuality(t, src, cands[j], domain);
      a < b || (a == b && |cands[i]| <= |cands[j]|)
  }

  ghost predicate PairList(t: Tables, src: Asset, dst: Asset, domain: Option<Domain>, pairs: seq<Scored>) {
    && (forall i :: 0 <= i < |pairs| ==>
          IsPair(t, src, dst, domain, pairs[i].hops) && pairs[i].score == PathQuality(t, src, pairs[i].hops, domain))
    && (forall i, j :: 0 <= i < j < |pairs| ==> pairs[i].hops != pairs[j].hops)
  }

  lemma MidPair(t: Tables, src: Asset, dst: Asset, domain: Option<Domain>, mid: Asset)
    requires UsableMid(src, dst, mid) && mid in Neighbors(t, src, domain) * Feeders(t, dst, domain)
    ensures IsPair(t, src, dst, domain, [mid, dst])
  {
    hide HasBook, Neighbors, Feeders;
  }

  lemma PairAppended(t: Tables, src: Asset, dst: Asset, domain: Option<Domain>, pairs: seq<Scored>, p: Path)
    requires PairList(t, src, dst, domain, pairs) && IsPair(t, src, dst, domain, p)
    requires forall i :: 0 <= i < |pairs| ==> pairs[i].hops != p
    ensures PairList(t, src, dst, domain, pairs + [Scored(PathQuality(t, src, p, domain), p)])
  {
  }

  /** The direct pair, or the pair through XRP between two issued assets. */
  ghost predicate IsHead(t: Tables, src: Asset, dst: Asset, domain: Option<Domain>, p: Path) {
    || (p == [dst] && HasBook(t, src, dst, domain))
    || (p == [Xrp, dst] && !src.Xrp? && !dst.Xrp? && HasBook(t, src, Xrp, domain) && HasBook(t, Xrp, dst, domain))
  }

  /** The direct book and the pair through XRP, where there are such books. */
  method ScanHeads(books: LocalOrderBooks, src: Asset, dst: Asset, domain: Option<Domain>) returns (pairs: seq<Scored>)
    ensures PairList(books.Contents(), src, dst, domain, pairs) && |pairs| <= 2
    ensures HasBook(books.Contents(), src, dst, domain) <==> exists i :: 0 <= i < |pairs| && pairs[i].hops == [dst]
    ensures !src.Xrp? && !dst.Xrp? && HasBook(books.Contents(), src, Xrp, domain)
            && HasBook(books.Contents(), Xrp, dst, domain) <==>
            exists i :: 0 <= i < |pairs| && pairs[i].hops == [Xrp, dst]
    ensures forall i :: 0 <= i < |pairs| ==> IsHead(books.Contents(), src, dst, domain, pairs[i].hops)
  {
    hide PathQuality, HasBook, Neighbors, Feeders;
    ghost var t := books.Contents();
    pairs := [];
    var direct := books.GetHasBook(src, dst, domain);
    if direct {
      var q := GetPathQuality(books, src, [dst], domain);
      pairs := [Scored(q, [dst])];
    }
    if !src.Xrp? && !dst.Xrp? {
      var srcHub := books.GetHasBook(src, Xrp, domain);
      var hubDst := books.GetHasBook(Xrp, dst, domain);
      if srcHub && hubDst {
        var q := GetPathQuality(books, src, [Xrp, dst], domain);
        PairAppended(t, src, dst, domain, pairs, [Xrp, dst]);
        pairs := pairs + [Scored(q, [Xrp, dst])];
        assert pairs[|pairs| - 1].hops == [Xrp, dst];
      }
    }
    assert direct ==> pairs[0].hops == [dst];
  }

  /** The two-hop pairs through the first k mids. */
  ghost predicate MidPairs(src: Asset, dst: Asset, mids: seq<Asset>, k: nat, pairs: seq<Scored>)
    requires k <= |mids|
  {
    && (forall i :: 0 <= i < |pairs| ==>
          && |pairs[i].hops| == 2 && pairs[i].hops[1] == dst
          && pairs[i].hops[0] in mids[..k] && UsableMid(src, dst, pairs[i].hops[0]))
    && (forall j :: 0 <= j < k && UsableMid(src, dst, mids[j]) ==>
          exists i :: 0 <= i < |pairs| && pairs[i].hops == [mids[j], dst])
  }

  lemma MidPairsNext(src: Asset, dst: Asset, mids: seq<Asset>, k: nat, pairs: seq<Scored>, q: Quality)
    requires k < |mids| && NoDuplicates(mids) && MidPairs(src, dst, mids, k, pairs)
    ensures !UsableMid(src, dst, mids[k]) ==> MidPairs(src, dst, mids, k + 1, pairs)
    ensures UsableMid(src, dst, mids[k]) ==> MidPairs(src, dst, mids, k + 1, pairs + [Scored(q, [mids[k], dst])])
    ensures forall i :: 0 <= i < |pairs| ==> pairs[i].hops != [mids[k], dst]
  {
    assert mids[..k + 1] == mids[..k] + [mids[k]];
    assert mids[k] !in mids[..k];
    var more := pairs + [Scored(q, [mids[k], dst])];
    assert more[|pairs|].hops == [mids[k], dst];
    forall j | 0 <= j < k && UsableMid(src, dst, mids[j])
      ensures exists i :: 0 <= i < |more| && more[i].hops == [mids[j], dst]
    {
      var i :| 0 <= i < |pairs| && pairs[i].hops == [mids[j], dst];
      assert more[i] == pairs[i];
    }
  }

  // ---- How far a scan goes ----

  /** A scan of `total` assets went over k of them and found `found` usable ones:
      the callback, asked before each, never said stop before the k-th, and the
      scan went on to the end, to its limit or to the callback's stop. `asked` is
      how often the callback has been asked by then. */
  ghost predicate Scanned(total: nat, k: nat, found: nat, limit: int, proceed: nat -> bool, from: nat, asked: nat) {
    && k <= total && found <= limit
    && (forall n :: from <= n < from + k ==> proceed(n))
    && (k == total || found == limit || !proceed(from + k))
    && asked == from + k + if k < total && found < limit then 1 else 0
  }

  /** The stages that scan the assets between two others. */
  datatype Stage = TwoHop | IntoXrp | OutOfXrp

  predicate UsableIn(stage: Stage, src: Asset, dst: Asset, mid: Asset) {
    if stage.TwoHop? then UsableMid(src, dst, mid) else HubMid(src, dst, mid)
  }

  function ChainOf(stage: Stage, dst: Asset, mid: Asset): (p: Path)
    ensures 0 < |p| <= 3
  {
    match stage
    case TwoHop => [mid, dst]
    case IntoXrp => [mid, Xrp, dst]
    case OutOfXrp => [Xrp, mid, dst]
  }

  function UsableAmong(stage: Stage, src: Asset, dst: Asset, mids: seq<Asset>): seq<Asset> {
    if mids == [] then []
    else
      var last := mids[|mids| - 1];
      UsableAmong(stage, src, dst, mids[..|mids| - 1]) + if UsableIn(stage, src, dst, last) then [last] else []
  }

  lemma {:induction false} UsableAmongAre(stage: Stage, src: Asset, dst: Asset, mids: seq<Asset>)
    ensures forall a :: a in UsableAmong(stage, src, dst, mids) <==> a in mids && UsableIn(stage, src, dst, a)
    ensures NoDuplicates(mids) ==> NoDuplicates(UsableAmong(stage, src, dst, mids))
  {
    hide UsableIn;
    if mids == [] {
    } else {
      UsableAmongAre(stage, src, dst, mids[..|mids| - 1]);
      assert mids == mids[..|mids| - 1] + [mids[|mids| - 1]];
    }
  }

  lemma UsableAmongNext(stage: Stage, src: Asset, dst: Asset, mids: seq<Asset>, k: nat)
    requires k < |mids|
    ensures |UsableAmong(stage, src, dst, mids[..k + 1])| ==
            |UsableAmong(stage, src, dst, mids[..k])| + if UsableIn(stage, src, dst, mids[k]) then 1 else 0
  {
    assert mids[..k + 1][..k] == mids[..k];
  }

  /** The pairs through mids, as far as the callback and the limit let the scan go. */
  method ScanMids(books: LocalOrderBooks, src: Asset, dst: Asset, domain: Option<Domain>, mids: seq<Asset>, twoHop: int,
                  proceed: nat -> bool, from: nat)
    returns (pairs: seq<Scored>, k: nat, asked: nat)
    requires twoHop > 0 && NoDuplicates(mids)
    requires forall a :: a in mids ==>
               a in Neighbors(books.Contents(), src, domain) * Feeders(books.Contents(), dst, domain)
    ensures k <= |mids| && MidPairs(src, dst, mids, k, pairs)
    ensures |pairs| == |UsableAmong(TwoHop, src, dst, mids[..k])|
    ensures Scanned(|mids|, k, |pairs|, twoHop, proceed, from, asked)
    ensures PairList(books.Contents(), src, dst, domain, pairs)
  {
    hide PathQuality, HasBook, Neighbors, Feeders, MidPairs, UsableMid, UsableAmong;
    ghost var t := books.Contents();
    pairs, k, asked := [], 0, from;
    MidPairsNone(src, dst, mids);
    NoneUsable(TwoHop, src, dst, mids);
    while k < |mids|
      invariant books.Contents() == t
      invariant k <= |mids| && MidPairs(src, dst, mids, k, pairs) && |pairs| < twoHop
      invariant |pairs| == |UsableAmong(TwoHop, src, dst, mids[..k])|
      invariant asked == from + k && forall n :: from <= n < asked ==> proceed(n)
      invariant PairList(t, src, dst, domain, pairs)
    {
      asked := asked + 1;
      if !proceed(asked - 1) {
        return;
      }
      var mid := mids[k];
      UsableAmongNext(TwoHop, src, dst, mids, k);
      if UsableMid(src, dst, mid) {
        assert mid in mids;
        var q := GetPathQuality(books, src, [mid, dst], domain);
        MidPairsNext(src, dst, mids, k, pairs, q);
        MidPair(t, src, dst, domain, mid);
        PairAppended(t, src, dst, domain, pairs, [mid, dst]);
        pairs := pairs + [Scored(q, [mid, dst])];
        k := k + 1;
        if |pairs| >= twoHop {
          return;
        }
      } else {
        MidPairsNext(src, dst, mids, k, pairs, 0);
        k := k + 1;
      }
    }
  }

  lemma NoneUsable(stage: Stage, src: Asset, dst: Asset, mids: seq<Asset>)
    ensures UsableAmong(stage, src, dst, mids[..0]) == []
  {
  }

  lemma MidPairsNone(src: Asset, dst: Asset, mids: seq<Asset>)
    ensures MidPairs(src, dst, mids, 0, [])
  {
  }

  /** Heads and mids share no pair. */
  lemma PairsJoin(t: Tables, src: Asset, dst: Asset, domain: Option<Domain>, heads: seq<Scored>, tail: seq<Scored>,
                  mids: seq<Asset>, k: nat)
    requires k <= |mids| && PairList(t, src, dst, domain, heads) && PairList(t, src, dst, domain, tail)
    requires MidPairs(src, dst, mids, k, tail)
    requires forall i :: 0 <= i < |heads| ==> IsHead(t, src, dst, domain, heads[i].hops)
    ensures PairList(t, src, dst, domain, heads + tail)
  {
    hide IsPair, PathQuality;
    forall i, j | 0 <= i < |heads| && 0 <= j < |tail|
      ensures heads[i].hops != tail[j].hops
    {
      assert UsableMid(src, dst, tail[j].hops[0]);
    }
  }

  /** What a scanning stage went over, and how often the callback had been asked after it. */
  datatype Scan = Scan(mids: seq<Asset>, k: nat, asked: nat)

  function Between(t: Tables, src: Asset, dst: Asset, domain: Option<Domain>, stage: Stage): set<Asset> {
    match stage
    case TwoHop => Neighbors(t, src, domain) * Feeders(t, dst, domain)
    case IntoXrp => Neighbors(t, src, domain) * Feeders(t, Xrp, domain)
    case OutOfXrp => Neighbors(t, Xrp, domain) * Feeders(t, dst, domain)
  }

  /** The stage is entered at all. */
  predicate Open(t: Tables, src: Asset, dst: Asset, domain: Option<Domain>, stage: Stage, budget: SearchBudget) {
    match stage
    case TwoHop => true
    case IntoXrp => budget.maxHops >= 3 && !dst.Xrp? && HasBook(t, Xrp, dst, domain)
    case OutOfXrp => budget.maxHops >= 3 && !src.Xrp? && HasBook(t, src, Xrp, domain)
  }

  function Limit(stage: Stage, budget: SearchBudget): int {
    if stage.TwoHop? then budget.twoHop else Max(1, budget.twoHop / 2)
  }

  /** The chains through the usable ones of the first k assets are candidates, room permitting. */
  ghost predicate Listed(src: Asset, dst: Asset, stage: Stage, mids: seq<Asset>, k: nat, cands: seq<Path>)
    requires k <= |mids|
  {
    |cands| < CANDIDATE_LIMIT ==>
      forall j :: 0 <= j < k && UsableIn(stage, src, dst, mids[j]) ==> ChainOf(stage, dst, mids[j]) in cands
  }

  lemma ListedNext(src: Asset, dst: Asset, stage: Stage, mids: seq<Asset>, k: nat, cands: seq<Path>, more: seq<Path>)
    requires k < |mids| && Listed(src, dst, stage, mids, k, cands) && cands <= more
    requires UsableIn(stage, src, dst, mids[k]) && |more| < CANDIDATE_LIMIT ==> ChainOf(stage, dst, mids[k]) in more
    ensures Listed(src, dst, stage, mids, k + 1, more)
  {
    hide UsableIn, ChainOf;
  }

  lemma NoneListed(src: Asset, dst: Asset, stage: Stage, mids: seq<Asset>, cands: seq<Path>)
    ensures Listed(src, dst, stage, mids, 0, cands)
  {
  }

  /** One stage as the source runs it: all the assets between, scanned as far as
      callback and limit allow, every usable one made a candidate. */
  ghost predicate StageRan(t: Tables, src: Asset, dst: Asset, domain: Option<Domain>, stage: Stage,
                           budget: SearchBudget, proceed: nat -> bool, from: nat, scan: Scan, cands: seq<Path>)
  {
    if !Open(t, src, dst, domain, stage, budget) then scan.asked == from
    else
      && NoDuplicates(scan.mids) && (forall a :: a in scan.mids <==> a in Between(t, src, dst, domain, stage))
      && scan.k <= |scan.mids|
      && Scanned(|scan.mids|, scan.k, |UsableAmong(stage, src, dst, scan.mids[..scan.k])|, Limit(stage, budget),
                 proceed, from, scan.asked)
      && Listed(src, dst, stage, scan.mids, scan.k, cands)
  }

  lemma StageRanMore(t: Tables, src: Asset, dst: Asset, domain: Option<Domain>, stage: Stage, budget: SearchBudget,
                     proceed: nat -> bool, from: nat, scan: Scan, cands: seq<Path>, more: seq<Path>)
    requires StageRan(t, src, dst, domain, stage, budget, proceed, from, scan, cands) && cands <= more
    ensures StageRan(t, src, dst, domain, stage, budget, proceed, from, scan, more)
  {
    hide Open, Between, UsableAmong, UsableIn, Scanned;
  }

  /** No more usable assets lie between than the stage may take. */
  ghost predicate StageFits(t: Tables, src: Asset, dst: Asset, domain: Option<Domain>, stage: Stage,
                            budget: SearchBudget)
  {
    forall ms: seq<Asset> ::
      NoDuplicates(ms)
      && (forall a :: a in ms ==> a in Between(t, src, dst, domain, stage) && UsableIn(stage, src, dst, a)) ==>
        |ms| <= Limit(stage, budget)
  }

  /** A stage that fits its limit and is never stopped lists every chain. */
  lemma StageComplete(t: Tables, src: Asset, dst: Asset, domain: Option<Domain>, stage: Stage, budget: SearchBudget,
                      proceed: nat -> bool, from: nat, scan: Scan, cands: seq<Path>, mid: Asset)
    requires StageRan(t, src, dst, domain, stage, budget, proceed, from, scan, cands)
    requires StageFits(t, src, dst, domain, stage, budget) && forall n :: proceed(n)
    requires Open(t, src, dst, domain, stage, budget) && |cands| < CANDIDATE_LIMIT
    requires mid in Between(t, src, dst, domain, stage) && UsableIn(stage, src, dst, mid)
    ensures ChainOf(stage, dst, mid) in cands
  {
    hide Open, Between, UsableIn, UsableAmong, ChainOf;
    var taken := UsableAmong(stage, src, dst, scan.mids[..scan.k]);
    UsableAmongAre(stage, src, dst, scan.mids[..scan.k]);
    var more := taken + [mid];
    assert mid !in taken ==> NoDuplicates(more);
    assert NoDuplicates(more) ==> |more| <= Limit(stage, budget);
    assert scan.k == |scan.mids| ==> scan.mids[..scan.k] == scan.mids;
    assert mid in taken;
    var j :| 0 <= j < scan.k && scan.mids[j] == mid;
  }

  /** A chain through a usable asset the stage went over. */
  ghost predicate FromScan(src: Asset, dst: Asset, stage: Stage, mids: seq<Asset>, k: nat, p: Path)
    requires k <= |mids|
  {
    exists j :: 0 <= j < k && UsableIn(stage, src, dst, mids[j]) && p == ChainOf(stage, dst, mids[j])
  }

  /** Nothing has been added but such chains. */
  ghost predicate AddsScanned(src: Asset, dst: Asset, stage: Stage, mids: seq<Asset>, k: nat, start: seq<Path>,
                              cands: seq<Path>)
  {
    k <= |mids| && forall p :: p in cands ==> p in start || FromScan(src, dst, stage, mids, k, p)
  }

  lemma AddsScannedNext(src: Asset, dst: Asset, stage: Stage, mids: seq<Asset>, k: nat,
                        start: seq<Path>, cands: seq<Path>, more: seq<Path>)
    requires k < |mids| && AddsScanned(src, dst, stage, mids, k, start, cands)
    requires forall p :: p in more ==>
               p in cands || (UsableIn(stage, src, dst, mids[k]) && p == ChainOf(stage, dst, mids[k]))
    ensures AddsScanned(src, dst, stage, mids, k + 1, start, more)
  {
    hide UsableIn, ChainOf;
  }

  lemma AddsNone(src: Asset, dst: Asset, stage: Stage, mids: seq<Asset>, start: seq<Path>)
    ensures AddsScanned(src, dst, stage, mids, 0, start, start)
  {
  }

  /** A candidate the stage may add: it is entered, and went over such an asset. */
  ghost predicate FromStage(t: Tables, src: Asset, dst: Asset, domain: Option<Domain>, stage: Stage,
                            budget: SearchBudget, scan: Scan, p: Path)
  {
    Open(t, src, dst, domain, stage, budget) && scan.k <= |scan.mids| && FromScan(src, dst, stage, scan.mids, scan.k, p)
  }

  lemma ScannedInStage(t: Tables, src: Asset, dst: Asset, domain: Option<Domain>, stage: Stage, budget: SearchBudget,
                       scan: Scan, start: seq<Path>, cands: seq<Path>)
    requires Open(t, src, dst, domain, stage, budget) && AddsScanned(src, dst, stage, scan.mids, scan.k, start, cands)
    ensures forall p :: p in cands ==> p in start || FromStage(t, src, dst, domain, stage, budget, scan, p)
  {
    hide Open, FromScan;
  }

  lemma MidFromScan(t: Tables, src: Asset, dst: Asset, domain: Option<Domain>, budget: SearchBudget,
                    scan: Scan, pairs: seq<Scored>, i: nat)
    requires scan.k <= |scan.mids| && MidPairs(src, dst, scan.mids, scan.k, pairs) && i < |pairs|
    ensures FromStage(t, src, dst, domain, TwoHop, budget, scan, pairs[i].hops)
  {
    hide UsableMid;
    var mid := pairs[i].hops[0];
    assert pairs[i].hops == [mid, dst];
    var j :| 0 <= j < scan.k && scan.mids[..scan.k][j] == mid;
    assert UsableIn(TwoHop, src, dst, scan.mids[j]);
  }

  /** The heads and the pairs scanned. */
  method ScanPairs(books: LocalOrderBooks, src: Asset, dst: Asset, domain: Option<Domain>, budget: SearchBudget,
                   proceed: nat -> bool)
    returns (pairs: seq<Scored>, scan: Scan)
    requires budget.twoHop > 0
    ensures PairList(books.Contents(), src, dst, domain, pairs) && |pairs| <= budget.twoHop + 2
    ensures NoDuplicates(scan.mids) && scan.k <= |scan.mids|
    ensures forall a :: a in scan.mids <==> a in Between(books.Contents(), src, dst, domain, TwoHop)
    ensures Scanned(|scan.mids|, scan.k, |UsableAmong(TwoHop, src, dst, scan.mids[..scan.k])|, budget.twoHop, proceed,
                    0, scan.asked)
    ensures forall p :: IsHead(books.Contents(), src, dst, domain, p) ==>
              exists i :: 0 <= i < |pairs| && pairs[i].hops == p
    ensures forall j :: 0 <= j < scan.k && UsableMid(src, dst, scan.mids[j]) ==>
              exists i :: 0 <= i < |pairs| && pairs[i].hops == [scan.mids[j], dst]
    ensures forall i :: 0 <= i < |pairs| ==>
              || IsHead(books.Contents(), src, dst, domain, pairs[i].hops)
              || FromStage(books.Contents(), src, dst, domain, TwoHop, budget, scan, pairs[i].hops)
  {
    hide PathQuality, HasBook, Neighbors, Feeders, PairList, IsPair, UsableAmong, UsableMid, Scanned, FromStage;
    ghost var t := books.Contents();
    var heads := ScanHeads(books, src, dst, domain);
    var mids := books.GetIntermediates(src, dst, domain);
    var tail, k, asked := ScanMids(books, src, dst, domain, mids, budget.twoHop, proceed, 0);
    scan := Scan(mids, k, asked);
    PairsJoin(t, src, dst, domain, heads, tail, mids, k);
    ScannedWithin(|mids|, k, |tail|, budget.twoHop, proceed, 0, asked);
    pairs := heads + tail;
    forall i | 0 <= i < |tail|
      ensures FromStage(t, src, dst, domain, TwoHop, budget, scan, tail[i].hops)
    {
      MidFromScan(t, src, dst, domain, budget, scan, tail, i);
    }
    forall p | IsHead(t, src, dst, domain, p)
      ensures exists i :: 0 <= i < |pairs| && pairs[i].hops == p
    {
      var i :| 0 <= i < |heads| && heads[i].hops == p;
      assert pairs[i].hops == p;
    }
    forall j | 0 <= j < k && UsableMid(src, dst, mids[j])
      ensures exists i :: 0 <= i < |pairs| && pairs[i].hops == [mids[j], dst]
    {
      var i :| 0 <= i < |tail| && tail[i].hops == [mids[j], dst];
      assert pairs[|heads| + i].hops == [mids[j], dst];
    }
  }

  lemma ScannedWithin(total: nat, k: nat, found: nat, limit: int, proceed: nat -> bool, from: nat, asked: nat)
    requires Scanned(total, k, found, limit, proceed, from, asked)
    ensures found <= limit
  {
  }

  /** The pair candidates, best score first: exactly the heads and the pairs
      through the assets scanned. */
  method PairCandidates(books: LocalOrderBooks, src: Asset, dst: Asset, domain: Option<Domain>, budget: SearchBudget,
                        proceed: nat -> bool)
    returns (cands: seq<Path>, scan: Scan)
    requires 0 < budget.twoHop < CANDIDATE_LIMIT - 2
    ensures Candidates(cands) && |cands| <= budget.twoHop + 2
    ensures StageRan(books.Contents(), src, dst, domain, TwoHop, budget, proceed, 0, scan, cands)
    ensures forall p :: IsHead(books.Contents(), src, dst, domain, p) ==> p in cands
    ensures forall p :: p in cands ==> IsPair(books.Contents(), src, dst, domain, p)
    ensures forall p :: p in cands ==>
              || IsHead(books.Contents(), src, dst, domain, p)
              || FromStage(books.Contents(), src, dst, domain, TwoHop, budget, scan, p)
    ensures ByScore(books.Contents(), src, domain, cands)
  {
    hide IsPair, IsHead, PathQuality, UsableAmong, UsableMid, Between, Scanned, ByScore, FromStage;
    ghost var t := books.Contents();
    var pairs;
    pairs, scan := ScanPairs(books, src, dst, domain, budget, proceed);
    var sorted := Sort(pairs, ScoredLeq);
    SortedPairs(t, src, dst, domain, pairs, sorted);
    cands := ListHops(sorted);
    AllHops(pairs, sorted, cands);
    PairsByScore(t, src, dst, domain, sorted, cands);
  }

  method ListHops(sorted: seq<Scored>) returns (cands: seq<Path>)
    requires |sorted| < CANDIDATE_LIMIT
    requires forall i :: 0 <= i < |sorted| ==> 1 <= |sorted[i].hops| <= 2
    requires forall i, j :: 0 <= i < j < |sorted| ==> sorted[i].hops != sorted[j].hops
    ensures Candidates(cands) && |cands| == |sorted| && forall i :: 0 <= i < |sorted| ==> cands[i] == sorted[i].hops
  {
    cands := [];
    for i := 0 to |sorted|
      invariant Candidates(cands) && |cands| == i
      invariant forall j :: 0 <= j < i ==> cands[j] == sorted[j].hops
    {
      assert sorted[i].hops !in cands;
      cands := AddPath(cands, sorted[i].hops);
    }
  }

  lemma PairsByScore(t: Tables, src: Asset, dst: Asset, domain: Option<Domain>, sorted: seq<Scored>, cands: seq<Path>)
    requires PairList(t, src, dst, domain, sorted) && SortedBy(sorted, ScoredLeq)
    requires |cands| == |sorted| && forall i :: 0 <= i < |sorted| ==> cands[i] == sorted[i].hops
    ensures ByScore(t, src, domain, cands)
  {
    hide IsPair, PathQuality;
  }

  lemma AllHops(pairs: seq<Scored>, sorted: seq<Scored>, cands: seq<Path>)
    requires |cands| == |sorted| && (forall j :: 0 <= j < |sorted| ==> cands[j] == sorted[j].hops)
    requires forall i :: 0 <= i < |pairs| ==> pairs[i] in sorted
    ensures forall i :: 0 <= i < |pairs| ==> pairs[i].hops in cands
  {
    forall i | 0 <= i < |pairs|
      ensures pairs[i].hops in cands
    {
      var j :| 0 <= j < |sorted| && sorted[j] == pairs[i];
      assert cands[j] == pairs[i].hops;
    }
  }

  lemma PairLength(t: Tables, src: Asset, dst: Asset, domain: Option<Domain>, p: Path)
    requires IsPair(t, src, dst, domain, p)
    ensures 1 <= |p| <= 2
  {
  }

  lemma SortedPairs(t: Tables, src: Asset, dst: Asset, domain: Option<Domain>, pairs: seq<Scored>, sorted: seq<Scored>)
    requires PairList(t, src, dst, domain, pairs) && multiset(sorted) == multiset(pairs) && SortedBy(sorted, ScoredLeq)
    ensures PairList(t, src, dst, domain, sorted) && |sorted| == |pairs|
    ensures forall i :: 0 <= i < |sorted| ==> 1 <= |sorted[i].hops| <= 2
    ensures forall i :: 0 <= i < |pairs| ==> pairs[i] in sorted
    ensures forall i :: 0 <= i < |sorted| ==> sorted[i] in pairs
  {
    SameMultisetSameElements(sorted, pairs);
    forall i | 0 <= i < |sorted|
      ensures IsPair(t, src, dst, domain, sorted[i].hops)
              && sorted[i].score == PathQuality(t, src, sorted[i].hops, domain)
      ensures 1 <= |sorted[i].hops| <= 2
    {
      assert sorted[i] in pairs;
      PairLength(t, src, dst, domain, sorted[i].hops);
    }
    NoDuplicatesMultiset(pairs, sorted);
    forall i, j | 0 <= i < j < |sorted|
      ensures sorted[i].hops != sorted[j].hops
    {
      assert sorted[i] in pairs && sorted[j] in pairs;
    }
  }

  lemma NoDuplicatesMultiset<T>(a: seq<T>, b: seq<T>)
    requires NoDuplicates(a) && multiset(a) == multiset(b)
    ensures NoDuplicates(b)
  {
    forall i, j | 0 <= i < j < |b|
      ensures b[i] != b[j]
    {
      if b[i] == b[j] {
        CountsTwo(b, i, j);
        CountsOne(a, b[i]);
      }
    }
  }

  lemma CountsTwo<T>(s: seq<T>, i: nat, j: nat)
    requires i < j < |s| && s[i] == s[j]
    ensures multiset(s)[s[i]] >= 2
  {
    assert s == s[..j] + ([s[j]] + s[j + 1..]);
    assert multiset(s) == multiset(s[..j]) + multiset([s[j]] + s[j + 1..]);
    assert s[..j][i] == s[i] && s[i] in multiset(s[..j]);
    assert s[j] in multiset([s[j]] + s[j + 1..]);
  }

  lemma {:induction false} CountsOne<T>(s: seq<T>, x: T)
    requires NoDuplicates(s)
    ensures multiset(s)[x] <= 1
  {
    if s == [] {
    } else {
      var init := s[..|s| - 1];
      assert s == init + [s[|s| - 1]];
      CountsOne(init, x);
      if s[|s| - 1] == x {
        assert x !in init;
      }
    }
  }

  // ---- Three hops through XRP ----

  /** src, mid, XRP, dst. */
  ghost predicate IsIntoHub(t: Tables, src: Asset, dst: Asset, domain: Option<Domain>, p: Path) {
    && |p| == 3 && p[1] == Xrp && p[2] == dst && !dst.Xrp? && HasBook(t, Xrp, dst, domain)
    && p[0] != Xrp && TokenOf(p[0]) != TokenOf(src) && TokenOf(p[0]) != TokenOf(dst)
    && p[0] in Neighbors(t, src, domain) * Feeders(t, Xrp, domain)
  }

  /** src, XRP, mid, dst. */
  ghost predicate IsOutOfHub(t: Tables, src: Asset, dst: Asset, domain: Option<Domain>, p: Path) {
    && |p| == 3 && p[0] == Xrp && p[2] == dst && !src.Xrp? && HasBook(t, src, Xrp, domain)
    && p[1] != Xrp && TokenOf(p[1]) != TokenOf(src) && TokenOf(p[1]) != TokenOf(dst)
    && p[1] in Neighbors(t, Xrp, domain) * Feeders(t, dst, domain)
  }

  /** No asset comes twice and the source never comes back. */
  predicate Simple(src: Asset, p: Path) {
    NoDuplicates(p) && src !in p
  }

  /** A hub chain is simple exactly when XRP is not its source, respectively its
      destination, and the source is not the destination too. */
  lemma HubChainsRevisit(t: Tables, src: Asset, dst: Asset, domain: Option<Domain>, p: Path)
    ensures IsIntoHub(t, src, dst, domain, p) ==> (Simple(src, p) <==> !src.Xrp? && src != dst)
    ensures IsOutOfHub(t, src, dst, domain, p) ==> (Simple(src, p) <==> !dst.Xrp? && src != dst)
  {
    if IsIntoHub(t, src, dst, domain, p) {
      assert p == [p[0], Xrp, dst];
      assert src.Xrp? ==> p[1] == src && p[1] in p;
      assert p[2] == dst && p[2] in p;
    }
    if IsOutOfHub(t, src, dst, domain, p) {
      assert p == [Xrp, p[1], dst];
      assert dst.Xrp? ==> p[0] == p[2];
      assert p[2] == dst && p[2] in p;
    }
  }

  predicate HubMid(src: Asset, dst: Asset, mid: Asset) {
    !mid.Xrp? && TokenOf(mid) != TokenOf(src) && TokenOf(mid) != TokenOf(dst)
  }

  lemma IntoHubChains(t: Tables, src: Asset, dst: Asset, domain: Option<Domain>, mids: seq<Asset>, k: nat,
                      start: seq<Path>, cands: seq<Path>)
    requires !dst.Xrp? && HasBook(t, Xrp, dst, domain) && AddsScanned(src, dst, IntoXrp, mids, k, start, cands)
    requires forall a :: a in mids ==> a in Neighbors(t, src, domain) * Feeders(t, Xrp, domain)
    ensures forall p :: p in cands ==> p in start || IsIntoHub(t, src, dst, domain, p)
  {
    hide HasBook, Neighbors, Feeders;
  }

  lemma OutOfHubChains(t: Tables, src: Asset, dst: Asset, domain: Option<Domain>, mids: seq<Asset>, k: nat,
                       start: seq<Path>, cands: seq<Path>)
    requires !src.Xrp? && HasBook(t, src, Xrp, domain) && AddsScanned(src, dst, OutOfXrp, mids, k, start, cands)
    requires forall a :: a in mids ==> a in Neighbors(t, Xrp, domain) * Feeders(t, dst, domain)
    ensures forall p :: p in cands ==> p in start || IsOutOfHub(t, src, dst, domain, p)
  {
    hide HasBook, Neighbors, Feeders;
  }

  /** The loop of both hub stages: a chain for each usable asset, as far as the
      callback and half the two-hop limit let it go. */
  method ScanHubMids(src: Asset, dst: Asset, stage: Stage, mids: seq<Asset>, budget: SearchBudget, proceed: nat -> bool,
                     from: nat, start: seq<Path>)
    returns (cands: seq<Path>, k: nat, asked: nat)
    requires Candidates(start) && !stage.TwoHop?
    ensures Candidates(cands) && start <= cands && k <= |mids|
    ensures AddsScanned(src, dst, stage, mids, k, start, cands)
    ensures Listed(src, dst, stage, mids, k, cands)
    ensures Scanned(|mids|, k, |UsableAmong(stage, src, dst, mids[..k])|, Limit(stage, budget), proceed, from, asked)
  {
    hide HubMid, AddPath, UsableAmong, Listed, AddsScanned, ChainOf;
    cands, k, asked := start, 0, from;
    var n := 0;
    NoneUsable(stage, src, dst, mids);
    NoneListed(src, dst, stage, mids, cands);
    AddsNone(src, dst, stage, mids, cands);
    while k < |mids|
      invariant k <= |mids| && (k > 0 ==> n < Limit(stage, budget)) && n <= k
      invariant n == |UsableAmong(stage, src, dst, mids[..k])|
      invariant asked == from + k && forall m :: from <= m < asked ==> proceed(m)
      invariant Candidates(cands) && start <= cands
      invariant Listed(src, dst, stage, mids, k, cands) && AddsScanned(src, dst, stage, mids, k, start, cands)
    {
      asked := asked + 1;
      if !proceed(asked - 1) {
        return;
      }
      var mid := mids[k];
      UsableAmongNext(stage, src, dst, mids, k);
      ghost var before := cands;
      if HubMid(src, dst, mid) {
        AddPathKeeps(cands, ChainOf(stage, dst, mid));
        cands := AddPath(cands, ChainOf(stage, dst, mid));
        n := n + 1;
      }
      ListedNext(src, dst, stage, mids, k, before, cands);
      AddsScannedNext(src, dst, stage, mids, k, start, before, cands);
      k := k + 1;
      if n >= budget.twoHop / 2 && HubMid(src, dst, mid) {
        break;
      }
    }
  }

  /** Chains src, mid, XRP, dst. */
  method IntoHub(books: LocalOrderBooks, src: Asset, dst: Asset, domain: Option<Domain>, budget: SearchBudget,
                 proceed: nat -> bool, from: nat, start: seq<Path>)
    returns (cands: seq<Path>, scan: Scan)
    requires Candidates(start)
    ensures Candidates(cands) && start <= cands
    ensures forall p :: p in cands ==>
              p in start || (budget.maxHops >= 3 && IsIntoHub(books.Contents(), src, dst, domain, p))
    ensures forall p :: p in cands ==>
              p in start || FromStage(books.Contents(), src, dst, domain, IntoXrp, budget, scan, p)
    ensures StageRan(books.Contents(), src, dst, domain, IntoXrp, budget, proceed, from, scan, cands)
  {
    hide HasBook, Neighbors, Feeders, UsableAmong, Listed, Scanned, IsIntoHub, AddsScanned, FromStage;
    ghost var t := books.Contents();
    cands, scan := start, Scan([], 0, from);
    var hub := books.GetHasBook(Xrp, dst, domain);
    if budget.maxHops < 3 || dst.Xrp? || !hub {
      return;
    }
    var mids := books.GetIntermediates(src, Xrp, domain);
    var k, asked;
    cands, k, asked := ScanHubMids(src, dst, IntoXrp, mids, budget, proceed, from, start);
    scan := Scan(mids, k, asked);
    ScannedInStage(t, src, dst, domain, IntoXrp, budget, scan, start, cands);
    IntoHubChains(t, src, dst, domain, mids, k, start, cands);
  }

  /** Chains src, XRP, mid, dst. */
  method OutOfHub(books: LocalOrderBooks, src: Asset, dst: Asset, domain: Option<Domain>, budget: SearchBudget,
                  proceed: nat -> bool, from: nat, start: seq<Path>)
    returns (cands: seq<Path>, scan: Scan)
    requires Candidates(start)
    ensures Candidates(cands) && start <= cands
    ensures forall p :: p in cands ==>
              p in start || (budget.maxHops >= 3 && IsOutOfHub(books.Contents(), src, dst, domain, p))
    ensures forall p :: p in cands ==>
              p in start || FromStage(books.Contents(), src, dst, domain, OutOfXrp, budget, scan, p)
    ensures StageRan(books.Contents(), src, dst, domain, OutOfXrp, budget, proceed, from, scan, cands)
  {
    hide HasBook, Neighbors, Feeders, UsableAmong, Listed, Scanned, IsOutOfHub, AddsScanned, FromStage;
    ghost var t := books.Contents();
    cands, scan := start, Scan([], 0, from);
    var hub := books.GetHasBook(src, Xrp, domain);
    if budget.maxHops < 3 || src.Xrp? || !hub {
      return;
    }
    var mids := books.GetIntermediates(Xrp, dst, domain);
    var k, asked;
    cands, k, asked := ScanHubMids(src, dst, OutOfXrp, mids, budget, proceed, from, start);
    scan := Scan(mids, k, asked);
    ScannedInStage(t, src, dst, domain, OutOfXrp, budget, scan, start, cands);
    OutOfHubChains(t, src, dst, domain, mids, k, start, cands);
  }

  // ---- Breadth-first walk ----

  predicate Preferred(dst: Asset, a: Asset) {
    a == dst || a.Xrp?
  }

  function Filtered(s: seq<Asset>, dst: Asset, preferred: bool): seq<Asset> {
    if s == [] then []
    else
      var rest := Filtered(s[..|s| - 1], dst, preferred);
      if Preferred(dst, s[|s| - 1]) == preferred then rest + [s[|s| - 1]] else rest
  }

  lemma {:induction false} FilteredAre(s: seq<Asset>, dst: Asset, preferred: bool)
    ensures forall a :: a in Filtered(s, dst, preferred) <==> a in s && Preferred(dst, a) == preferred
    ensures NoDuplicates(s) ==> NoDuplicates(Filtered(s, dst, preferred))
  {
    if s == [] {
    } else {
      FilteredAre(s[..|s| - 1], dst, preferred);
      assert s == s[..|s| - 1] + [s[|s| - 1]];
    }
  }

  /** Only the destination and XRP are preferred, so at most two of a list without repeats. */
  lemma FewPreferred(s: seq<Asset>, dst: Asset)
    requires NoDuplicates(s) && forall a :: a in s ==> Preferred(dst, a)
    ensures |s| <= 2
  {
    CountElements(s);
    SubsetSize(Elements(s), {dst, Xrp});
  }

  lemma PreferredFirst(first: seq<Asset>, rest: seq<Asset>, dst: Asset)
    requires NoDuplicates(first) && NoDuplicates(rest)
    requires forall a :: a in first ==> Preferred(dst, a)
    requires forall a :: a in rest ==> !Preferred(dst, a)
    ensures NoDuplicates(first + rest)
    ensures forall i :: 0 <= i < |first + rest| ==> (Preferred(dst, (first + rest)[i]) <==> i < |first|)
  {
    var r := first + rest;
    forall i | 0 <= i < |r|
      ensures Preferred(dst, r[i]) <==> i < |first|
    {
      if i < |first| {
        assert r[i] in first;
      } else {
        assert r[i] in rest;
      }
    }
    forall i, j | 0 <= i < j < |r|
      ensures r[i] != r[j]
    {
      if i < |first| <= j {
        assert Preferred(dst, r[i]) && !Preferred(dst, r[j]);
      }
    }
  }

  predicate BiggerBook(t: Tables, domain: Option<Domain>, a: Asset, b: Asset) {
    BookSize(t, b, domain) <= BookSize(t, a, domain)
  }

  /** The destination and XRP first, then the rest; more than two are in order
      of how many books they lead to. */
  method OrderedNeighbors(books: LocalOrderBooks, at: Asset, dst: Asset, domain: Option<Domain>)
    returns (r: seq<Asset>, ghost p: nat)
    ensures NoDuplicates(r)
    ensures forall a :: a in r <==> HasBook(books.Contents(), at, a, domain)
    ensures p <= |r| && p <= 2
    ensures forall i :: 0 <= i < |r| ==> (Preferred(dst, r[i]) <==> i < p)
    ensures |r| > 2 ==> forall i, j :: p <= i < j < |r| ==> BiggerBook(books.Contents(), domain, r[i], r[j])
  {
    hide HasBook, BookSize;
    var out := books.GetNeighbors(at, domain);
    var first, rest := Filtered(out, dst, true), Filtered(out, dst, false);
    FilteredAre(out, dst, true);
    FilteredAre(out, dst, false);
    FewPreferred(first, dst);
    p := |first|;
    if |first| + |rest| > 2 {
      var sizes := BookSizes(books, rest, domain);
      var leq := (a, b) => SizeIn(sizes, b) <= SizeIn(sizes, a);
      var sorted := Sort(rest, leq);
      SameMultisetSameElements(sorted, rest);
      NoDuplicatesMultiset(rest, sorted);
      SortedBySize(sorted, sizes, leq);
      rest := sorted;
    }
    PreferredFirst(first, rest, dst);
    r := first + rest;
  }

  lemma SortedBySize(sorted: seq<Asset>, sizes: map<Asset, nat>, leq: (Asset, Asset) -> bool)
    requires forall a, b :: leq(a, b) <==> SizeIn(sizes, b) <= SizeIn(sizes, a)
    requires SortedBy(sorted, leq)
    ensures forall i, j :: 0 <= i < j < |sorted| ==> SizeIn(sizes, sorted[j]) <= SizeIn(sizes, sorted[i])
  {
  }

  function SizeIn(sizes: map<Asset, nat>, a: Asset): nat {
    if a in sizes then sizes[a] else 0
  }

  method BookSizes(books: LocalOrderBooks, assets: seq<Asset>, domain: Option<Domain>) returns (sizes: map<Asset, nat>)
    ensures forall a :: a in assets ==> SizeIn(sizes, a) == BookSize(books.Contents(), a, domain)
  {
    sizes := map[];
    for i := 0 to |assets|
      invariant forall j :: 0 <= j < i ==> assets[j] in sizes
      invariant forall a :: a in sizes ==> sizes[a] == BookSize(books.Contents(), a, domain)
    {
      var n := books.GetBookSize(assets[i], domain);
      sizes := sizes[assets[i] := n];
    }
  }

  /** Each step of the path has a book, from the source on. */
  predicate Walk(t: Tables, src: Asset, p: Path, domain: Option<Domain>) {
    forall i :: 0 <= i < |p| ==> HasBook(t, Before(src, p, i), p[i], domain)
  }

  /** A walk that repeats no asset and never returns to the source's token. */
  ghost predicate SimpleWalk(t: Tables, src: Asset, p: Path, domain: Option<Domain>) {
    Walk(t, src, p, domain) && NoDuplicates(p) && forall a :: a in p ==> TokenOf(a) != TokenOf(src)
  }

  /** What the walk adds: simple, within the hop limit, reaching the destination only at its end. */
  ghost predicate IsWalkTo(t: Tables, src: Asset, dst: Asset, domain: Option<Domain>, maxHops: int, p: Path) {
    SimpleWalk(t, src, p, domain) && 0 < |p| <= maxHops && p[|p| - 1] == dst
  }

  datatype Frame = Frame(at: Asset, hops: Path)

  ghost predicate FrameOk(t: Tables, src: Asset, dst: Asset, domain: Option<Domain>, maxHops: int, f: Frame) {
    && SimpleWalk(t, src, f.hops, domain) && |f.hops| < maxHops && dst !in f.hops
    && f.at == if f.hops == [] then src else f.hops[|f.hops| - 1]
  }

  lemma WalkExtends(t: Tables, src: Asset, dst: Asset, domain: Option<Domain>, maxHops: int, f: Frame, next: Asset)
    requires FrameOk(t, src, dst, domain, maxHops, f)
    requires HasBook(t, f.at, next, domain) && Usable(src, f, next)
    ensures |f.hops| < maxHops
    ensures next == dst ==> IsWalkTo(t, src, dst, domain, maxHops, f.hops + [next])
    ensures next != dst && |f.hops| + 1 < maxHops ==>
              FrameOk(t, src, dst, domain, maxHops, Frame(next, f.hops + [next]))
  {
    hide HasBook;
    var p := f.hops + [next];
    forall i | 0 <= i < |p|
      ensures HasBook(t, Before(src, p, i), p[i], domain)
    {
      if i < |f.hops| {
        assert Before(src, p, i) == Before(src, f.hops, i);
      }
    }
  }

  /** An asset the walk may go on to: not of the source's token, not on the path yet. */
  predicate Usable(src: Asset, f: Frame, next: Asset) {
    TokenOf(next) != TokenOf(src) && next !in f.hops
  }

  /** The destination becomes a candidate, room permitting, a shorter walk a queued frame. */
  ghost predicate Handled(dst: Asset, maxHops: int, f: Frame, next: Asset, cands: seq<Path>, frames: seq<Frame>) {
    if next == dst then |cands| < CANDIDATE_LIMIT ==> f.hops + [next] in cands
    else |f.hops| + 1 < maxHops ==> Frame(next, f.hops + [next]) in frames
  }

  lemma HandledStays(dst: Asset, maxHops: int, f: Frame, cands: seq<Path>, frames: seq<Frame>, moreCands: seq<Path>,
                     moreFrames: seq<Frame>)
    requires cands <= moreCands && forall g :: g in frames ==> g in moreFrames
    ensures forall next :: Handled(dst, maxHops, f, next, cands, frames) ==>
              Handled(dst, maxHops, f, next, moreCands, moreFrames)
  {
  }

  /** The walk may go on from f to a. */
  predicate Onward(t: Tables, src: Asset, domain: Option<Domain>, f: Frame, a: Asset) {
    HasBook(t, f.at, a, domain) && Usable(src, f, a)
  }

  /** The onward assets an expansion takes: all of them, or `branch` of them, the
      destination before any other and bigger books before smaller ones. */
  ghost predicate Taken(t: Tables, src: Asset, dst: Asset, domain: Option<Domain>, branch: int, f: Frame,
                        taken: seq<Asset>)
  {
    && NoDuplicates(taken) && |taken| <= branch
    && (forall a :: a in taken ==> Onward(t, src, domain, f, a))
    && (|taken| < branch ==> forall a :: Onward(t, src, domain, f, a) ==> a in taken)
    && (branch >= 2 ==> forall a :: Onward(t, src, domain, f, a) && (a == dst || a == Xrp) ==> a in taken)
    && (branch >= 2 ==> forall a, b :: a in taken && Onward(t, src, domain, f, b) && b !in taken ==>
          a == dst || a == Xrp || BookSize(t, b, domain) <= BookSize(t, a, domain))
  }

  ghost predicate Expanded(t: Tables, src: Asset, dst: Asset, domain: Option<Domain>, maxHops: int, branch: int,
                           f: Frame, cands: seq<Path>, frames: seq<Frame>)
  {
    exists taken: seq<Asset> ::
      Taken(t, src, dst, domain, branch, f, taken)
      && forall a :: a in taken ==> Handled(dst, maxHops, f, a, cands, frames)
  }

  /** One usable neighbour: the hop check here never fires. */
  method TakeStep(ghost t: Tables, src: Asset, dst: Asset, ghost domain: Option<Domain>, maxHops: int, frame: Frame,
                  next: Asset, start: seq<Path>, startFrames: seq<Frame>)
    returns (cands: seq<Path>, frames: seq<Frame>)
    requires Candidates(start) && FrameOk(t, src, dst, domain, maxHops, frame)
    requires HasBook(t, frame.at, next, domain) && Usable(src, frame, next)
    requires maxHops <= MAX_PATH_LENGTH
    ensures Candidates(cands) && start <= cands && startFrames <= frames
    ensures |cands| + |frames| <= |start| + |startFrames| + 1
    ensures forall p :: p in cands ==> p in start || IsWalkTo(t, src, dst, domain, maxHops, p)
    ensures forall p :: p in cands ==> p in start || (next == dst && p == frame.hops + [dst])
    ensures frames == startFrames || frames == startFrames + [Frame(next, frame.hops + [next])]
    ensures forall i :: |startFrames| <= i < |frames| ==> FrameOk(t, src, dst, domain, maxHops, frames[i])
    ensures Handled(dst, maxHops, frame, next, cands, frames)
  {
    hide HasBook, IsWalkTo, FrameOk, Usable, AddPath;
    cands, frames := start, startFrames;
    var hops := frame.hops + [next];
    WalkExtends(t, src, dst, domain, maxHops, frame, next);
    if |hops| > maxHops {
      assert false;
    }
    if next == dst {
      AddPathKeeps(cands, hops);
      cands := AddPath(cands, hops);
    } else if |hops| < maxHops {
      frames := frames + [Frame(next, hops)];
    }
  }

  /** The usable ones of a list, in order. */
  ghost function UsableOf(src: Asset, f: Frame, neigh: seq<Asset>): seq<Asset> {
    if neigh == [] then []
    else
      var last := neigh[|neigh| - 1];
      UsableOf(src, f, neigh[..|neigh| - 1]) + if Usable(src, f, last) then [last] else []
  }

  lemma {:induction false} UsableOfAre(src: Asset, f: Frame, neigh: seq<Asset>)
    ensures forall a :: a in UsableOf(src, f, neigh) <==> a in neigh && Usable(src, f, a)
    ensures NoDuplicates(neigh) ==> NoDuplicates(UsableOf(src, f, neigh))
  {
    hide Usable;
    if neigh == [] {
    } else {
      UsableOfAre(src, f, neigh[..|neigh| - 1]);
      assert neigh == neigh[..|neigh| - 1] + [neigh[|neigh| - 1]];
    }
  }

  lemma UsableOfNext(src: Asset, f: Frame, neigh: seq<Asset>, k: nat)
    requires k < |neigh|
    ensures UsableOf(src, f, neigh[..k + 1]) ==
            UsableOf(src, f, neigh[..k]) + if Usable(src, f, neigh[k]) then [neigh[k]] else []
  {
    assert neigh[..k + 1][..k] == neigh[..k];
  }

  /** Going through the ordered neighbours up to k takes what an expansion takes. */
  lemma PrefixTaken(t: Tables, src: Asset, dst: Asset, domain: Option<Domain>, branch: int, f: Frame, neigh: seq<Asset>,
                    p: nat, k: nat)
    requires k <= |neigh| && NoDuplicates(neigh) && forall a :: a in neigh <==> HasBook(t, f.at, a, domain)
    requires p <= |neigh| && p <= 2 && forall i :: 0 <= i < |neigh| ==> (Preferred(dst, neigh[i]) <==> i < p)
    requires |neigh| > 2 ==> forall i, j :: p <= i < j < |neigh| ==> BiggerBook(t, domain, neigh[i], neigh[j])
    requires |UsableOf(src, f, neigh[..k])| <= branch && (k == |neigh| || |UsableOf(src, f, neigh[..k])| == branch)
    ensures Taken(t, src, dst, domain, branch, f, UsableOf(src, f, neigh[..k]))
  {
    hide HasBook, BookSize, Usable, UsableOf;
    var taken := UsableOf(src, f, neigh[..k]);
    UsableOfAre(src, f, neigh[..k]);
    UsableOfShort(src, f, neigh[..k]);
    assert k == |neigh| ==> neigh[..k] == neigh;
    if branch >= 2 {
      forall a, b | a in taken && Onward(t, src, domain, f, b) && b !in taken
        ensures Preferred(dst, a) || BiggerBook(t, domain, a, b)
      {
        var i :| 0 <= i < k && neigh[..k][i] == a;
        var j :| 0 <= j < |neigh| && neigh[j] == b;
        InPrefix(neigh, k, j);
      }
      forall a | Onward(t, src, domain, f, a) && (a == dst || a == Xrp)
        ensures a in taken
      {
        var j :| 0 <= j < |neigh| && neigh[j] == a;
        assert Preferred(dst, neigh[j]);
        InPrefix(neigh, k, j);
      }
    }
  }

  lemma InPrefix(s: seq<Asset>, k: nat, j: nat)
    requires j < |s| && k <= |s|
    ensures j < k ==> s[j] in s[..k]
  {
    if j < k {
      assert s[..k][j] == s[j];
    }
  }

  lemma {:induction false} UsableOfShort(src: Asset, f: Frame, neigh: seq<Asset>)
    ensures |UsableOf(src, f, neigh)| <= |neigh|
  {
    if neigh == [] {
    } else {
      UsableOfShort(src, f, neigh[..|neigh| - 1]);
    }
  }

  /** The frames of one expansion: one for each of their last hops. */
  ghost predicate Children(f: Frame, frames: seq<Frame>) {
    && NoDuplicates(frames)
    && forall g :: g in frames ==> g.hops == f.hops + [g.at]
  }

  /** Expands one frame: candidates and frames for all its onward neighbours, or
      for `branch` of them. */
  method ExpandFrame(books: LocalOrderBooks, src: Asset, dst: Asset, domain: Option<Domain>, maxHops: int, branch: int,
                     frame: Frame, start: seq<Path>)
    returns (cands: seq<Path>, frames: seq<Frame>)
    requires 0 < branch && maxHops <= MAX_PATH_LENGTH && Candidates(start)
    requires FrameOk(books.Contents(), src, dst, domain, maxHops, frame)
    ensures Candidates(cands) && start <= cands
    ensures forall p :: p in cands ==> p in start || IsWalkTo(books.Contents(), src, dst, domain, maxHops, p)
    ensures forall p :: p in cands ==> p in start || p == frame.hops + [dst]
    ensures forall i :: 0 <= i < |frames| ==> FrameOk(books.Contents(), src, dst, domain, maxHops, frames[i])
    ensures Children(frame, frames)
    ensures |cands| - |start| + |frames| <= branch
    ensures Expanded(books.Contents(), src, dst, domain, maxHops, branch, frame, cands, frames)
  {
    hide HasBook, BookSize, IsWalkTo, FrameOk, Usable, UsableOf, Handled, AddPath;
    ghost var t := books.Contents();
    cands, frames := start, [];
    var neigh, p := OrderedNeighbors(books, frame.at, dst, domain);
    var branched, k := 0, 0;
    NoneTaken(src, frame, neigh);
    while k < |neigh|
      invariant books.Contents() == t && k <= |neigh|
      invariant Candidates(cands) && start <= cands
      invariant forall p :: p in cands ==> p in start || IsWalkTo(t, src, dst, domain, maxHops, p)
      invariant forall p :: p in cands ==> p in start || p == frame.hops + [dst]
      invariant forall i :: 0 <= i < |frames| ==> FrameOk(t, src, dst, domain, maxHops, frames[i])
      invariant Children(frame, frames) && forall g :: g in frames ==> g.at in neigh[..k]
      invariant |cands| - |start| + |frames| <= branched < branch
      invariant branched == |UsableOf(src, frame, neigh[..k])|
      invariant forall a :: a in UsableOf(src, frame, neigh[..k]) ==> Handled(dst, maxHops, frame, a, cands, frames)
    {
      var next := neigh[k];
      assert next in neigh && next !in neigh[..k];
      UsableOfNext(src, frame, neigh, k);
      assert neigh[..k + 1] == neigh[..k] + [next];
      k := k + 1;
      if !Usable(src, frame, next) {
        continue;
      }
      ghost var cands0, frames0 := cands, frames;
      cands, frames := TakeStep(t, src, dst, domain, maxHops, frame, next, cands, frames);
      HandledStays(dst, maxHops, frame, cands0, frames0, cands, frames);
      branched := branched + 1;
      if branched >= branch {
        break;
      }
    }
    PrefixTaken(t, src, dst, domain, branch, frame, neigh, p, k);
  }

  lemma NoneTaken(src: Asset, f: Frame, neigh: seq<Asset>)
    ensures UsableOf(src, f, neigh[..0]) == []
  {
  }

  lemma ExpandedMore(t: Tables, src: Asset, dst: Asset, domain: Option<Domain>, maxHops: int, branch: int, f: Frame,
                     cands: seq<Path>, frames: seq<Frame>, moreCands: seq<Path>, moreFrames: seq<Frame>)
    requires Expanded(t, src, dst, domain, maxHops, branch, f, cands, frames)
    requires cands <= moreCands && forall g :: g in frames ==> g in moreFrames
    ensures Expanded(t, src, dst, domain, maxHops, branch, f, moreCands, moreFrames)
  {
    hide HasBook, Handled, Taken;
    HandledStays(dst, maxHops, f, cands, frames, moreCands, moreFrames);
    var taken :| Taken(t, src, dst, domain, branch, f, taken)
                 && forall a :: a in taken ==> Handled(dst, maxHops, f, a, cands, frames);
  }

  /** No frame has more onward neighbours than the branch limit. */
  ghost predicate BranchesFit(t: Tables, src: Asset, dst: Asset, domain: Option<Domain>, maxHops: int, branch: int) {
    forall f, ms: seq<Asset> ::
      FrameOk(t, src, dst, domain, maxHops, f) && NoDuplicates(ms)
      && (forall a :: a in ms ==> Onward(t, src, domain, f, a)) ==>
        |ms| <= branch
  }

  /** Then an expansion leaves nothing out. */
  lemma AllTaken(t: Tables, src: Asset, dst: Asset, domain: Option<Domain>, maxHops: int, branch: int, f: Frame,
                 next: Asset, cands: seq<Path>, frames: seq<Frame>)
    requires Expanded(t, src, dst, domain, maxHops, branch, f, cands, frames)
    requires BranchesFit(t, src, dst, domain, maxHops, branch) && FrameOk(t, src, dst, domain, maxHops, f)
    requires Onward(t, src, domain, f, next)
    ensures Handled(dst, maxHops, f, next, cands, frames)
  {
    hide Onward, Handled, FrameOk, Preferred, BiggerBook;
    var taken :| Taken(t, src, dst, domain, branch, f, taken)
                 && forall a :: a in taken ==> Handled(dst, maxHops, f, a, cands, frames);
    var more := taken + [next];
    assert forall a :: a in more ==> Onward(t, src, domain, f, a);
    assert next !in taken ==> NoDuplicates(more);
    assert NoDuplicates(more) ==> |more| <= branch;
  }

  /** Where the walk stands: every frame ever queued, in the order they are
      expanded, shortest first, none twice, each with its parent among the first
      `done`, which are expanded. */
  ghost predicate Queued(t: Tables, src: Asset, dst: Asset, domain: Option<Domain>, maxHops: int, frames: seq<Frame>,
                         done: nat)
  {
    && done <= |frames| && 0 < |frames| && frames[0] == Frame(src, []) && NoDuplicates(frames)
    && (forall i :: 0 <= i < |frames| ==> FrameOk(t, src, dst, domain, maxHops, frames[i]))
    && ShortestFirst(frames, done) && ParentsDone(frames, done)
  }

  predicate ShortestFirst(frames: seq<Frame>, done: nat) {
    && (forall i, j :: 0 <= i < j < |frames| ==> |frames[i].hops| <= |frames[j].hops|)
    && (done < |frames| ==> forall i :: 0 <= i < |frames| ==> |frames[i].hops| <= |frames[done].hops| + 1)
  }

  predicate ParentsDone(frames: seq<Frame>, done: nat)
    requires done <= |frames|
  {
    forall i :: 0 < i < |frames| ==> HasParent(frames[..done], frames[i])
  }

  predicate HasParent(parents: seq<Frame>, f: Frame) {
    f.hops != [] && exists g :: g in parents && g.hops == Parent(f)
  }

  function Parent(f: Frame): Path
    requires f.hops != []
  {
    f.hops[..|f.hops| - 1]
  }

  ghost predicate AllExpanded(t: Tables, src: Asset, dst: Asset, domain: Option<Domain>, maxHops: int, branch: int,
                              frames: seq<Frame>, done: nat, cands: seq<Path>)
    requires done <= |frames|
  {
    forall i :: 0 <= i < done ==> Expanded(t, src, dst, domain, maxHops, branch, frames[i], cands, frames)
  }

  lemma QueuedNext(t: Tables, src: Asset, dst: Asset, domain: Option<Domain>, maxHops: int, frames: seq<Frame>,
                   done: nat, more: seq<Frame>)
    requires Queued(t, src, dst, domain, maxHops, frames, done) && done < |frames|
    requires Children(frames[done], more)
    requires forall i :: 0 <= i < |more| ==> FrameOk(t, src, dst, domain, maxHops, more[i])
    ensures Queued(t, src, dst, domain, maxHops, frames + more, done + 1)
  {
    hide FrameOk, Children, ShortestFirst, ParentsDone;
    NewFrames(t, src, dst, domain, maxHops, frames, done, more);
    JoinedFrames(frames[done], frames, more);
    ShortestNext(frames, done, more);
    ParentsNext(frames, done, more);
  }

  lemma JoinedFrames(f: Frame, frames: seq<Frame>, more: seq<Frame>)
    requires NoDuplicates(frames) && Children(f, more) && forall g :: g in more ==> g !in frames
    ensures NoDuplicates(frames + more)
  {
    var all := frames + more;
    forall i, j | 0 <= i < j < |all|
      ensures all[i] != all[j]
    {
      if i < |frames| <= j {
        assert all[i] in frames && all[j] in more;
      } else if |frames| <= i {
        assert all[i] == more[i - |frames|] && all[j] == more[j - |frames|];
      }
    }
  }

  lemma ShortestNext(frames: seq<Frame>, done: nat, more: seq<Frame>)
    requires ShortestFirst(frames, done) && done < |frames| && Children(frames[done], more)
    ensures ShortestFirst(frames + more, done + 1)
  {
    assert forall i :: 0 <= i < |more| ==> more[i] in more && |more[i].hops| == |frames[done].hops| + 1;
  }

  lemma ParentsNext(frames: seq<Frame>, done: nat, more: seq<Frame>)
    requires done < |frames| && ParentsDone(frames, done) && Children(frames[done], more)
    ensures ParentsDone(frames + more, done + 1)
  {
    hide HasParent;
    var all := frames + more;
    assert all[..done + 1] == frames[..done] + [frames[done]];
    forall i | 0 < i < |all|
      ensures HasParent(all[..done + 1], all[i])
    {
      if i < |frames| {
        MoreParents(frames[..done], frames[done], frames[i]);
      } else {
        assert all[i] in more;
        ChildHasParent(frames[..done], frames[done], all[i]);
      }
    }
  }

  lemma MoreParents(parents: seq<Frame>, f: Frame, g: Frame)
    requires HasParent(parents, g)
    ensures HasParent(parents + [f], g)
  {
    var p :| p in parents && p.hops == Parent(g);
    assert p in parents + [f];
  }

  lemma ChildHasParent(parents: seq<Frame>, f: Frame, g: Frame)
    requires g.hops == f.hops + [g.at]
    ensures HasParent(parents + [f], g)
  {
    assert f in parents + [f] && f.hops == Parent(g);
  }

  lemma NewFrames(t: Tables, src: Asset, dst: Asset, domain: Option<Domain>, maxHops: int, frames: seq<Frame>,
                  done: nat, more: seq<Frame>)
    requires Queued(t, src, dst, domain, maxHops, frames, done) && done < |frames|
    requires Children(frames[done], more)
    ensures forall g :: g in more ==> g !in frames
  {
    hide FrameOk, ShortestFirst, HasParent;
    forall g, i | g in more && 0 <= i < |frames|
      ensures frames[i] != g
    {
      if i > 0 {
        var p := ParentOf(frames, done, frames[i]);
        HopsTellFrames(t, src, dst, domain, maxHops, p, frames[done]);
      }
      assert Parent(g) == frames[done].hops;
    }
  }

  lemma ParentOf(frames: seq<Frame>, done: nat, f: Frame) returns (p: Frame)
    requires done < |frames| && NoDuplicates(frames) && HasParent(frames[..done], f)
    ensures p in frames && p != frames[done] && f.hops != [] && p.hops == Parent(f)
  {
    p :| p in frames[..done] && p.hops == Parent(f);
    var j :| 0 <= j < done && frames[..done][j] == p;
    assert frames[j] == p;
  }

  lemma HopsTellFrames(t: Tables, src: Asset, dst: Asset, domain: Option<Domain>, maxHops: int, f: Frame, g: Frame)
    requires FrameOk(t, src, dst, domain, maxHops, f) && FrameOk(t, src, dst, domain, maxHops, g)
    ensures f.hops == g.hops ==> f == g
  {
    hide SimpleWalk;
  }

  lemma ExpandedNext(t: Tables, src: Asset, dst: Asset, domain: Option<Domain>, maxHops: int, branch: int,
                     frames: seq<Frame>, done: nat, cands: seq<Path>, more: seq<Frame>, moreCands: seq<Path>)
    requires done < |frames| && AllExpanded(t, src, dst, domain, maxHops, branch, frames, done, cands)
             && cands <= moreCands
    requires Expanded(t, src, dst, domain, maxHops, branch, frames[done], moreCands, more)
    ensures AllExpanded(t, src, dst, domain, maxHops, branch, frames + more, done + 1, moreCands)
  {
    hide Expanded;
    forall i | 0 <= i < done + 1
      ensures Expanded(t, src, dst, domain, maxHops, branch, (frames + more)[i], moreCands, frames + more)
    {
      if i < done {
        ExpandedMore(t, src, dst, domain, maxHops, branch, frames[i], cands, frames, moreCands, frames + more);
      } else {
        ExpandedMore(t, src, dst, domain, maxHops, branch, frames[done], moreCands, more, moreCands, frames + more);
      }
    }
  }

  /** The walk as the source runs it: frames expanded in the order they were
      queued until none is left, the expansion limit is reached or the callback,
      asked before each, says stop. */
  ghost predicate Walked(t: Tables, src: Asset, dst: Asset, domain: Option<Domain>, budget: SearchBudget,
                         proceed: nat -> bool, from: nat,
                         frames: seq<Frame>, expanded: nat, asked: nat, cands: seq<Path>)
  {
    if budget.maxHops < 4 then asked == from && expanded == 0
    else
      && Queued(t, src, dst, domain, budget.maxHops, frames, expanded)
      && AllExpanded(t, src, dst, domain, budget.maxHops, budget.branch, frames, expanded, cands)
      && Scanned(|frames|, expanded, expanded, budget.expand, proceed, from, asked)
  }

  lemma WalkedMore(t: Tables, src: Asset, dst: Asset, domain: Option<Domain>, budget: SearchBudget,
                   proceed: nat -> bool, from: nat,
                   frames: seq<Frame>, expanded: nat, asked: nat, cands: seq<Path>, more: seq<Path>)
    requires Walked(t, src, dst, domain, budget, proceed, from, frames, expanded, asked, cands) && cands <= more
    ensures Walked(t, src, dst, domain, budget, proceed, from, frames, expanded, asked, more)
  {
    hide Queued, Expanded, Scanned;
    if budget.maxHops >= 4 {
      assert expanded <= |frames| by { QueuedWithin(t, src, dst, domain, budget.maxHops, frames, expanded); }
      forall i | 0 <= i < expanded
        ensures Expanded(t, src, dst, domain, budget.maxHops, budget.branch, frames[i], more, frames)
      {
        ExpandedMore(t, src, dst, domain, budget.maxHops, budget.branch, frames[i], cands, frames, more, frames);
      }
    }
  }

  lemma QueuedWithin(t: Tables, src: Asset, dst: Asset, domain: Option<Domain>, maxHops: int, frames: seq<Frame>,
                     done: nat)
    requires Queued(t, src, dst, domain, maxHops, frames, done)
    ensures done <= |frames|
  {
  }

  /** No more frames can be queued than the expansion limit. */
  ghost predicate FramesFit(t: Tables, src: Asset, dst: Asset, domain: Option<Domain>, budget: SearchBudget) {
    forall fs: seq<Frame> ::
      NoDuplicates(fs) && (forall i :: 0 <= i < |fs| ==> FrameOk(t, src, dst, domain, budget.maxHops, fs[i])) ==>
        |fs| <= budget.expand
  }

  /** A walk that fits its expansion limit and is never stopped runs out of frames. */
  lemma WalkEnds(t: Tables, src: Asset, dst: Asset, domain: Option<Domain>, budget: SearchBudget, proceed: nat -> bool,
                 from: nat, frames: seq<Frame>, expanded: nat, asked: nat, cands: seq<Path>)
    requires Walked(t, src, dst, domain, budget, proceed, from, frames, expanded, asked, cands) && budget.maxHops >= 4
    requires FramesFit(t, src, dst, domain, budget) && forall n :: proceed(n)
    ensures Frame(src, []) in frames
    ensures forall f :: f in frames ==>
              && FrameOk(t, src, dst, domain, budget.maxHops, f)
              && Expanded(t, src, dst, domain, budget.maxHops, budget.branch, f, cands, frames)
  {
    hide Expanded, FrameOk, ShortestFirst, ParentsDone;
    assert |frames| <= budget.expand;
    assert frames[0] in frames;
  }

  /** Over books within the limits it finds every simple walk. */
  lemma EveryWalkFound(t: Tables, src: Asset, dst: Asset, domain: Option<Domain>, budget: SearchBudget,
                       proceed: nat -> bool, from: nat,
                       frames: seq<Frame>, expanded: nat, asked: nat, cands: seq<Path>, p: Path)
    requires budget.maxHops >= 4 && |cands| < CANDIDATE_LIMIT
    ensures && Walked(t, src, dst, domain, budget, proceed, from, frames, expanded, asked, cands)
            && FramesFit(t, src, dst, domain, budget) && BranchesFit(t, src, dst, domain, budget.maxHops, budget.branch)
            && (forall n :: proceed(n)) && IsWalkTo(t, src, dst, domain, budget.maxHops, p) ==>
              p in cands
  {
    hide Walked, FramesFit, Expanded, FrameOk, IsWalkTo, BranchesFit, Handled, Onward;
    if && Walked(t, src, dst, domain, budget, proceed, from, frames, expanded, asked, cands)
       && FramesFit(t, src, dst, domain, budget) && BranchesFit(t, src, dst, domain, budget.maxHops, budget.branch)
       && (forall n :: proceed(n)) && IsWalkTo(t, src, dst, domain, budget.maxHops, p)
    {
      WalkEnds(t, src, dst, domain, budget, proceed, from, frames, expanded, asked, cands);
      var n := |p| - 1;
      WalkLength(t, src, dst, domain, budget.maxHops, p);
      StopIsQueued(t, src, dst, domain, budget.maxHops, budget.branch, p, n, cands, frames);
      StopLeadsOn(t, src, dst, domain, budget.maxHops, p, n);
      var f := Frame(Before(src, p, n), p[..n]);
      AllTaken(t, src, dst, domain, budget.maxHops, budget.branch, f, dst, cands, frames);
      HandledGives(dst, budget.maxHops, f, dst, cands, frames);
      assert p[..n] + [p[n]] == p;
    }
  }

  lemma WalkLength(t: Tables, src: Asset, dst: Asset, domain: Option<Domain>, maxHops: int, p: Path)
    requires IsWalkTo(t, src, dst, domain, maxHops, p)
    ensures 0 < |p| <= maxHops
  {
  }

  lemma HandledGives(dst: Asset, maxHops: int, f: Frame, next: Asset, cands: seq<Path>, frames: seq<Frame>)
    requires Handled(dst, maxHops, f, next, cands, frames) && |cands| < CANDIDATE_LIMIT
    ensures next == dst ==> f.hops + [next] in cands
    ensures next != dst && |f.hops| + 1 < maxHops ==> Frame(next, f.hops + [next]) in frames
  {
  }

  /** A walk to the destination is a queued frame at every stop before its end. */
  lemma {:induction false} StopIsQueued(t: Tables, src: Asset, dst: Asset, domain: Option<Domain>, maxHops: int,
                                        branch: int, p: Path, n: nat, cands: seq<Path>, frames: seq<Frame>)
    requires IsWalkTo(t, src, dst, domain, maxHops, p) && n < |p| && Frame(src, []) in frames
    requires BranchesFit(t, src, dst, domain, maxHops, branch) && |cands| < CANDIDATE_LIMIT
    requires forall f :: f in frames ==>
               FrameOk(t, src, dst, domain, maxHops, f)
               && Expanded(t, src, dst, domain, maxHops, branch, f, cands, frames)
    ensures Frame(Before(src, p, n), p[..n]) in frames
  {
    hide Expanded, IsWalkTo, BranchesFit, Handled, FrameOk, Onward;
    if n == 0 {
      assert p[..0] == [];
    } else {
      StopIsQueued(t, src, dst, domain, maxHops, branch, p, n - 1, cands, frames);
      StopLeadsOn(t, src, dst, domain, maxHops, p, n - 1);
      var f := Frame(Before(src, p, n - 1), p[..n - 1]);
      AllTaken(t, src, dst, domain, maxHops, branch, f, p[n - 1], cands, frames);
      HandledGives(dst, maxHops, f, p[n - 1], cands, frames);
      assert p[..n - 1] + [p[n - 1]] == p[..n];
    }
  }

  lemma StopLeadsOn(t: Tables, src: Asset, dst: Asset, domain: Option<Domain>, maxHops: int, p: Path, n: nat)
    requires IsWalkTo(t, src, dst, domain, maxHops, p) && n < |p|
    ensures Onward(t, src, domain, Frame(Before(src, p, n), p[..n]), p[n])
    ensures (p[n] == dst <==> n == |p| - 1) && |p| <= maxHops
  {
    hide HasBook;
    assert p[n] in p;
  }

  /** An expanded frame, gone on to the destination. */
  ghost predicate FromFrame(dst: Asset, frames: seq<Frame>, expanded: nat, p: Path) {
    expanded <= |frames| && exists i :: 0 <= i < expanded && p == frames[i].hops + [dst]
  }

  lemma FromFrameNext(dst: Asset, frames: seq<Frame>, expanded: nat, more: seq<Frame>, p: Path)
    requires expanded < |frames|
    ensures FromFrame(dst, frames, expanded, p) || p == frames[expanded].hops + [dst] ==>
              FromFrame(dst, frames + more, expanded + 1, p)
  {
    if FromFrame(dst, frames, expanded, p) {
      var i :| 0 <= i < expanded && p == frames[i].hops + [dst];
      assert (frames + more)[i] == frames[i];
    } else {
      assert (frames + more)[expanded] == frames[expanded];
    }
  }

  /** The walk. No queued frame is as long as the hop limit; it makes at most
      `expand * branch` additions; and every path it adds is a simple walk to the
      destination. */
  method BreadthFirst(books: LocalOrderBooks, src: Asset, dst: Asset, domain: Option<Domain>, budget: SearchBudget,
                      proceed: nat -> bool, from: nat, start: seq<Path>)
    returns (cands: seq<Path>, ghost frames: seq<Frame>, expanded: nat, asked: nat)
    requires 0 < budget.expand && 0 < budget.branch && budget.maxHops <= MAX_PATH_LENGTH && Candidates(start)
    ensures Candidates(cands) && start <= cands
    ensures forall p :: p in cands ==>
              p in start || (budget.maxHops >= 4 && IsWalkTo(books.Contents(), src, dst, domain, budget.maxHops, p))
    ensures forall p :: p in cands ==> p in start || FromFrame(dst, frames, expanded, p)
    ensures expanded <= budget.expand && |cands| - |start| <= expanded * budget.branch
    ensures Walked(books.Contents(), src, dst, domain, budget, proceed, from, frames, expanded, asked, cands)
  {
    hide HasBook, Expanded, IsWalkTo, FrameOk, Children, Queued, AllExpanded, FromFrame;
    ghost var t := books.Contents();
    cands, frames, expanded, asked := start, [], 0, from;
    if budget.maxHops < 4 {
      return;
    }
    var queue := [Frame(src, [])];
    frames := queue;
    QueueStart(t, src, dst, domain, budget.maxHops);
    while queue != [] && expanded < budget.expand
      invariant books.Contents() == t && expanded <= |frames| && queue == frames[expanded..]
      invariant Candidates(cands) && start <= cands
      invariant forall p :: p in cands ==> p in start || IsWalkTo(t, src, dst, domain, budget.maxHops, p)
      invariant forall p :: p in cands ==> p in start || FromFrame(dst, frames, expanded, p)
      invariant expanded <= budget.expand
      invariant asked == from + expanded && forall n :: from <= n < asked ==> proceed(n)
      invariant |cands| - |start| <= expanded * budget.branch
      invariant Queued(t, src, dst, domain, budget.maxHops, frames, expanded)
      invariant AllExpanded(t, src, dst, domain, budget.maxHops, budget.branch, frames, expanded, cands)
      decreases budget.expand - expanded
    {
      asked := asked + 1;
      if !proceed(asked - 1) {
        return;
      }
      var frame := queue[0];
      queue := queue[1..];
      ShortFrame(t, src, dst, domain, budget.maxHops, frames, expanded);
      if |frame.hops| >= budget.maxHops {
        assert false;
      }
      ghost var before := cands;
      var more;
      cands, more := ExpandFrame(books, src, dst, domain, budget.maxHops, budget.branch, frame, cands);
      queue := queue + more;
      QueuedNext(t, src, dst, domain, budget.maxHops, frames, expanded, more);
      ExpandedNext(t, src, dst, domain, budget.maxHops, budget.branch, frames, expanded, before, more, cands);
      forall p | p in cands && p !in start
        ensures FromFrame(dst, frames + more, expanded + 1, p)
      {
        FromFrameNext(dst, frames, expanded, more, p);
      }
      frames := frames + more;
      expanded := expanded + 1;
      assert (expanded - 1) * budget.branch + budget.branch == expanded * budget.branch;
    }
  }

  lemma ShortFrame(t: Tables, src: Asset, dst: Asset, domain: Option<Domain>, maxHops: int, frames: seq<Frame>, i: nat)
    requires Queued(t, src, dst, domain, maxHops, frames, i) && i < |frames|
    ensures FrameOk(t, src, dst, domain, maxHops, frames[i]) && |frames[i].hops| < maxHops
  {
  }

  lemma QueueStart(t: Tables, src: Asset, dst: Asset, domain: Option<Domain>, maxHops: int)
    requires maxHops > 0
    ensures Queued(t, src, dst, domain, maxHops, [Frame(src, [])], 0)
    ensures forall branch, cands :: AllExpanded(t, src, dst, domain, maxHops, branch, [Frame(src, [])], 0, cands)
  {
  }

  // ---- All candidates ----

  ghost predicate Generated(t: Tables, src: Asset, dst: Asset, domain: Option<Domain>, maxHops: int, p: Path) {
    || IsPair(t, src, dst, domain, p)
    || (maxHops >= 3 && IsIntoHub(t, src, dst, domain, p))
    || (maxHops >= 3 && IsOutOfHub(t, src, dst, domain, p))
    || (maxHops >= 4 && IsWalkTo(t, src, dst, domain, maxHops, p))
  }

  predicate UsableExtra(extra: seq<Path>, p: Path) {
    p in extra && 0 < |p| <= MAX_PATH_LENGTH
  }

  /** A run of the stages, one after the other, each asking the callback from
      where the one before left off. */
  datatype Run = Run(two: Scan, into: Scan, out: Scan, frames: seq<Frame>, expanded: nat, asked: nat)

  ghost predicate Ran(t: Tables, src: Asset, dst: Asset, domain: Option<Domain>, budget: SearchBudget,
                      proceed: nat -> bool, run: Run, cands: seq<Path>)
  {
    && StageRan(t, src, dst, domain, TwoHop, budget, proceed, 0, run.two, cands)
    && StageRan(t, src, dst, domain, IntoXrp, budget, proceed, run.two.asked, run.into, cands)
    && StageRan(t, src, dst, domain, OutOfXrp, budget, proceed, run.into.asked, run.out, cands)
    && Walked(t, src, dst, domain, budget, proceed, run.out.asked, run.frames, run.expanded, run.asked, cands)
    && forall p :: IsHead(t, src, dst, domain, p) ==> p in cands
  }

  /** What a run may add: a head, a chain through a usable asset a stage went over,
      or an expanded frame gone on to the destination. */
  ghost predicate FromRun(t: Tables, src: Asset, dst: Asset, domain: Option<Domain>, budget: SearchBudget, run: Run,
                          p: Path)
  {
    || IsHead(t, src, dst, domain, p)
    || FromStage(t, src, dst, domain, TwoHop, budget, run.two, p)
    || FromStage(t, src, dst, domain, IntoXrp, budget, run.into, p)
    || FromStage(t, src, dst, domain, OutOfXrp, budget, run.out, p)
    || FromFrame(dst, run.frames, run.expanded, p)
  }

  /** The books lie within every limit of the budget. */
  ghost predicate WithinBudget(t: Tables, src: Asset, dst: Asset, domain: Option<Domain>, budget: SearchBudget) {
    && (forall stage: Stage :: StageFits(t, src, dst, domain, stage, budget))
    && FramesFit(t, src, dst, domain, budget)
    && BranchesFit(t, src, dst, domain, budget.maxHops, budget.branch)
  }

  /** Over books within the budget, never stopped and with room left, the stages
      leave out nothing they can generate. */
  lemma RunIsComplete(t: Tables, src: Asset, dst: Asset, domain: Option<Domain>, budget: SearchBudget,
                      proceed: nat -> bool, run: Run, cands: seq<Path>, p: Path)
    requires Ran(t, src, dst, domain, budget, proceed, run, cands) && WithinBudget(t, src, dst, domain, budget)
    requires (forall n :: proceed(n)) && |cands| < CANDIDATE_LIMIT
    requires Generated(t, src, dst, domain, budget.maxHops, p)
    ensures p in cands
  {
    hide StageRan, StageFits, FramesFit, BranchesFit, Walked, IsWalkTo, HasBook, Neighbors, Feeders;
    if budget.maxHops >= 4 && IsWalkTo(t, src, dst, domain, budget.maxHops, p) {
      EveryWalkFound(t, src, dst, domain, budget, proceed, run.out.asked, run.frames, run.expanded, run.asked, cands,
                     p);
    } else if IsHead(t, src, dst, domain, p) {
    } else if IsPair(t, src, dst, domain, p) {
      StageComplete(t, src, dst, domain, TwoHop, budget, proceed, 0, run.two, cands, p[0]);
      assert p == [p[0], dst];
    } else if IsIntoHub(t, src, dst, domain, p) {
      StageComplete(t, src, dst, domain, IntoXrp, budget, proceed, run.two.asked, run.into, cands, p[0]);
      assert p == [p[0], Xrp, dst];
    } else {
      StageComplete(t, src, dst, domain, OutOfXrp, budget, proceed, run.into.asked, run.out, cands, p[1]);
      assert p == [Xrp, p[1], dst];
    }
  }

  /** Every candidate was generated from the books or handed in; pairs come first,
      best first; and the stages ran as far as callback and limits let them. Over
      books within the budget, with a callback that never stops and room left, the
      candidates are exactly what the stages generate and the usable extras. */
  method AllCandidates(books: LocalOrderBooks, src: Asset, dst: Asset, domain: Option<Domain>, extra: seq<Path>,
                       budget: SearchBudget, proceed: nat -> bool)
    returns (cands: seq<Path>, ghost pairs: nat, ghost run: Run, asked: nat)
    requires ValidBudget(budget)
    ensures Candidates(cands) && pairs <= |cands| && asked == run.asked
    ensures forall p :: p in cands ==>
              UsableExtra(extra, p) || Generated(books.Contents(), src, dst, domain, budget.maxHops, p)
    ensures forall i :: 0 <= i < pairs ==> IsPair(books.Contents(), src, dst, domain, cands[i])
    ensures ByScore(books.Contents(), src, domain, cands[..pairs])
    ensures StageRan(books.Contents(), src, dst, domain, TwoHop, budget, proceed, 0, run.two, cands[..pairs])
    ensures Ran(books.Contents(), src, dst, domain, budget, proceed, run, cands)
    ensures forall p :: p in cands ==>
              UsableExtra(extra, p) || FromRun(books.Contents(), src, dst, domain, budget, run, p)
    ensures |cands| < CANDIDATE_LIMIT ==> forall p :: UsableExtra(extra, p) ==> p in cands
    ensures WithinBudget(books.Contents(), src, dst, domain, budget) && (forall n :: proceed(n))
            && |cands| < CANDIDATE_LIMIT ==>
              forall p ::
                UsableExtra(extra, p) || Generated(books.Contents(), src, dst, domain, budget.maxHops, p) ==> p in cands
  {
    hide IsPair, IsHead, IsIntoHub, IsOutOfHub, IsWalkTo, ByScore, StageRan, Walked, WithinBudget, FromStage, FromFrame;
    ghost var t := books.Contents();
    var two, into, out, expanded;
    ghost var frames;
    cands, two := PairCandidates(books, src, dst, domain, budget, proceed);
    ghost var c1 := cands;
    pairs := |cands|;
    cands, into := IntoHub(books, src, dst, domain, budget, proceed, two.asked, cands);
    ghost var c2 := cands;
    cands, out := OutOfHub(books, src, dst, domain, budget, proceed, into.asked, cands);
    ghost var c3 := cands;
    cands, frames, expanded, asked := BreadthFirst(books, src, dst, domain, budget, proceed, out.asked, cands);
    ghost var c4 := cands;
    run := Run(two, into, out, frames, expanded, asked);
    assert forall p :: p in c4 ==> FromRun(t, src, dst, domain, budget, run, p);
    cands := AddExtras(t, src, dst, domain, budget.maxHops, extra, cands);
    assert cands[..pairs] == c1;
    StageRanMore(t, src, dst, domain, TwoHop, budget, proceed, 0, two, c1, cands);
    StageRanMore(t, src, dst, domain, IntoXrp, budget, proceed, two.asked, into, c2, cands);
    StageRanMore(t, src, dst, domain, OutOfXrp, budget, proceed, into.asked, out, c3, cands);
    WalkedMore(t, src, dst, domain, budget, proceed, out.asked, frames, expanded, asked, c4, cands);
    assert forall p :: IsHead(t, src, dst, domain, p) ==> p in c1;
    WhenComplete(t, src, dst, domain, budget, proceed, run, cands);
  }

  lemma WhenComplete(t: Tables, src: Asset, dst: Asset, domain: Option<Domain>, budget: SearchBudget,
                     proceed: nat -> bool, run: Run, cands: seq<Path>)
    requires Ran(t, src, dst, domain, budget, proceed, run, cands)
    ensures WithinBudget(t, src, dst, domain, budget) && (forall n :: proceed(n)) && |cands| < CANDIDATE_LIMIT ==>
              forall p :: Generated(t, src, dst, domain, budget.maxHops, p) ==> p in cands
  {
    hide Ran, WithinBudget, Generated;
    if WithinBudget(t, src, dst, domain, budget) && (forall n :: proceed(n)) && |cands| < CANDIDATE_LIMIT {
      forall p | Generated(t, src, dst, domain, budget.maxHops, p)
        ensures p in cands
      {
        RunIsComplete(t, src, dst, domain, budget, proceed, run, cands, p);
      }
    }
  }

  method AddExtras(ghost t: Tables, src: Asset, dst: Asset, domain: Option<Domain>, maxHops: int, extra: seq<Path>,
                   start: seq<Path>)
    returns (cands: seq<Path>)
    requires Candidates(start)
    requires forall p :: p in start ==> Generated(t, src, dst, domain, maxHops, p)
    ensures Candidates(cands) && start <= cands && forall p :: p in cands ==> p in start || UsableExtra(extra, p)
    ensures forall p :: p in cands ==> UsableExtra(extra, p) || Generated(t, src, dst, domain, maxHops, p)
    ensures |cands| < CANDIDATE_LIMIT ==> forall p :: UsableExtra(extra, p) ==> p in cands
  {
    hide Generated;
    cands := start;
    for i := 0 to |extra|
      invariant Candidates(cands) && start <= cands && forall p :: p in cands ==> p in start || UsableExtra(extra, p)
      invariant forall p :: p in cands ==> UsableExtra(extra, p) || Generated(t, src, dst, domain, maxHops, p)
      invariant |cands| < CANDIDATE_LIMIT ==>
                  forall j :: 0 <= j < i && 0 < |extra[j]| <= MAX_PATH_LENGTH ==> extra[j] in cands
    {
      if |extra[i]| <= MAX_PATH_LENGTH {
        AddPathKeeps(cands, extra[i]);
        cands := AddPath(cands, extra[i]);
      }
    }
  }
}
