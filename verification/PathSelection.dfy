// FastPathFinder::search, ranking and selection: RippleCalc on the first
// candidates of distinct currency sequences, then at most six of them.

module PathSelection {
  import opened Prelude
  import opened LedgerObjects
  import opened OrderBooks
  import opened SearchBudgets
  import opened PathSearch

  /** The currencies along a path; issuers do not count. */
  function CurrencyKey(p: Path): seq<Token> {
    seq(|p|, i requires 0 <= i < |p| => TokenOf(p[i]))
  }

  /** Two paths have one key exactly if they go through the same currencies,
      whoever issues them, and the same tokens. */
  lemma SameCurrencies(p: Path, q: Path)
    ensures CurrencyKey(p) == CurrencyKey(q) <==>
              && |p| == |q|
              && forall i :: 0 <= i < |p| ==>
                   p[i] == q[i] || (p[i].Issued? && q[i].Issued? && p[i].currency == q[i].currency)
  {
    var k, l := CurrencyKey(p), CurrencyKey(q);
    if k == l {
      forall i | 0 <= i < |p|
        ensures p[i] == q[i] || (p[i].Issued? && q[i].Issued? && p[i].currency == q[i].currency)
      {
        assert k[i] == l[i];
      }
    }
  }

  /** What RippleCalc says of one path: a rate and an amount out, or a failure. */
  datatype Quote = Quote(quality: nat, liquidity: int)

  datatype Rank = Rank(quality: nat, liquidity: int, length: nat, index: nat)

  predicate RankBefore(convertAll: bool, a: Rank, b: Rank) {
    if !convertAll && a.quality != b.quality then a.quality < b.quality
    else if a.liquidity != b.liquidity then a.liquidity > b.liquidity
    else if a.length != b.length then a.length < b.length
    else a.index < b.index
  }

  predicate RankLeq(convertAll: bool, a: Rank, b: Rank) {
    !RankBefore(convertAll, b, a)
  }

  /** Each rank quotes its own candidate, and no two share a currency key. */
  ghost predicate Ranked(cands: seq<Path>, ripple: Path -> Option<Quote>, ranks: seq<Rank>) {
    && (forall r :: r in ranks ==>
          && r.index < |cands| && r.length == |cands[r.index]|
          && ripple(cands[r.index]) == Some(Quote(r.quality, r.liquidity)))
    && (forall i, j :: 0 <= i < j < |ranks| && ranks[i].index < |cands| && ranks[j].index < |cands| ==>
          CurrencyKey(cands[ranks[i].index]) != CurrencyKey(cands[ranks[j].index]))
  }

  /** No earlier candidate has the currencies of candidate i. */
  predicate FirstOfKey(cands: seq<Path>, i: nat)
    requires i < |cands|
  {
    forall j :: 0 <= j < i ==> CurrencyKey(cands[j]) != CurrencyKey(cands[i])
  }

  /** How many of the first n candidates are the first of their currencies. */
  function Firsts(cands: seq<Path>, n: nat): nat
    requires n <= |cands|
  {
    if n == 0 then 0 else Firsts(cands, n - 1) + if FirstOfKey(cands, n - 1) then 1 else 0
  }

  /** That is how many different currency sequences they have. */
  lemma {:induction false} FirstsCountKeys(cands: seq<Path>, n: nat)
    requires n <= |cands|
    ensures Firsts(cands, n) == |set i | 0 <= i < n :: CurrencyKey(cands[i])|
  {
    hide CurrencyKey;
    var keys := set i | 0 <= i < n :: CurrencyKey(cands[i]);
    if n == 0 {
      assert keys == {};
    } else {
      FirstsCountKeys(cands, n - 1);
      var before := set i | 0 <= i < n - 1 :: CurrencyKey(cands[i]);
      var key := CurrencyKey(cands[n - 1]);
      assert keys == before + {key};
      assert key in before <==> !FirstOfKey(cands, n - 1);
      assert key in before ==> keys == before;
    }
  }

  /** Candidate i is tried: it is the first of its currencies and fewer than
      `limit` such come before it. */
  predicate TriedAt(cands: seq<Path>, limit: int, i: nat)
    requires i < |cands|
  {
    FirstOfKey(cands, i) && Firsts(cands, i) < limit
  }

  /** Exactly the candidates tried and quoted among the first n have a rank. */
  ghost predicate RanksExact(cands: seq<Path>, ripple: Path -> Option<Quote>, limit: int, n: nat, ranks: seq<Rank>)
    requires n <= |cands|
  {
    && (forall r :: r in ranks ==> r.index < n && TriedAt(cands, limit, r.index))
    && (forall i :: 0 <= i < n && TriedAt(cands, limit, i) && ripple(cands[i]).Some? ==>
          exists r :: r in ranks && r.index == i)
  }

  /** RippleCalc on the candidates in order, skipping currency sequences already
      tried: the first n candidates are gone over, up to the end, to `limit`
      tries or to the callback's stop, and of these exactly the ones tried and
      quoted get a rank. */
  method RankCandidates(cands: seq<Path>, ripple: Path -> Option<Quote>, limit: nat, proceed: nat -> bool, from: nat)
    returns (ranks: seq<Rank>, n: nat)
    ensures Ranked(cands, ripple, ranks) && |ranks| <= limit
    ensures n <= |cands| && (forall m :: from <= m < from + n ==> proceed(m))
    ensures n == |cands| || Firsts(cands, n) == limit || !proceed(from + n)
    ensures RanksExact(cands, ripple, limit, n, ranks)
    ensures (forall m :: proceed(m)) ==> RanksExact(cands, ripple, limit, |cands|, ranks)
  {
    hide CurrencyKey, FirstOfKey;
    ranks, n := [], 0;
    var keys: set<seq<Token>> := {};
    var ranked := 0;
    while n < |cands| && ranked < limit
      invariant n <= |cands| && ranked == Firsts(cands, n) <= limit
      invariant forall m :: from <= m < from + n ==> proceed(m)
      invariant Ranked(cands, ripple, ranks) && |ranks| <= ranked
      invariant forall k :: k in keys <==> exists j :: 0 <= j < n && CurrencyKey(cands[j]) == k
      invariant forall r :: r in ranks ==> r.index < n && TriedAt(cands, limit, r.index)
      invariant forall j :: 0 <= j < n && TriedAt(cands, limit, j) && ripple(cands[j]).Some? ==>
                  exists r :: r in ranks && r.index == j
    {
      if !proceed(from + n) {
        return;
      }
      var key := CurrencyKey(cands[n]);
      FirstIfNew(cands, n, keys);
      if key !in keys {
        keys := keys + {key};
        ranked := ranked + 1;
        var quote := ripple(cands[n]);
        if quote.Some? {
          var rank := Rank(quote.value.quality, quote.value.liquidity, |cands[n]|, n);
          NewKey(cands, ranks, n);
          RankedMore(cands, ripple, ranks, rank);
          assert rank in ranks + [rank];
          ranks := ranks + [rank];
        }
      }
      n := n + 1;
    }
    FirstsGrow(cands, n);
  }

  lemma {:induction false} FirstsGrow(cands: seq<Path>, i: nat)
    requires i <= |cands|
    ensures forall j :: i <= j <= |cands| ==> Firsts(cands, i) <= Firsts(cands, j)
    decreases |cands| - i
  {
    if i < |cands| {
      FirstsGrow(cands, i + 1);
      assert Firsts(cands, i) <= Firsts(cands, i + 1);
    }
  }

  lemma FirstIfNew(cands: seq<Path>, i: nat, keys: set<seq<Token>>)
    requires i < |cands|
    requires forall k :: k in keys <==> exists j :: 0 <= j < i && CurrencyKey(cands[j]) == k
    ensures FirstOfKey(cands, i) <==> CurrencyKey(cands[i]) !in keys
  {
    hide CurrencyKey;
  }

  lemma NewKey(cands: seq<Path>, ranks: seq<Rank>, i: nat)
    requires i < |cands| && FirstOfKey(cands, i) && forall r :: r in ranks ==> r.index < i
    ensures forall r :: r in ranks ==> CurrencyKey(cands[r.index]) != CurrencyKey(cands[i])
  {
    hide CurrencyKey;
  }

  lemma RankedMore(cands: seq<Path>, ripple: Path -> Option<Quote>, ranks: seq<Rank>, rank: Rank)
    requires Ranked(cands, ripple, ranks)
    requires rank.index < |cands| && rank.length == |cands[rank.index]|
    requires ripple(cands[rank.index]) == Some(Quote(rank.quality, rank.liquidity))
    requires forall r :: r in ranks ==> CurrencyKey(cands[r.index]) != CurrencyKey(cands[rank.index])
    ensures Ranked(cands, ripple, ranks + [rank])
  {
    hide CurrencyKey;
    var more := ranks + [rank];
    forall i, j | 0 <= i < j < |more|
      ensures CurrencyKey(cands[more[i].index]) != CurrencyKey(cands[more[j].index])
    {
      assert more[i] in ranks;
    }
  }

  lemma SortedRanked(cands: seq<Path>, ripple: Path -> Option<Quote>, ranks: seq<Rank>, sorted: seq<Rank>)
    requires Ranked(cands, ripple, ranks) && multiset(sorted) == multiset(ranks)
    ensures Ranked(cands, ripple, sorted) && |sorted| == |ranks|
    ensures forall r :: r in sorted <==> r in ranks
  {
    hide CurrencyKey;
    SameMultisetSameElements(sorted, ranks);
    NoDuplicatesMultiset(ranks, sorted);
    forall i, j | 0 <= i < j < |sorted|
      ensures CurrencyKey(cands[sorted[i].index]) != CurrencyKey(cands[sorted[j].index])
    {
      assert sorted[i] in ranks && sorted[j] in ranks && sorted[i] != sorted[j];
    }
  }

  // ---- Selection ----

  /** The ranked paths, in rank order. */
  function RankedPaths(cands: seq<Path>, ranks: seq<Rank>): (r: seq<Path>)
    requires forall r :: r in ranks ==> r.index < |cands|
    ensures |r| == |ranks|
  {
    seq(|ranks|, i requires 0 <= i < |ranks| => assert ranks[i] in ranks; cands[ranks[i].index])
  }

  ghost predicate DistinctKeys(paths: seq<Path>) {
    forall i, j :: 0 <= i < j < |paths| ==> CurrencyKey(paths[i]) != CurrencyKey(paths[j])
  }

  predicate Short(p: Path) {
    |p| <= 2
  }

  /** The short, or the longer, paths of a list in order. */
  function Only(paths: seq<Path>, short: bool): seq<Path> {
    if paths == [] then []
    else
      var rest := Only(paths[..|paths| - 1], short);
      if Short(paths[|paths| - 1]) == short then rest + [paths[|paths| - 1]] else rest
  }

  function Cut(paths: seq<Path>, n: nat): seq<Path> {
    paths[..Min(|paths|, n)]
  }

  /** The paths of a list not in `picked`, in order. */
  function Rest(paths: seq<Path>, picked: seq<Path>): seq<Path> {
    if paths == [] then []
    else
      var rest := Rest(paths[..|paths| - 1], picked);
      if paths[|paths| - 1] in picked then rest else rest + [paths[|paths| - 1]]
  }

  lemma {:induction false} OnlyAre(paths: seq<Path>, short: bool)
    ensures forall p :: p in Only(paths, short) <==> p in paths && Short(p) == short
    ensures NoDuplicates(paths) ==> NoDuplicates(Only(paths, short))
    ensures |Only(paths, true)| + |Only(paths, false)| == |paths|
  {
    hide Short;
    OnlyCount(paths);
    if paths == [] {
    } else {
      var init, last := paths[..|paths| - 1], paths[|paths| - 1];
      OnlyAre(init, short);
      assert paths == init + [last];
      assert NoDuplicates(paths) ==> last !in init;
    }
  }

  lemma {:induction false} OnlyCount(paths: seq<Path>)
    ensures |Only(paths, true)| + |Only(paths, false)| == |paths|
  {
    hide Short;
    if paths == [] {
    } else {
      OnlyCount(paths[..|paths| - 1]);
    }
  }

  lemma {:induction false} RestAre(paths: seq<Path>, picked: seq<Path>)
    ensures forall p :: p in Rest(paths, picked) <==> p in paths && p !in picked
    ensures NoDuplicates(paths) ==> NoDuplicates(Rest(paths, picked))
  {
    if paths == [] {
    } else {
      RestAre(paths[..|paths| - 1], picked);
      assert paths == paths[..|paths| - 1] + [paths[|paths| - 1]];
    }
  }

  lemma OnlyNext(paths: seq<Path>, short: bool, i: nat)
    requires i < |paths|
    ensures Only(paths[..i + 1], short) ==
            if Short(paths[i]) == short then Only(paths[..i], short) + [paths[i]] else Only(paths[..i], short)
  {
    assert paths[..i + 1][..i] == paths[..i];
  }

  lemma RestNext(paths: seq<Path>, picked: seq<Path>, i: nat)
    requires i < |paths|
    ensures Rest(paths[..i + 1], picked) ==
            if paths[i] in picked then Rest(paths[..i], picked) else Rest(paths[..i], picked) + [paths[i]]
  {
    assert paths[..i + 1][..i] == paths[..i];
  }

  /** Keys of listed paths, to path membership and back. */
  ghost predicate KeysOf(paths: seq<Path>, picked: seq<Path>, chosen: set<seq<Token>>) {
    forall i :: 0 <= i < |paths| ==> (CurrencyKey(paths[i]) in chosen <==> paths[i] in picked)
  }

  lemma KeysOfMore(paths: seq<Path>, picked: seq<Path>, chosen: set<seq<Token>>, i: nat)
    requires DistinctKeys(paths) && KeysOf(paths, picked, chosen) && i < |paths|
    ensures KeysOf(paths, picked + [paths[i]], chosen + {CurrencyKey(paths[i])})
  {
    hide CurrencyKey;
    forall j | 0 <= j < |paths|
      ensures CurrencyKey(paths[j]) in chosen + {CurrencyKey(paths[i])} <==> paths[j] in picked + [paths[i]]
    {
      assert i < j ==> CurrencyKey(paths[i]) != CurrencyKey(paths[j]);
      assert j < i ==> CurrencyKey(paths[j]) != CurrencyKey(paths[i]);
    }
  }

  lemma DistinctKeysDistinctPaths(paths: seq<Path>)
    requires DistinctKeys(paths)
    ensures NoDuplicates(paths)
  {
    hide CurrencyKey;
  }

  /** The paths a pass of pick may add to those already picked: none is there yet. */
  lemma NotYetPicked(paths: seq<Path>, start: seq<Path>, short: bool, take: nat, i: nat)
    requires NoDuplicates(paths) && i < |paths| && Short(paths[i]) == short
    requires forall p :: p in start ==> p in paths && Short(p) != short
    ensures paths[i] !in Cut(start + Only(paths[..i], short), take)
  {
    OnlyAre(paths[..i], short);
    assert paths[i] !in paths[..i];
  }

  /** One pass of pick: the short, or the longer, ranked paths after those
      already picked, up to `take`. */
  method Pick(paths: seq<Path>, short: bool, take: nat, start: seq<Path>, startChosen: set<seq<Token>>)
    returns (picked: seq<Path>, chosen: set<seq<Token>>)
    requires DistinctKeys(paths) && |start| <= take && KeysOf(paths, start, startChosen)
    requires forall p :: p in start ==> p in paths && Short(p) != short
    ensures picked == Cut(start + Only(paths, short), take)
    ensures KeysOf(paths, picked, chosen)
  {
    hide CurrencyKey, KeysOf, Only;
    DistinctKeysDistinctPaths(paths);
    picked, chosen := start, startChosen;
    OnlyNone(paths, short);
    assert start + [] == start;
    for i := 0 to |paths|
      invariant picked == Cut(start + Only(paths[..i], short), take)
      invariant KeysOf(paths, picked, chosen)
    {
      if |picked| >= take {
        CutFull(paths, short, take, start, i);
        return;
      }
      OnlyNext(paths, short, i);
      if Short(paths[i]) == short {
        NotYetPicked(paths, start, short, take, i);
        KeysOfAt(paths, picked, chosen, i);
        assert picked == start + Only(paths[..i], short);
        assert CurrencyKey(paths[i]) !in chosen;
        KeysOfMore(paths, picked, chosen, i);
        chosen := chosen + {CurrencyKey(paths[i])};
        picked := picked + [paths[i]];
        assert start + Only(paths[..i], short) + [paths[i]] == start + Only(paths[..i + 1], short);
      }
    }
    assert paths[..|paths|] == paths;
  }

  lemma OnlyNone(paths: seq<Path>, short: bool)
    ensures Only(paths[..0], short) == []
  {
  }

  lemma KeysOfAt(paths: seq<Path>, picked: seq<Path>, chosen: set<seq<Token>>, i: nat)
    requires KeysOf(paths, picked, chosen) && i < |paths|
    ensures CurrencyKey(paths[i]) in chosen <==> paths[i] in picked
  {
  }

  /** Once full, later ranks do not change the cut. */
  lemma CutFull(paths: seq<Path>, short: bool, take: nat, start: seq<Path>, i: nat)
    requires i <= |paths| && |Cut(start + Only(paths[..i], short), take)| >= take
    ensures Cut(start + Only(paths, short), take) == Cut(start + Only(paths[..i], short), take)
  {
    OnlyPrefix(paths, short, i);
  }

  lemma {:induction false} OnlyPrefix(paths: seq<Path>, short: bool, i: nat)
    requires i <= |paths|
    ensures Only(paths[..i], short) <= Only(paths, short)
  {
    if i == |paths| {
      assert paths[..i] == paths;
    } else {
      OnlyPrefix(paths[..|paths| - 1], short, i);
      assert paths[..|paths| - 1][..i] == paths[..i];
    }
  }

  /** The selection: short ranked paths first, then longer ones, at most six. */
  function Selected(paths: seq<Path>): seq<Path> {
    Cut(Only(paths, true) + Only(paths, false), MAX_PATH_COUNT)
  }

  /** The two passes of pick and the loop that lists every other ranked path. */
  method Select(paths: seq<Path>, rank: nat) returns (picked: seq<Path>, discovered: seq<Path>)
    requires DistinctKeys(paths) && |paths| <= rank
    ensures picked == Selected(paths)
    ensures discovered == picked + Rest(paths, picked)
  {
    hide CurrencyKey, KeysOf, DistinctKeys;
    DistinctKeysDistinctPaths(paths);
    var take := Min(|paths|, MAX_PATH_COUNT);
    var chosen: set<seq<Token>>;
    NoKeys(paths);
    picked, chosen := Pick(paths, true, take, [], {});
    FirstPass(paths, take);
    assert [] + Only(paths, true) == Only(paths, true);
    picked, chosen := Pick(paths, false, take, picked, chosen);
    BothPasses(paths, take);
    SelectedAre(paths);
    discovered := ListRest(paths, rank, picked, chosen);
  }

  lemma NoKeys(paths: seq<Path>)
    ensures KeysOf(paths, [], {})
  {
  }

  lemma FirstPass(paths: seq<Path>, take: nat)
    ensures forall p :: p in Cut(Only(paths, true), take) ==> p in paths && Short(p)
    ensures |Cut(Only(paths, true), take)| <= take
  {
    OnlyAre(paths, true);
  }

  lemma CutTwice(a: seq<Path>, b: seq<Path>, n: nat)
    ensures Cut(Cut(a, n) + b, n) == Cut(a + b, n)
  {
    if |a| >= n {
      assert (a[..n] + b)[..n] == a[..n] == (a + b)[..n];
    } else {
      assert Cut(a, n) == a;
    }
  }

  lemma BothPasses(paths: seq<Path>, take: nat)
    requires take == Min(|paths|, MAX_PATH_COUNT)
    ensures Cut(Cut(Only(paths, true), take) + Only(paths, false), take) == Selected(paths)
  {
    hide Only;
    OnlyAre(paths, true);
    CutTwice(Only(paths, true), Only(paths, false), take);
  }

  lemma SelectedAre(paths: seq<Path>)
    requires NoDuplicates(paths)
    ensures NoDuplicates(Selected(paths)) && |Selected(paths)| == Min(|paths|, MAX_PATH_COUNT)
    ensures forall p :: p in Selected(paths) ==> p in paths
  {
    OnlyAre(paths, true);
    OnlyAre(paths, false);
    var all := Only(paths, true) + Only(paths, false);
    forall i, j | 0 <= i < j < |all|
      ensures all[i] != all[j]
    {
      if i < |Only(paths, true)| <= j {
        assert all[i] in Only(paths, true) && all[j] in Only(paths, false);
      }
    }
    assert forall p :: p in all ==> p in Only(paths, true) || p in Only(paths, false);
  }

  method ListRest(paths: seq<Path>, rank: nat, picked: seq<Path>, startChosen: set<seq<Token>>)
    returns (discovered: seq<Path>)
    requires DistinctKeys(paths) && |paths| <= rank && KeysOf(paths, picked, startChosen)
    requires NoDuplicates(picked) && forall p :: p in picked ==> p in paths
    ensures discovered == picked + Rest(paths, picked)
  {
    hide CurrencyKey, KeysOf, DistinctKeys, Rest;
    DistinctKeysDistinctPaths(paths);
    discovered := picked;
    var chosen := startChosen;
    RestNone(paths, picked);
    assert picked + [] == picked;
    for i := 0 to |paths|
      invariant discovered == picked + Rest(paths[..i], picked)
      invariant KeysOf(paths, discovered, chosen)
    {
      if |discovered| >= rank {
        NothingLeft(paths, picked, i, rank);
        return;
      }
      RestNext(paths, picked, i);
      KeysOfAt(paths, discovered, chosen, i);
      RestAre(paths[..i], picked);
      assert paths[i] !in paths[..i];
      if CurrencyKey(paths[i]) !in chosen {
        KeysOfMore(paths, discovered, chosen, i);
        chosen := chosen + {CurrencyKey(paths[i])};
        discovered := discovered + [paths[i]];
        assert picked + Rest(paths[..i], picked) + [paths[i]] == picked + Rest(paths[..i + 1], picked);
      }
    }
    assert paths[..|paths|] == paths;
  }

  lemma RestNone(paths: seq<Path>, picked: seq<Path>)
    ensures Rest(paths[..0], picked) == []
  {
  }

  lemma JoinedNoDuplicates(picked: seq<Path>, rest: seq<Path>)
    requires NoDuplicates(picked) && NoDuplicates(rest) && forall p :: p in rest ==> p !in picked
    ensures NoDuplicates(picked + rest)
  {
    var all := picked + rest;
    forall i, j | 0 <= i < j < |all|
      ensures all[i] != all[j]
    {
      if i < |picked| <= j {
        assert all[j] in rest;
      }
    }
  }

  /** Stopping at the rank budget leaves nothing out. */
  lemma NothingLeft(paths: seq<Path>, picked: seq<Path>, i: nat, rank: nat)
    requires NoDuplicates(paths) && NoDuplicates(picked) && i <= |paths| <= rank
    requires forall p :: p in picked ==> p in paths
    requires |picked + Rest(paths[..i], picked)| >= rank
    ensures Rest(paths[..i], picked) == Rest(paths, picked)
  {
    RestAre(paths[..i], picked);
    JoinedNoDuplicates(picked, Rest(paths[..i], picked));
    Pigeonhole(picked + Rest(paths[..i], picked), paths);
    NoMore(paths, picked, i);
  }

  lemma {:induction false} NoMore(paths: seq<Path>, picked: seq<Path>, i: nat)
    requires NoDuplicates(paths) && i <= |paths|
    requires forall p :: p in paths ==> p in picked || p in Rest(paths[..i], picked)
    ensures Rest(paths[..i], picked) == Rest(paths, picked)
    decreases |paths| - i
  {
    if i == |paths| {
      assert paths[..i] == paths;
    } else {
      RestAre(paths[..i], picked);
      assert paths[i] in paths && paths[i] !in paths[..i];
      RestNext(paths, picked, i);
      NoMore(paths, picked, i + 1);
    }
  }

  /** What the selection means: distinct paths, min(n, 6) of them; the picked
      are a prefix of the discovered, which are all ranked paths once each; and
      a longer path is picked only if every short one is. */
  lemma SelectionIsExact(paths: seq<Path>)
    requires DistinctKeys(paths)
    ensures var picked := Selected(paths);
            var discovered := picked + Rest(paths, picked);
            && |picked| == Min(|paths|, MAX_PATH_COUNT) && DistinctKeys(picked)
            && NoDuplicates(discovered) && |discovered| == |paths| && (forall p :: p in discovered <==> p in paths)
            && (forall i, j :: 0 <= i < j < |picked| && Short(picked[j]) ==> Short(picked[i]))
            && ((exists p :: p in picked && !Short(p)) ==> forall q :: q in paths && Short(q) ==> q in picked)
  {
    hide CurrencyKey;
    DistinctKeysDistinctPaths(paths);
    SelectedAre(paths);
    var picked := Selected(paths);
    RestAre(paths, picked);
    JoinedNoDuplicates(picked, Rest(paths, picked));
    Pigeonhole(picked + Rest(paths, picked), picked + Rest(paths, picked));
    AllDiscovered(paths, picked);
    ShortFirst(paths);
    KeysStayDistinct(paths, picked);
  }

  lemma AllDiscovered(paths: seq<Path>, picked: seq<Path>)
    requires NoDuplicates(paths) && NoDuplicates(picked) && forall p :: p in picked ==> p in paths
    ensures |picked + Rest(paths, picked)| == |paths|
  {
    RestAre(paths, picked);
    JoinedNoDuplicates(picked, Rest(paths, picked));
    var all := picked + Rest(paths, picked);
    CountElements(all);
    CountElements(paths);
    assert Elements(all) == Elements(paths);
  }

  lemma KeysStayDistinct(paths: seq<Path>, picked: seq<Path>)
    requires DistinctKeys(paths) && NoDuplicates(picked) && forall p :: p in picked ==> p in paths
    ensures DistinctKeys(picked)
  {
    hide CurrencyKey;
    forall i, j | 0 <= i < j < |picked|
      ensures CurrencyKey(picked[i]) != CurrencyKey(picked[j])
    {
      assert picked[i] in paths && picked[j] in paths;
      var k :| 0 <= k < |paths| && paths[k] == picked[i];
      var l :| 0 <= l < |paths| && paths[l] == picked[j];
      assert k < l ==> CurrencyKey(paths[k]) != CurrencyKey(paths[l]);
      assert l < k ==> CurrencyKey(paths[l]) != CurrencyKey(paths[k]);
    }
  }

  lemma ShortFirst(paths: seq<Path>)
    ensures var picked := Selected(paths);
            && (forall i, j :: 0 <= i < j < |picked| && Short(picked[j]) ==> Short(picked[i]))
            && ((exists p :: p in picked && !Short(p)) ==> forall q :: q in paths && Short(q) ==> q in picked)
  {
    OnlyAre(paths, true);
    OnlyAre(paths, false);
    var short, long := Only(paths, true), Only(paths, false);
    var picked := Selected(paths);
    forall i | 0 <= i < |picked|
      ensures Short(picked[i]) <==> i < |short|
    {
      if i < |short| {
        assert picked[i] == short[i] && short[i] in short;
      } else {
        assert picked[i] == long[i - |short|] && long[i - |short|] in long;
      }
    }
    if p :| p in picked && !Short(p) {
      var i :| 0 <= i < |picked| && picked[i] == p;
      forall q | q in paths && Short(q)
        ensures q in picked
      {
        assert q in short;
        var j :| 0 <= j < |short| && short[j] == q;
        assert picked[j] == q;
      }
    }
  }

  // ---- Rank order, path by path ----

  /** p stands before q in the list. */
  ghost predicate Ahead(paths: seq<Path>, p: Path, q: Path) {
    exists k, l :: 0 <= k < l < |paths| && paths[k] == p && paths[l] == q
  }

  lemma AheadStays(a: seq<Path>, b: seq<Path>, p: Path, q: Path)
    requires Ahead(a, p, q)
    ensures Ahead(a + b, p, q)
  {
    var k, l :| 0 <= k < l < |a| && a[k] == p && a[l] == q;
    assert (a + b)[k] == p && (a + b)[l] == q;
  }

  lemma {:induction false} OnlyInOrder(paths: seq<Path>, short: bool, i: nat, j: nat)
    requires i < j < |Only(paths, short)|
    ensures Ahead(paths, Only(paths, short)[i], Only(paths, short)[j])
  {
    hide Short;
    var init, last := paths[..|paths| - 1], paths[|paths| - 1];
    assert paths == init + [last];
    if j < |Only(init, short)| {
      OnlyInOrder(init, short, i, j);
      AheadStays(init, [last], Only(paths, short)[i], Only(paths, short)[j]);
    } else {
      OnlyAre(init, short);
      assert Only(init, short)[i] in Only(init, short);
      var k :| 0 <= k < |init| && init[k] == Only(init, short)[i];
      assert paths[k] == init[k] && paths[|paths| - 1] == last;
    }
  }

  lemma {:induction false} RestInOrder(paths: seq<Path>, picked: seq<Path>, i: nat, j: nat)
    requires i < j < |Rest(paths, picked)|
    ensures Ahead(paths, Rest(paths, picked)[i], Rest(paths, picked)[j])
  {
    var init, last := paths[..|paths| - 1], paths[|paths| - 1];
    assert paths == init + [last];
    if j < |Rest(init, picked)| {
      RestInOrder(init, picked, i, j);
      AheadStays(init, [last], Rest(paths, picked)[i], Rest(paths, picked)[j]);
    } else {
      RestAre(init, picked);
      assert Rest(init, picked)[i] in Rest(init, picked);
      var k :| 0 <= k < |init| && init[k] == Rest(init, picked)[i];
      assert paths[k] == init[k] && paths[|paths| - 1] == last;
    }
  }

  /** Of the short paths, and of the longer ones, the selection takes the first. */
  lemma SelectedInOrder(paths: seq<Path>)
    ensures var picked := Selected(paths);
            && (forall i, j :: 0 <= i < j < |picked| && Short(picked[i]) == Short(picked[j]) ==>
                  Ahead(paths, picked[i], picked[j]))
            && (forall p, q :: p in picked && q in paths && q !in picked && Short(p) == Short(q) ==>
                  Ahead(paths, p, q))
  {
    hide Only, Ahead, Short;
    var short, long := Only(paths, true), Only(paths, false);
    var picked := Selected(paths);
    PickedClasses(paths);
    forall i, j | 0 <= i < j < |picked| && Short(picked[i]) == Short(picked[j])
      ensures Ahead(paths, picked[i], picked[j])
    {
      if j < |short| {
        OnlyInOrder(paths, true, i, j);
      } else {
        OnlyInOrder(paths, false, i - |short|, j - |short|);
      }
    }
    forall p, q | p in picked && q in paths && q !in picked && Short(p) == Short(q)
      ensures Ahead(paths, p, q)
    {
      var i :| 0 <= i < |picked| && picked[i] == p;
      var j := LeftOut(paths, q);
      if i < |short| {
        OnlyInOrder(paths, true, i, j);
      } else {
        OnlyInOrder(paths, false, i - |short|, j);
      }
    }
  }

  lemma PickedClasses(paths: seq<Path>)
    ensures var short, picked := Only(paths, true), Selected(paths);
            forall i :: 0 <= i < |picked| ==>
              && (Short(picked[i]) <==> i < |short|)
              && picked[i] == if i < |short| then short[i] else Only(paths, false)[i - |short|]
  {
    OnlyAre(paths, true);
    OnlyAre(paths, false);
    var short, long, picked := Only(paths, true), Only(paths, false), Selected(paths);
    forall i | 0 <= i < |picked|
      ensures Short(picked[i]) <==> i < |short|
    {
      if i < |short| {
        assert picked[i] == short[i] && short[i] in short;
      } else {
        assert picked[i] == long[i - |short|] && long[i - |short|] in long;
      }
    }
  }

  /** A path left out stands behind the cut of its class. */
  lemma LeftOut(paths: seq<Path>, q: Path) returns (j: nat)
    requires q in paths && q !in Selected(paths)
    ensures var short := Only(paths, true);
            if Short(q) then j < |short| && short[j] == q && |Selected(paths)| <= j
            else j < |Only(paths, false)| && Only(paths, false)[j] == q && |Selected(paths)| <= |short| + j
  {
    var short, long, picked := Only(paths, true), Only(paths, false), Selected(paths);
    OnlyAre(paths, Short(q));
    j :| 0 <= j < |Only(paths, Short(q))| && Only(paths, Short(q))[j] == q;
    assert forall i :: 0 <= i < |picked| ==> picked[i] == (short + long)[i] && picked[i] != q;
    assert (short + long)[if Short(q) then j else |short| + j] == q;
  }

  /** As good as q by what RippleCalc says: a rate at least as low, unless all is
      converted; at equal rates at least as much out; then no longer, and of the
      earlier candidate. */
  ghost predicate NoWorse(convertAll: bool, cands: seq<Path>, ripple: Path -> Option<Quote>, p: Path, q: Path) {
    && ripple(p).Some? && ripple(q).Some?
    && var a, b := ripple(p).value, ripple(q).value;
    && (!convertAll ==> a.quality <= b.quality)
    && (convertAll || a.quality == b.quality ==> a.liquidity >= b.liquidity)
    && ((convertAll || a.quality == b.quality) && a.liquidity == b.liquidity ==> |p| <= |q|)
    && ((convertAll || a.quality == b.quality) && a.liquidity == b.liquidity && |p| == |q| ==> Ahead(cands, p, q))
  }

  /** What stands earlier in rank order is no worse. */
  lemma RankedNoWorse(convertAll: bool, cands: seq<Path>, ripple: Path -> Option<Quote>, ranks: seq<Rank>,
                      p: Path, q: Path)
    requires Ranked(cands, ripple, ranks)
    requires forall i, j :: 0 <= i < j < |ranks| ==> RankLeq(convertAll, ranks[i], ranks[j])
    requires Ahead(RankedPaths(cands, ranks), p, q)
    ensures NoWorse(convertAll, cands, ripple, p, q)
  {
    hide CurrencyKey;
    var paths := RankedPaths(cands, ranks);
    var k, l :| 0 <= k < l < |paths| && paths[k] == p && paths[l] == q;
    assert ranks[k] in ranks && ranks[l] in ranks;
    assert ranks[k].index != ranks[l].index;
    assert cands[ranks[k].index] == p && cands[ranks[l].index] == q;
  }

  lemma SelectionNoWorse(convertAll: bool, cands: seq<Path>, ripple: Path -> Option<Quote>, ranks: seq<Rank>)
    requires Ranked(cands, ripple, ranks)
    requires forall i, j :: 0 <= i < j < |ranks| ==> RankLeq(convertAll, ranks[i], ranks[j])
    ensures var ranked := RankedPaths(cands, ranks);
            var picked := Selected(ranked);
            && (forall i, j :: 0 <= i < j < |picked| && (|picked[i]| <= 2 <==> |picked[j]| <= 2) ==>
                  NoWorse(convertAll, cands, ripple, picked[i], picked[j]))
            && (forall p, q :: p in picked && q in ranked && q !in picked && (|p| <= 2 <==> |q| <= 2) ==>
                  NoWorse(convertAll, cands, ripple, p, q))
            && (forall i, j :: 0 <= i < j < |picked| && |picked[j]| <= 2 ==> |picked[i]| <= 2)
            && (forall p, q :: p in picked && q in ranked && |p| > 2 && |q| <= 2 ==> q in picked)
            && (forall i, j :: 0 <= i < j < |Rest(ranked, picked)| ==>
                  NoWorse(convertAll, cands, ripple, Rest(ranked, picked)[i], Rest(ranked, picked)[j]))
  {
    hide Rest, Selected, NoWorse, CurrencyKey, RankLeq, Ahead, RankedPaths;
    var ranked := RankedPaths(cands, ranks);
    SelectedInOrder(ranked);
    ShortFirst(ranked);
    forall p, q | Ahead(ranked, p, q)
      ensures NoWorse(convertAll, cands, ripple, p, q)
    {
      RankedNoWorse(convertAll, cands, ripple, ranks, p, q);
    }
    var rest := Rest(ranked, Selected(ranked));
    forall i, j | 0 <= i < j < |rest|
      ensures NoWorse(convertAll, cands, ripple, rest[i], rest[j])
    {
      RestInOrder(ranked, Selected(ranked), i, j);
    }
  }

  // ---- The whole search ----

  datatype FastPathResult = FastPathResult(paths: seq<Path>, discovered: seq<Path>, candidates: nat, ranked: nat,
                                           depth: int)

  ghost predicate Quoted(ripple: Path -> Option<Quote>, p: Path) {
    ripple(p).Some?
  }

  /** What a search went through: its candidates, how the stages ran, how many
      candidates the ranking went over, and the ranks. */
  datatype Trace = Trace(cands: seq<Path>, run: Run, considered: nat, ranks: seq<Rank>)

  /** The whole search as the source runs it. Candidates are generated from the
      books or handed in, the stages having run as far as callback and limits let
      them; the ranks are in rank order, one for each candidate tried and quoted,
      as far as the callback let the ranking go; the paths are the selection of
      the ranked ones, at most six, those of one or two hops before any longer one,
      and among the short ones as among the longer ones no path is worse than a
      later one or than one left out; those left out follow, best first. Over books
      within the budget, with a callback that never stops and fewer than 256
      candidates, every path the stages generate is a candidate and every one tried
      and quoted has a rank. */
  method Search(books: LocalOrderBooks, src: Asset, dst: Asset, domain: Option<Domain>, extra: seq<Path>,
                convertAll: bool, budget: SearchBudget, ripple: Path -> Option<Quote>, proceed: nat -> bool)
    returns (result: FastPathResult, ghost trace: Trace)
    requires ValidBudget(budget)
    ensures Candidates(trace.cands)
    ensures forall p :: p in trace.cands ==>
              UsableExtra(extra, p) || Generated(books.Contents(), src, dst, domain, budget.maxHops, p)
    ensures Ran(books.Contents(), src, dst, domain, budget, proceed, trace.run, trace.cands)
    ensures forall p :: p in trace.cands ==>
              UsableExtra(extra, p) || FromRun(books.Contents(), src, dst, domain, budget, trace.run, p)
    ensures |trace.cands| < CANDIDATE_LIMIT ==> forall p :: UsableExtra(extra, p) ==> p in trace.cands
    ensures WithinBudget(books.Contents(), src, dst, domain, budget) && (forall n :: proceed(n))
            && |trace.cands| < CANDIDATE_LIMIT ==>
              forall p :: Generated(books.Contents(), src, dst, domain, budget.maxHops, p) ==> p in trace.cands
    ensures Ranked(trace.cands, ripple, trace.ranks) && trace.considered <= |trace.cands|
    ensures var limit := Min(|trace.cands|, budget.rank);
            && RanksExact(trace.cands, ripple, limit, trace.considered, trace.ranks)
            && (trace.considered == |trace.cands| || Firsts(trace.cands, trace.considered) == limit
                || !proceed(trace.run.asked + trace.considered))
            && ((forall n :: proceed(n)) ==> RanksExact(trace.cands, ripple, limit, |trace.cands|, trace.ranks))
    ensures forall m :: trace.run.asked <= m < trace.run.asked + trace.considered ==> proceed(m)
    ensures forall i, j :: 0 <= i < j < |trace.ranks| ==> RankLeq(convertAll, trace.ranks[i], trace.ranks[j])
    ensures var ranked := RankedPaths(trace.cands, trace.ranks);
            && DistinctKeys(ranked)
            && result.paths == Selected(ranked)
            && result.discovered == result.paths + Rest(ranked, result.paths)
    ensures |result.paths| == Min(|trace.ranks|, 6)
    ensures |result.discovered| == |trace.ranks| && NoDuplicates(result.discovered)
    ensures forall p :: p in result.discovered <==> exists r :: r in trace.ranks && trace.cands[r.index] == p
    ensures forall i, j :: 0 <= i < j < |result.paths| && (|result.paths[i]| <= 2 <==> |result.paths[j]| <= 2) ==>
              NoWorse(convertAll, trace.cands, ripple, result.paths[i], result.paths[j])
    ensures forall p, q ::
              p in result.paths && q in result.discovered && q !in result.paths && (|p| <= 2 <==> |q| <= 2) ==>
                NoWorse(convertAll, trace.cands, ripple, p, q)
    ensures result.paths <= result.discovered
    ensures forall i, j :: |result.paths| <= i < j < |result.discovered| ==>
              NoWorse(convertAll, trace.cands, ripple, result.discovered[i], result.discovered[j])
    ensures forall i, j :: 0 <= i < j < |result.paths| && |result.paths[j]| <= 2 ==> |result.paths[i]| <= 2
    ensures forall p, q :: p in result.paths && q in result.discovered && |p| > 2 && |q| <= 2 ==> q in result.paths
    ensures result.candidates == |trace.cands| && result.ranked == |trace.ranks| && result.depth == budget.depth
  {
    hide Generated, CurrencyKey, Selected, Rest, TriedAt, RankLeq, Firsts, Ran, WithinBudget, NoWorse, RankedPaths,
      UsableExtra, FromRun, Candidates, RanksExact, DistinctKeys, Ranked;
    var found, _, run, asked := AllCandidates(books, src, dst, domain, extra, budget, proceed);
    var limit: nat := Min(|found|, budget.rank);
    var unsorted, n := RankCandidates(found, ripple, limit, proceed, asked);
    var sorted := SortRanks(convertAll, unsorted);
    SortedRanked(found, ripple, unsorted, sorted);
    RankedWithin(found, ripple, sorted);
    RanksStayExact(found, ripple, limit, n, unsorted, sorted);
    RanksStayExact(found, ripple, limit, |found|, unsorted, sorted);
    var paths := RankedPaths(found, sorted);
    RankedPathsAre(found, ripple, sorted);
    var picked, discovered := Select(paths, budget.rank);
    SelectionIsExact(paths);
    SelectionNoWorse(convertAll, found, ripple, sorted);
    RankedOnce(found, sorted);
    trace := Trace(found, run, n, sorted);
    result := FastPathResult(picked, discovered, |found|, |sorted|, budget.depth);
  }

  lemma RankedWithin(cands: seq<Path>, ripple: Path -> Option<Quote>, ranks: seq<Rank>)
    requires Ranked(cands, ripple, ranks)
    ensures forall r :: r in ranks ==> r.index < |cands|
  {
    hide CurrencyKey;
  }

  lemma RanksStayExact(cands: seq<Path>, ripple: Path -> Option<Quote>, limit: int, n: nat, ranks: seq<Rank>,
                       sorted: seq<Rank>)
    requires n <= |cands| && forall r :: r in sorted <==> r in ranks
    ensures RanksExact(cands, ripple, limit, n, ranks) ==> RanksExact(cands, ripple, limit, n, sorted)
  {
    hide TriedAt;
  }

  lemma RankedOnce(cands: seq<Path>, ranks: seq<Rank>)
    requires forall r :: r in ranks ==> r.index < |cands|
    ensures forall p :: p in RankedPaths(cands, ranks) <==> exists r :: r in ranks && cands[r.index] == p
  {
    var paths := RankedPaths(cands, ranks);
    forall p | exists r :: r in ranks && cands[r.index] == p
      ensures p in paths
    {
      var r :| r in ranks && cands[r.index] == p;
      var i :| 0 <= i < |ranks| && ranks[i] == r;
      assert paths[i] == p;
    }
  }

  /** Ranks in order of rate (unless converting all), then amount out, then length, then index. */
  method SortRanks(convertAll: bool, ranks: seq<Rank>) returns (sorted: seq<Rank>)
    ensures multiset(sorted) == multiset(ranks)
    ensures forall i, j :: 0 <= i < j < |sorted| ==> RankLeq(convertAll, sorted[i], sorted[j])
    ensures forall i, j :: 0 <= i < j < |sorted| ==>
              var a, b := sorted[i], sorted[j];
              var tied := convertAll || a.quality == b.quality;
              && (!convertAll ==> a.quality <= b.quality)
              && (tied ==> a.liquidity >= b.liquidity)
              && (tied && a.liquidity == b.liquidity ==> a.length <= b.length)
              && (tied && a.liquidity == b.liquidity && a.length == b.length ==> a.index <= b.index)
  {
    var leq := (a, b) => RankLeq(convertAll, a, b);
    sorted := Sort(ranks, leq);
    SortedLeq(convertAll, leq, sorted);
  }

  lemma SortedLeq(convertAll: bool, leq: (Rank, Rank) -> bool, sorted: seq<Rank>)
    requires forall a, b :: leq(a, b) == RankLeq(convertAll, a, b)
    requires SortedBy(sorted, leq)
    ensures forall i, j :: 0 <= i < j < |sorted| ==> RankLeq(convertAll, sorted[i], sorted[j])
  {
  }

  lemma RankedPathsAre(cands: seq<Path>, ripple: Path -> Option<Quote>, ranks: seq<Rank>)
    requires Ranked(cands, ripple, ranks)
    ensures DistinctKeys(RankedPaths(cands, ranks))
    ensures forall p :: p in RankedPaths(cands, ranks) ==> p in cands && Quoted(ripple, p)
  {
    hide CurrencyKey;
    var paths := RankedPaths(cands, ranks);
    forall i, j | 0 <= i < j < |paths|
      ensures CurrencyKey(paths[i]) != CurrencyKey(paths[j])
    {
      assert ranks[i] in ranks && ranks[j] in ranks;
    }
    forall i | 0 <= i < |paths|
      ensures paths[i] in cands && Quoted(ripple, paths[i])
    {
      assert ranks[i] in ranks;
    }
  }
}
