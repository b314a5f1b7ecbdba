// SearchBudget: how wide and deep a search of a given depth may go.

module SearchBudgets {
  import opened Prelude

  const MAX_PATH_LENGTH := 8
  const MAX_PATH_COUNT := 6
  const MAX_DEPTH := 4

  datatype SearchBudget = SearchBudget(depth: int, maxHops: int, twoHop: int, expand: int, branch: int, rank: int,
                                       autoSources: int)

  /** The limits a search relies on. */
  predicate ValidBudget(b: SearchBudget) {
    && 1 <= b.maxHops <= MAX_PATH_LENGTH && 0 < b.twoHop <= 128
    && 0 < b.expand && 0 < b.branch && MAX_PATH_COUNT <= b.rank
  }

  function ForDepth(depth: int): (b: SearchBudget)
    ensures b.depth == Clamp(depth, 0, MAX_DEPTH) && ValidBudget(b)
  {
    var d := Clamp(depth, 0, MAX_DEPTH);
    match d
    case 0 => SearchBudget(d, 2, 64, 8, 6, 8, 6)
    case 1 => SearchBudget(d, 3, 80, 16, 8, 10, 10)
    case 2 => SearchBudget(d, 4, 128, 16, 8, 10, 14)
    case 3 => SearchBudget(d, 6, 128, 32, 8, 12, 18)
    case _ => SearchBudget(d, MAX_PATH_LENGTH, 128, 48, 10, 12, 18)
  }

  /** A deeper budget never narrows any limit. */
  lemma DeeperIsWider(a: int, b: int)
    requires a <= b
    ensures ForDepth(a).maxHops <= ForDepth(b).maxHops && ForDepth(a).twoHop <= ForDepth(b).twoHop
    ensures ForDepth(a).expand <= ForDepth(b).expand && ForDepth(a).branch <= ForDepth(b).branch
    ensures ForDepth(a).rank <= ForDepth(b).rank && ForDepth(a).autoSources <= ForDepth(b).autoSources
  {
  }

  /** What the depths stand for: two hops at the shallowest, the payment limit of
      eight at the deepest, one more hop and then two more per depth between; four
      more source currencies per depth up to eighteen; and how many paths one walk
      may add at most. */
  lemma DepthsMean(depth: int)
    ensures var d, b := Clamp(depth, 0, 4), ForDepth(depth);
            && b.depth == d && b.maxHops == (if d <= 2 then 2 + d else 2 * d)
            && b.autoSources == Min(6 + 4 * d, 18)
            && b.twoHop == (if d == 0 then 64 else if d == 1 then 80 else 128)
            && b.expand * b.branch == (if d == 0 then 48 else if d <= 2 then 128 else if d == 3 then 256 else 480)
            && b.branch == (if d == 0 then 6 else if d == 4 then 10 else 8)
            && b.rank == (if d == 0 then 8 else if d <= 2 then 10 else 12)
  {
  }

  /** The depth the age alone asks for, in milliseconds. */
  function AgeDepth(ageMs: int, lo: int, hi: int): int
    requires lo <= hi
  {
    var span := hi - lo;
    if ageMs >= 50_000 then hi
    else if ageMs >= 25_000 then lo + Max(1, span * 3 / 4)
    else if ageMs >= 12_000 then lo + Max(1, span * 2 / 4)
    else if ageMs >= 4_000 then lo + Max(1, span / 4)
    else lo
  }

  function DepthFor(oneShot: bool, searchesDone: nat, ageMs: int, searchFast: int, search: int): (d: int)
    ensures Clamp(searchFast, 0, Clamp(search, 0, MAX_DEPTH)) <= d <= Clamp(search, 0, MAX_DEPTH)
  {
    var hi := Clamp(search, 0, MAX_DEPTH);
    var lo := Clamp(searchFast, 0, hi);
    if oneShot || lo == hi then hi
    else Clamp(Max(Clamp(lo + searchesDone, lo, hi), AgeDepth(ageMs, lo, hi)), lo, hi)
  }

  /** What a session's age and searches are worth, for a session that may climb: at
      least the fast depth and one more per search counted; from 4, 12 and 25 seconds
      on at least a quarter, half and three quarters of the way to the full depth,
      rounded down, and always one level more than the fast depth; from 50 seconds on
      the full depth; and nothing beyond that. */
  lemma AgeDeepens(searchesDone: nat, ageMs: int, searchFast: int, search: int)
    requires Max(searchFast, 0) < Min(search, 4)
    ensures var lo, hi := Max(searchFast, 0), Min(search, 4);
            var d, climbed := DepthFor(false, searchesDone, ageMs, searchFast, search), Min(lo + searchesDone, hi);
            && (ageMs < 4_000 ==> d == climbed)
            && (4_000 <= ageMs ==> d >= climbed && d >= lo + 1 && 4 * (d - lo) + 3 >= hi - lo)
            && (12_000 <= ageMs ==> 2 * (d - lo) + 1 >= hi - lo)
            && (25_000 <= ageMs ==> 4 * (d - lo) + 3 >= 3 * (hi - lo))
            && (50_000 <= ageMs ==> d == hi)
            && (d > climbed && ageMs < 12_000 ==> d == lo + 1 || 4 * (d - lo) <= hi - lo)
            && (d > climbed && ageMs < 25_000 ==> d == lo + 1 || 2 * (d - lo) <= hi - lo)
            && (d > climbed && ageMs < 50_000 ==> d == lo + 1 || 4 * (d - lo) <= 3 * (hi - lo))
  {
  }

  /** A single reply, and a session that may not climb, searches at the full depth;
      a fast depth above the full one counts as the full one. */
  lemma FixedDepths(oneShot: bool, searchesDone: nat, ageMs: int, searchFast: int, search: int)
    requires oneShot || searchFast >= Clamp(search, 0, 4)
    ensures DepthFor(oneShot, searchesDone, ageMs, searchFast, search) == Clamp(search, 0, 4)
  {
  }

  /** Older and more searched sessions never search shallower. */
  lemma DepthForMonotone(oneShot: bool, n: nat, m: nat, age: int, later: int, searchFast: int, search: int)
    requires n <= m && age <= later
    ensures DepthFor(oneShot, n, age, searchFast, search) <= DepthFor(oneShot, m, later, searchFast, search)
  {
  }
}
