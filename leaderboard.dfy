/**
 * `count_top` and `build_leaderboard` (scripts/analyzes.py): for every shop
 * that appears in the first five rows of any of the four rankings, how many
 * rankings list it in their first 1, 3 and 5 rows, sorted by those three
 * counts, highest first.
 */
module Leaderboard {
  import opened Wrappers
  import opened Sequences
  import opened Table
  import opened Metrics
  import Cleaning

  /** The `Shop` column of a metric frame; the empty frame has none. */
  function RankingShops(r: Ranking): (s: Option<seq<Cell>>)
    ensures s.None? <==> r.Unavailable?
    ensures r.Ranked? ==> s.value == ShopsOf(r.entries)
  {
    match r
    case Unavailable => None
    case Ranked(es) => Some(ShopsOf(es))
  }

  function GrowthShopsOf(rows: seq<GrowthRow>): (s: seq<Cell>)
    ensures |s| == |rows|
    ensures forall k :: 0 <= k < |rows| ==> s[k] == rows[k].shop
  {
    if rows == [] then [] else [rows[0].shop] + GrowthShopsOf(rows[1..])
  }

  function GrowthShops(g: Growth): (s: Option<seq<Cell>>)
    ensures s.None? <==> g.NoGrowth?
  {
    match g
    case NoGrowth => None
    case Labelled(rows) => Some(GrowthShopsOf(rows))
  }

  /**
   * `count_top(df, n)`: the shops of the first `n` rows, each with one
   * appearance; a frame without a `Shop` column raises a `KeyError`.
   */
  function CountTop(shops: Option<seq<Cell>>, n: nat): (r: Result<seq<Cell>, Failure>)
    ensures r.Err? <==> shops.None?
    ensures r.Err? ==> r.error == MissingColumn(ShopColumn)
    ensures r.Ok? ==> r.value <= shops.value && |r.value| == if |shops.value| <= n then |shops.value| else n
  {
    match shops
    case None => Err(MissingColumn(ShopColumn))
    case Some(s) => Ok(Head(s, n))
  }

  /** `pd.concat` of `count_top(m, n)` over the metrics, in order. */
  function Pool(lists: seq<seq<Cell>>, n: nat): seq<Cell> {
    if lists == [] then [] else Head(lists[0], n) + Pool(lists[1..], n)
  }

  /** The pool holds exactly the shops of the rankings' first-`n` windows. */
  lemma {:induction false} PoolMembers(lists: seq<seq<Cell>>, n: nat)
    ensures forall c :: c in Pool(lists, n) <==> exists k :: 0 <= k < |lists| && c in Head(lists[k], n)
  {
    if lists != [] {
      PoolMembers(lists[1..], n);
      assert forall k :: 1 <= k < |lists| ==> lists[1..][k - 1] == lists[k];
    }
  }

  /** One leaderboard row. */
  datatype Standing = Standing(shop: Cell, top1: nat, top3: nat, top5: nat)

  /** The shops of the outer join: every non-missing shop of the top-five pool, once. */
  function Keys(lists: seq<seq<Cell>>): (s: seq<Cell>)
    ensures Distinct(s)
    ensures forall c :: c in s <==> c != Missing && c in Pool(lists, 5)
  {
    Dedup(NonMissing(Pool(lists, 5)))
  }

  function NonMissing(s: seq<Cell>): (r: seq<Cell>)
    ensures forall c :: c in r <==> c != Missing && c in s
  {
    if s == [] then []
    else if s[0] == Missing then NonMissing(s[1..])
    else [s[0]] + NonMissing(s[1..])
  }

  /**
   * `groupby('Shop').sum()` of each pool, joined and with absent tiers
   * filled by zero. When no ranking repeats a shop, a tier count is the
   * number of rankings whose window holds the shop.
   */
  function Standings(keys: seq<Cell>, lists: seq<seq<Cell>>): (r: seq<Standing>)
    ensures |r| == |keys|
    ensures forall k :: 0 <= k < |keys| ==>
      r[k] == Standing(keys[k], Count(keys[k], Pool(lists, 1)), Count(keys[k], Pool(lists, 3)), Count(keys[k], Pool(lists, 5)))
    ensures AllDistinct(lists) ==> forall k :: 0 <= k < |keys| ==>
      r[k].top1 == Hits(keys[k], lists, 1) && r[k].top3 == Hits(keys[k], lists, 3) && r[k].top5 == Hits(keys[k], lists, 5)
  {
    assert AllDistinct(lists) ==> forall c :: (Count(c, Pool(lists, 1)) == Hits(c, lists, 1)
      && Count(c, Pool(lists, 3)) == Hits(c, lists, 3) && Count(c, Pool(lists, 5)) == Hits(c, lists, 5)) by {
      if AllDistinct(lists) {
        forall c ensures Count(c, Pool(lists, 1)) == Hits(c, lists, 1)
          && Count(c, Pool(lists, 3)) == Hits(c, lists, 3) && Count(c, Pool(lists, 5)) == Hits(c, lists, 5)
        {
          PoolCountIsHits(c, lists, 1);
          PoolCountIsHits(c, lists, 3);
          PoolCountIsHits(c, lists, 5);
        }
      }
    }
    seq(|keys|, k requires 0 <= k < |keys| =>
      Standing(keys[k], Count(keys[k], Pool(lists, 1)), Count(keys[k], Pool(lists, 3)), Count(keys[k], Pool(lists, 5))))
  }

  /** `sort_values(by=['Top1', 'Top3', 'Top5'], ascending=False)`: lexicographic, highest first. */
  predicate Ahead(a: Standing, b: Standing) {
    a.top1 > b.top1 || (a.top1 == b.top1 && (a.top3 > b.top3 || (a.top3 == b.top3 && a.top5 >= b.top5)))
  }

  lemma AheadPreorder()
    ensures TotalPreorder(Ahead)
  {
  }

  /** The leaderboard of four shop columns that all exist. */
  function Board(lists: seq<seq<Cell>>): (r: seq<Standing>)
    ensures Sorted(r, Ahead)
    ensures multiset(r) == multiset(Standings(Keys(lists), lists))
  {
    AheadPreorder();
    SortBy(Standings(Keys(lists), lists), Ahead)
  }

  /**
   * `build_leaderboard(revenue, baytime, cpd, growth)`: fails with the
   * `KeyError` of `count_top` when any of the four is the empty frame.
   */
  function BuildLeaderboard(revenue: Ranking, baytime: Ranking, cpd: Ranking, growth: Growth): (r: Result<seq<Standing>, Failure>)
    ensures r.Err? <==> revenue.Unavailable? || baytime.Unavailable? || cpd.Unavailable? || growth.NoGrowth?
    ensures r.Err? ==> r.error == MissingColumn(ShopColumn)
    ensures r.Ok? ==> r.value == Board([RankingShops(revenue).value, RankingShops(baytime).value,
                                        RankingShops(cpd).value, GrowthShops(growth).value])
  {
    var a, b, c, d := RankingShops(revenue), RankingShops(baytime), RankingShops(cpd), GrowthShops(growth);
    if a.None? || b.None? || c.None? || d.None? then Err(MissingColumn(ShopColumn))
    else Ok(Board([a.value, b.value, c.value, d.value]))
  }

  /**
   * The pools the leaderboard sums are the `count_top` results of the four
   * metrics, concatenated in order, and the leaderboard fails exactly when
   * one of those `count_top` calls fails.
   */
  lemma PoolsAreCountTops(revenue: Ranking, baytime: Ranking, cpd: Ranking, growth: Growth, n: nat)
    ensures var tops := [CountTop(RankingShops(revenue), n), CountTop(RankingShops(baytime), n),
                         CountTop(RankingShops(cpd), n), CountTop(GrowthShops(growth), n)];
      && (BuildLeaderboard(revenue, baytime, cpd, growth).Err? <==> tops[0].Err? || tops[1].Err? || tops[2].Err? || tops[3].Err?)
      && (BuildLeaderboard(revenue, baytime, cpd, growth).Ok? ==>
            Pool([RankingShops(revenue).value, RankingShops(baytime).value, RankingShops(cpd).value, GrowthShops(growth).value], n)
            == tops[0].value + tops[1].value + tops[2].value + tops[3].value)
  {
    var a, b, c, d := RankingShops(revenue), RankingShops(baytime), RankingShops(cpd), GrowthShops(growth);
    if a.Some? && b.Some? && c.Some? && d.Some? {
      PoolOfFour(a.value, b.value, c.value, d.value, n);
    }
  }

  lemma PoolOfFour(a: seq<Cell>, b: seq<Cell>, c: seq<Cell>, d: seq<Cell>, n: nat)
    ensures Pool([a, b, c, d], n) == Head(a, n) + Head(b, n) + Head(c, n) + Head(d, n)
  {
    assert Pool([d], n) == Head(d, n) by { assert [d][1..] == []; }
    assert Pool([c, d], n) == Head(c, n) + Head(d, n) by { assert [c, d][1..] == [d]; }
    assert Pool([b, c, d], n) == Head(b, n) + (Head(c, n) + Head(d, n)) by { assert [b, c, d][1..] == [c, d]; }
    assert [a, b, c, d][1..] == [b, c, d];
  }

  // ---- Tier counts ----

  /** The number of lists whose first `n` shops contain `c`: the meaning of a tier count. */
  function Hits(c: Cell, lists: seq<seq<Cell>>, n: nat): (h: nat)
    ensures h <= |lists|
  {
    if lists == [] then 0 else (if c in Head(lists[0], n) then 1 else 0) + Hits(c, lists[1..], n)
  }

  /** No window holds the shop exactly when it has no hit, and every window exactly when all are hits. */
  lemma {:induction false} HitsExtremes(c: Cell, lists: seq<seq<Cell>>, n: nat)
    ensures Hits(c, lists, n) == 0 <==> forall k :: 0 <= k < |lists| ==> c !in Head(lists[k], n)
    ensures Hits(c, lists, n) == |lists| <==> forall k :: 0 <= k < |lists| ==> c in Head(lists[k], n)
  {
    if lists != [] {
      HitsExtremes(c, lists[1..], n);
      assert forall k :: 1 <= k < |lists| ==> lists[1..][k - 1] == lists[k];
    }
  }

  predicate AllDistinct(lists: seq<seq<Cell>>) {
    forall k :: 0 <= k < |lists| ==> Distinct(lists[k])
  }

  /** A list without repeats counts a shop once at most in any window. */
  lemma TakeCount(c: Cell, s: seq<Cell>, n: nat)
    requires Distinct(s)
    ensures Count(c, Head(s, n)) == if c in Head(s, n) then 1 else 0
  {
    CountDistinct(c, Head(s, n));
  }

  /** When no ranking repeats a shop, the tier count is the number of rankings whose window holds the shop. */
  lemma {:induction false} PoolCountIsHits(c: Cell, lists: seq<seq<Cell>>, n: nat)
    requires AllDistinct(lists)
    ensures Count(c, Pool(lists, n)) == Hits(c, lists, n)
  {
    if lists != [] {
      CountAppend(c, Head(lists[0], n), Pool(lists[1..], n));
      TakeCount(c, lists[0], n);
      PoolCountIsHits(c, lists[1..], n);
    }
  }

  /** A wider window never counts fewer appearances. */
  lemma {:induction false} PoolCountMonotone(c: Cell, lists: seq<seq<Cell>>, n: nat, m: nat)
    requires n <= m
    ensures Count(c, Pool(lists, n)) <= Count(c, Pool(lists, m))
  {
    if lists != [] {
      var s := lists[0];
      CountAppend(c, Head(s, n), Pool(lists[1..], n));
      CountAppend(c, Head(s, m), Pool(lists[1..], m));
      assert Head(s, n) == Head(s, m)[..|Head(s, n)|];
      CountPrefix(c, Head(s, m), |Head(s, n)|);
      PoolCountMonotone(c, lists[1..], n, m);
    }
  }

  /** Every leaderboard row has `Top1 <= Top3 <= Top5`, and none exceeds the number of rankings when no ranking repeats a shop. */
  lemma TierBounds(lists: seq<seq<Cell>>, k: nat)
    requires k < |Board(lists)|
    ensures var s := Board(lists)[k];
      && s.top1 <= s.top3 <= s.top5
      && (AllDistinct(lists) ==> s.top5 <= |lists|)
      && (AllDistinct(lists) ==> s.top1 == Hits(s.shop, lists, 1) && s.top3 == Hits(s.shop, lists, 3) && s.top5 == Hits(s.shop, lists, 5))
  {
    var s := Board(lists)[k];
    var st := Standings(Keys(lists), lists);
    assert s in multiset(st) by { assert s in multiset(Board(lists)); }
    var i :| 0 <= i < |st| && st[i] == s;
    PoolCountMonotone(s.shop, lists, 1, 3);
    PoolCountMonotone(s.shop, lists, 3, 5);
    if AllDistinct(lists) {
      PoolCountIsHits(s.shop, lists, 1);
      PoolCountIsHits(s.shop, lists, 3);
      PoolCountIsHits(s.shop, lists, 5);
    }
  }

  // ---- Rows and order ----

  function BoardShops(r: seq<Standing>): (s: seq<Cell>)
    ensures |s| == |r|
    ensures forall k :: 0 <= k < |r| ==> s[k] == r[k].shop
  {
    seq(|r|, k requires 0 <= k < |r| => r[k].shop)
  }

  /** A shop is in the first five rows of some list exactly when it is in the top-five pool. */
  lemma {:induction false} InPool(c: Cell, lists: seq<seq<Cell>>, n: nat)
    ensures c in Pool(lists, n) <==> exists k :: 0 <= k < |lists| && c in Head(lists[k], n)
  {
    if lists != [] {
      InPool(c, lists[1..], n);
      if c in Pool(lists[1..], n) {
        var k :| 0 <= k < |lists[1..]| && c in Head(lists[1..][k], n);
        assert c in Head(lists[k + 1], n);
      }
      if exists k :: 0 <= k < |lists| && c in Head(lists[k], n) {
        var k :| 0 <= k < |lists| && c in Head(lists[k], n);
        if k > 0 {
          assert c in Head(lists[1..][k - 1], n);
        }
      }
    }
  }

  lemma StandingsShops(keys: seq<Cell>, lists: seq<seq<Cell>>)
    ensures BoardShops(Standings(keys, lists)) == keys
  {
  }

  /**
   * The leaderboard has one row per non-missing shop found in the first five
   * rows of some ranking, and no other row; they come sorted by the tiers.
   */
  lemma {:induction false} BoardRows(lists: seq<seq<Cell>>)
    ensures forall c :: c in BoardShops(Board(lists)) <==> c != Missing && exists k :: 0 <= k < |lists| && c in Head(lists[k], 5)
    ensures Distinct(BoardShops(Board(lists)))
    ensures forall i, j :: 0 <= i < j < |Board(lists)| ==> Ahead(Board(lists)[i], Board(lists)[j])
  {
    forall c ensures c in BoardShops(Board(lists)) <==> c in Keys(lists) {
      BoardMember(lists, c);
    }
    forall c ensures c in Pool(lists, 5) <==> exists k :: 0 <= k < |lists| && c in Head(lists[k], 5) {
      InPool(c, lists, 5);
    }
    BoardDistinct(lists);
  }

  lemma BoardMember(lists: seq<seq<Cell>>, c: Cell)
    ensures c in BoardShops(Board(lists)) <==> c in Keys(lists)
  {
    StandingsShops(Keys(lists), lists);
    PermutedShops(Board(lists), Standings(Keys(lists), lists));
  }

  /** Reordering the rows keeps the set of shops. */
  lemma PermutedShops(a: seq<Standing>, b: seq<Standing>)
    requires multiset(a) == multiset(b)
    ensures forall c :: c in BoardShops(a) <==> c in BoardShops(b)
  {
    PermutationMembers(a, b);
    forall c | c in BoardShops(a) ensures c in BoardShops(b) {
      var k :| 0 <= k < |a| && BoardShops(a)[k] == c;
      assert a[k] in b;
      var m :| 0 <= m < |b| && b[m] == a[k];
      assert BoardShops(b)[m] == c;
    }
    forall c | c in BoardShops(b) ensures c in BoardShops(a) {
      var k :| 0 <= k < |b| && BoardShops(b)[k] == c;
      assert b[k] in a;
      var m :| 0 <= m < |a| && a[m] == b[k];
      assert BoardShops(a)[m] == c;
    }
  }

  lemma BoardDistinct(lists: seq<seq<Cell>>)
    ensures Distinct(BoardShops(Board(lists)))
  {
    var st := Standings(Keys(lists), lists);
    StandingsShops(Keys(lists), lists);
    PermutedDistinctShops(st, Board(lists));
  }

  /** Reordering rows whose shops do not repeat gives rows whose shops do not repeat. */
  lemma PermutedDistinctShops(a: seq<Standing>, b: seq<Standing>)
    requires multiset(a) == multiset(b) && Distinct(BoardShops(a))
    ensures Distinct(BoardShops(b))
  {
    assert Distinct(a) by {
      forall i, j | 0 <= i < j < |a| ensures a[i] != a[j] {
        assert BoardShops(a)[i] != BoardShops(a)[j];
      }
    }
    PermutationDistinct(a, b);
    PermutationMembers(a, b);
    forall i, j | 0 <= i < j < |b| ensures BoardShops(b)[i] != BoardShops(b)[j] {
      assert b[i] in a && b[j] in a;
      var p :| 0 <= p < |a| && a[p] == b[i];
      var q :| 0 <= q < |a| && a[q] == b[j];
      assert b[i] != b[j];
      assert p != q;
      ShopsApart(a, p, q);
    }
  }

  lemma ShopsApart(a: seq<Standing>, p: nat, q: nat)
    requires Distinct(BoardShops(a)) && p < |a| && q < |a| && p != q
    ensures a[p].shop != a[q].shop
  {
    if p < q {
      assert BoardShops(a)[p] != BoardShops(a)[q];
    } else {
      assert BoardShops(a)[q] != BoardShops(a)[p];
    }
  }

  // ---- The sum of the first tier ----

  function SumTop1(r: seq<Standing>): nat {
    if r == [] then 0 else SumTop1(r[..|r| - 1]) + r[|r| - 1].top1
  }

  /** The sum over `keys` of the appearances of each in `pool`. */
  function SumCounts(keys: seq<Cell>, pool: seq<Cell>): nat {
    if keys == [] then 0 else SumCounts(keys[..|keys| - 1], pool) + Count(keys[|keys| - 1], pool)
  }

  lemma {:induction false} SumTop1Standings(keys: seq<Cell>, lists: seq<seq<Cell>>)
    ensures SumTop1(Standings(keys, lists)) == SumCounts(keys, Pool(lists, 1))
    decreases |keys|
  {
    if keys != [] {
      var st := Standings(keys, lists);
      var init := keys[..|keys| - 1];
      assert st[..|st| - 1] == Standings(init, lists);
      SumTop1Standings(init, lists);
    }
  }

  lemma {:induction false} SumCountsSnoc(keys: seq<Cell>, pool: seq<Cell>, x: Cell)
    ensures SumCounts(keys, pool + [x]) == SumCounts(keys, pool) + Count(x, keys)
    decreases |keys|
  {
    if keys != [] {
      var init := keys[..|keys| - 1];
      SumCountsSnoc(init, pool, x);
      assert (pool + [x])[..|pool + [x]| - 1] == pool;
    }
  }

  /** Counting every pooled shop under distinct keys that cover the pool counts the whole pool. */
  lemma {:induction false} SumCountsCover(keys: seq<Cell>, pool: seq<Cell>)
    requires Distinct(keys)
    requires forall c :: c in pool ==> c in keys
    ensures SumCounts(keys, pool) == |pool|
    decreases |pool|
  {
    if pool == [] {
      SumCountsEmpty(keys);
    } else {
      var init, x := pool[..|pool| - 1], pool[|pool| - 1];
      assert pool == init + [x];
      SumCountsCover(keys, init);
      SumCountsSnoc(keys, init, x);
      CountDistinct(x, keys);
    }
  }

  lemma {:induction false} SumCountsEmpty(keys: seq<Cell>)
    ensures SumCounts(keys, []) == 0
    decreases |keys|
  {
    if keys != [] {
      SumCountsEmpty(keys[..|keys| - 1]);
    }
  }

  lemma {:induction false} SumTop1Append(a: seq<Standing>, b: seq<Standing>)
    ensures SumTop1(a + b) == SumTop1(a) + SumTop1(b)
    decreases |b|
  {
    if b == [] {
      assert a + b == a;
    } else {
      assert (a + b)[..|a + b| - 1] == a + b[..|b| - 1];
      SumTop1Append(a, b[..|b| - 1]);
    }
  }

  /** Taking one row out of the sum. */
  lemma SumTop1Remove(b: seq<Standing>, i: nat)
    requires i < |b|
    ensures SumTop1(b) == SumTop1(b[..i] + b[i + 1..]) + b[i].top1
  {
    var x := b[i];
    assert b == b[..i] + [x] + b[i + 1..];
    SumTop1Append(b[..i] + [x], b[i + 1..]);
    SumTop1Append(b[..i], [x]);
    SumTop1Append(b[..i], b[i + 1..]);
    assert SumTop1([x]) == x.top1 by { assert [x][..0] == []; }
  }

  /** The sum does not depend on the order of the rows. */
  lemma {:induction false} SumTop1Permutation(a: seq<Standing>, b: seq<Standing>)
    requires multiset(a) == multiset(b)
    ensures SumTop1(a) == SumTop1(b)
    decreases |a|
  {
    if a != [] {
      var x := a[|a| - 1];
      var init := a[..|a| - 1];
      assert a == init + [x];
      assert multiset(init) == multiset(a) - multiset{x};
      assert x in multiset(b);
      var i :| 0 <= i < |b| && b[i] == x;
      var rest := b[..i] + b[i + 1..];
      MultisetRemove(b, i);
      SumTop1Permutation(init, rest);
      SumTop1Remove(b, i);
    }
  }

  /** The number of lists with at least one shop. */
  function NonEmpty(lists: seq<seq<Cell>>): (n: nat)
    ensures n <= |lists|
  {
    if lists == [] then 0 else (if lists[0] != [] then 1 else 0) + NonEmpty(lists[1..])
  }

  lemma {:induction false} PoolOneSize(lists: seq<seq<Cell>>)
    ensures |Pool(lists, 1)| == NonEmpty(lists)
  {
    if lists != [] {
      PoolOneSize(lists[1..]);
    }
  }

  /** When no ranking lists a missing shop, the `Top1` column adds up to the number of non-empty rankings. */
  lemma SumTop1NonEmpty(lists: seq<seq<Cell>>)
    requires forall k :: 0 <= k < |lists| ==> Missing !in lists[k]
    ensures SumTop1(Board(lists)) == NonEmpty(lists)
  {
    var keys := Keys(lists);
    SumTop1Permutation(Board(lists), Standings(keys, lists));
    SumTop1Standings(keys, lists);
    PoolOneCovered(lists);
    SumCountsCover(keys, Pool(lists, 1));
    PoolOneSize(lists);
  }

  /** Every shop of the first tier is a leaderboard key. */
  lemma PoolOneCovered(lists: seq<seq<Cell>>)
    requires forall k :: 0 <= k < |lists| ==> Missing !in lists[k]
    ensures forall c :: c in Pool(lists, 1) ==> c in Keys(lists)
  {
    forall c | c in Pool(lists, 1) ensures c in Keys(lists) {
      InPool(c, lists, 1);
      InPool(c, lists, 5);
      var k :| 0 <= k < |lists| && c in Head(lists[k], 1);
      assert c in lists[k];
      assert c in Head(lists[k], 5) by { assert Head(lists[k], 1) <= Head(lists[k], 5); }
    }
  }

  // ---- Rankings as produced by the aggregators ----

  /** An available ranking lists every shop once and lists no missing shop. */
  lemma RankingShopsClean(t: Table, field: string, order: Order, guarded: bool)
    requires Aggregate(t, field, order, guarded).Ok? && Aggregate(t, field, order, guarded).value.Ranked?
    ensures var s := RankingShops(Aggregate(t, field, order, guarded).value).value;
      Distinct(s) && Missing !in s
  {
    RankedEntries(t, field, order, guarded);
  }

  /** The growth labels list the shops of the underlying ranking, in its order. */
  lemma GrowthShopsClean(t: Table)
    requires AnalyzeGrowth(t).Ok? && AnalyzeGrowth(t).value.Labelled?
    ensures GrowthShops(AnalyzeGrowth(t).value).value
         == RankingShops(Aggregate(t, Cleaning.NetSalesYoy, Descending, true).value).value
  {
  }

  // ---- A worked example ----

  /** A shop that is first in four one-shop rankings is the only row, with counts (4, 4, 4). */
  lemma SoleLeader(x: Cell)
    requires x != Missing
    ensures Board([[x], [x], [x], [x]]) == [Standing(x, 4, 4, 4)]
  {
    var lists := [[x], [x], [x], [x]];
    assert Pool(lists, 1) == [x, x, x, x] by { PoolFour(x, 1); }
    assert Pool(lists, 3) == [x, x, x, x] by { PoolFour(x, 3); }
    assert Pool(lists, 5) == [x, x, x, x] by { PoolFour(x, 5); }
    CountFour(x);
    NonMissingFour(x);
    DedupFour(x);
    var st := Standings([x], lists);
    assert st == [Standing(x, 4, 4, 4)];
    AheadPreorder();
    assert SortBy(st, Ahead) == st by { assert st[1..] == []; }
  }

  lemma PoolFour(x: Cell, n: nat)
    requires n >= 1
    ensures Pool([[x], [x], [x], [x]], n) == [x, x, x, x]
  {
    var lists := [[x], [x], [x], [x]];
    assert lists[1..] == [[x], [x], [x]] && lists[1..][1..] == [[x], [x]] && lists[1..][1..][1..] == [[x]];
    assert lists[1..][1..][1..][1..] == [];
    assert Head([x], n) == [x];
    assert Pool([[x]], n) == [x];
    assert Pool([[x], [x]], n) == [x, x];
    assert Pool([[x], [x], [x]], n) == [x, x, x];
  }

  lemma CountFour(x: Cell)
    ensures Count(x, [x, x, x, x]) == 4
  {
    var s := [x, x, x, x];
    assert s[..3] == [x, x, x] && s[..3][..2] == [x, x] && s[..3][..2][..1] == [x] && s[..3][..2][..1][..0] == [];
    assert Count(x, [x]) == 1;
    assert Count(x, [x, x]) == 2;
    assert Count(x, [x, x, x]) == 3;
  }

  lemma DedupFour(x: Cell)
    ensures Dedup([x, x, x, x]) == [x]
  {
    var s := [x, x, x, x];
    assert s[..3] == [x, x, x] && s[..3][..2] == [x, x] && s[..3][..2][..1] == [x] && s[..3][..2][..1][..0] == [];
    assert Dedup([x]) == [x];
    assert Dedup([x, x]) == [x];
    assert Dedup([x, x, x]) == [x];
  }

  lemma NonMissingFour(x: Cell)
    requires x != Missing
    ensures NonMissing([x, x, x, x]) == [x, x, x, x]
  {
    var s := [x, x, x, x];
    assert s[1..] == [x, x, x] && s[1..][1..] == [x, x] && s[1..][1..][1..] == [x] && s[1..][1..][1..][1..] == [];
    assert NonMissing([x]) == [x];
    assert NonMissing([x, x]) == [x, x];
    assert NonMissing([x, x, x]) == [x, x, x];
  }
}
