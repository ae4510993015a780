/**
 * The search pipeline. It enumerates the odd lengths and odd widths of two ranges, takes
 * their Cartesian product row by row (length outer, width inner), evaluates every pair and
 * collects the records of the pairs that pass, in that order.
 */
module Engine {
  import opened Wrappers
  import opened OddNumbers
  import opened Attributes
  import opened Conditions

  /**
   * A kept pair: its length `x`, its width `y` (both in inches) and the eight attributes
   * the source copies into its result object (`thithiya`, `wanshaya` and `dewatha` are not).
   */
  datatype Record = Record(
    x: int, y: int,
    aya: int, weya: int, yoni: int, nekatha: int,
    dawasa: int, ayusha: int, anshaka: int, rashiya: int)

  /**
   * The source's result object for a pair: the pair itself and the eight displayed
   * attributes of its product, copied unchanged.
   */
  function MakeRecord(x: int, y: int): (r: Record)
    ensures r.x == x && r.y == y
    ensures CarriesAttributes(r, ComputeMods(x * y))
  {
    var mods := ComputeMods(x * y);
    Record(x, y, mods.aya, mods.weya, mods.yoni, mods.nekatha,
           mods.dawasa, mods.ayusha, mods.anshaka, mods.rashiya)
  }

  /** The record carries, unchanged, the eight displayed attributes of `mods`. */
  predicate CarriesAttributes(r: Record, mods: Mods)
  {
    r.aya == mods.aya && r.weya == mods.weya && r.yoni == mods.yoni &&
    r.nekatha == mods.nekatha && r.dawasa == mods.dawasa && r.ayusha == mods.ayusha &&
    r.anshaka == mods.anshaka && r.rashiya == mods.rashiya
  }

  /**
   * The source's `mul`: a record for the pair when it passes the selected rules, and
   * nothing (`null` in the source) when it does not.
   */
  function Mul(x: int, y: int, selection: seq<bool>): (r: Option<Record>)
    ensures r.Some? <==> Passes(ComputeMods(x * y), selection)
    ensures r.Some? ==> r.value.x == x && r.value.y == y
    ensures r.Some? ==> CarriesAttributes(r.value, ComputeMods(x * y))
  {
    var mods := ComputeMods(x * y);
    if Passes(mods, selection)
    then Some(MakeRecord(x, y))
    else None
  }

  /** The pairs of one row: length `x` with every width of `ys`, in order. */
  function Row(x: int, ys: seq<int>): seq<(int, int)>
  {
    seq(|ys|, j requires 0 <= j < |ys| => (x, ys[j]))
  }

  /** A row over one more width is the shorter row followed by one pair. */
  lemma RowSnoc(x: int, ys: seq<int>, j: int)
    requires 0 <= j < |ys|
    ensures Row(x, ys[..j + 1]) == Row(x, ys[..j]) + [(x, ys[j])]
  {
    var a, b := Row(x, ys[..j + 1]), Row(x, ys[..j]) + [(x, ys[j])];
    assert |a| == |b|;
    forall k | 0 <= k < |a| ensures a[k] == b[k] {
    }
  }

  /** The Cartesian product in row-major order: length outer, width inner. */
  function Pairs(xs: seq<int>, ys: seq<int>): seq<(int, int)>
  {
    if xs == [] then [] else Pairs(xs[..|xs| - 1], ys) + Row(xs[|xs| - 1], ys)
  }

  /** Taking one more length appends its row. */
  lemma PairsSnoc(xs: seq<int>, i: int, ys: seq<int>)
    requires 0 <= i < |xs|
    ensures Pairs(xs[..i + 1], ys) == Pairs(xs[..i], ys) + Row(xs[i], ys)
  {
    assert xs[..i + 1][..i] == xs[..i];
  }

  /** What one pair contributes to the results: its record if it passes, else nothing. */
  function Contribution(p: (int, int), selection: seq<bool>): seq<Record>
  {
    match Mul(p.0, p.1, selection)
    case Some(r) => [r]
    case None => []
  }

  /** The records of the pairs that pass, in the order of the pairs. */
  function Survivors(pairs: seq<(int, int)>, selection: seq<bool>): seq<Record>
  {
    if pairs == [] then []
    else Survivors(pairs[..|pairs| - 1], selection) + Contribution(pairs[|pairs| - 1], selection)
  }

  /** Considering one more pair appends its contribution. */
  lemma SurvivorsSnoc(pairs: seq<(int, int)>, p: (int, int), selection: seq<bool>)
    ensures Survivors(pairs + [p], selection) == Survivors(pairs, selection) + Contribution(p, selection)
  {
    assert (pairs + [p])[..|pairs|] == pairs;
  }

  /** Extending the current row by one width appends that pair's contribution. */
  lemma SurvivorsRowStep(done: seq<(int, int)>, x: int, ys: seq<int>, j: int, selection: seq<bool>)
    requires 0 <= j < |ys|
    ensures Survivors(done + Row(x, ys[..j + 1]), selection) ==
      Survivors(done + Row(x, ys[..j]), selection) + Contribution((x, ys[j]), selection)
  {
    RowSnoc(x, ys, j);
    assert done + Row(x, ys[..j + 1]) == (done + Row(x, ys[..j])) + [(x, ys[j])];
    SurvivorsSnoc(done + Row(x, ys[..j]), (x, ys[j]), selection);
  }

  /** Specification of the search: the survivors among all odd pairs of the two ranges. */
  function Results(startX: int, endX: int, startY: int, endY: int, selection: seq<bool>): seq<Record>
  {
    Survivors(Pairs(OddRange(startX, endX), OddRange(startY, endY)), selection)
  }

  /**
   * The body of the source's effect: enumerate both ranges, then push the record of each
   * passing pair, length outer and width inner.
   */
  method ComputeResults(startX: int, endX: int, startY: int, endY: int, selection: seq<bool>)
    returns (results: seq<Record>)
    ensures results == Results(startX, endX, startY, endY, selection)
  {
    results := [];
    var xOdds := GenerateOddNumbers(startX, endX);
    var yOdds := GenerateOddNumbers(startY, endY);
    var i := 0;
    while i < |xOdds|
      invariant 0 <= i <= |xOdds|
      invariant results == Survivors(Pairs(xOdds[..i], yOdds), selection)
    {
      var x := xOdds[i];
      var j := 0;
      assert Pairs(xOdds[..i], yOdds) + Row(x, yOdds[..0]) == Pairs(xOdds[..i], yOdds);
      while j < |yOdds|
        invariant 0 <= j <= |yOdds|
        invariant results == Survivors(Pairs(xOdds[..i], yOdds) + Row(x, yOdds[..j]), selection)
      {
        var y := yOdds[j];
        var result := Mul(x, y, selection);
        SurvivorsRowStep(Pairs(xOdds[..i], yOdds), x, yOdds, j, selection);
        if result.Some? {
          results := results + [result.value];
        }
        j := j + 1;
      }
      assert yOdds[..|yOdds|] == yOdds;
      PairsSnoc(xOdds, i, yOdds);
      i := i + 1;
    }
    assert xOdds[..|xOdds|] == xOdds;
  }

  // ---------------------------------------------------------------------------------------
  // The Cartesian product

  /** The product has one pair per (length, width) combination. */
  lemma {:induction false} PairsLength(xs: seq<int>, ys: seq<int>)
    ensures |Pairs(xs, ys)| == |xs| * |ys|
  {
    if xs != [] {
      PairsLength(xs[..|xs| - 1], ys);
      assert (|xs| - 1) * |ys| + |ys| == |xs| * |ys|;
    }
  }

  /** A pair is in the product iff its length is in `xs` and its width in `ys`. */
  lemma {:induction false} PairsMembership(xs: seq<int>, ys: seq<int>, p: (int, int))
    ensures p in Pairs(xs, ys) <==> p.0 in xs && p.1 in ys
  {
    if xs != [] {
      var init, last := xs[..|xs| - 1], xs[|xs| - 1];
      PairsMembership(init, ys, p);
      assert xs == init + [last];
      if p.0 == last && p.1 in ys {
        var j :| 0 <= j < |ys| && ys[j] == p.1;
        assert Row(last, ys)[j] == p;
      }
    }
  }

  /** Every value of `xs` is smaller than the next ones. */
  predicate Ascending(xs: seq<int>)
  {
    forall i, j :: 0 <= i < j < |xs| ==> xs[i] < xs[j]
  }

  /** `a` comes before `b` in row-major order. */
  predicate RowMajorBefore(a: (int, int), b: (int, int))
  {
    a.0 < b.0 || (a.0 == b.0 && a.1 < b.1)
  }

  /** Every pair comes strictly before the pairs that follow it. */
  predicate RowMajorSorted(ps: seq<(int, int)>)
  {
    forall i, j :: 0 <= i < j < |ps| ==> RowMajorBefore(ps[i], ps[j])
  }

  /** With ascending lengths and widths the product is strictly sorted in row-major order. */
  lemma {:induction false} PairsSorted(xs: seq<int>, ys: seq<int>)
    requires Ascending(xs) && Ascending(ys)
    ensures RowMajorSorted(Pairs(xs, ys))
  {
    if xs != [] {
      var init, last := xs[..|xs| - 1], xs[|xs| - 1];
      PairsSorted(init, ys);
      var a, b := Pairs(init, ys), Row(last, ys);
      forall i, j | 0 <= i < j < |a + b| ensures RowMajorBefore((a + b)[i], (a + b)[j]) {
        if j >= |a| && i < |a| {
          PairsMembership(init, ys, a[i]);
          var k :| 0 <= k < |init| && init[k] == a[i].0;
          assert xs[k] == a[i].0;
        }
      }
    }
  }

  // ---------------------------------------------------------------------------------------
  // The filter

  /** Filtering never adds a record. */
  lemma {:induction false} SurvivorsLength(pairs: seq<(int, int)>, selection: seq<bool>)
    ensures |Survivors(pairs, selection)| <= |pairs|
  {
    if pairs != [] {
      SurvivorsLength(pairs[..|pairs| - 1], selection);
    }
  }

  /**
   * A record is among the survivors iff its pair is one of the pairs and the evaluator
   * returns exactly that record for it.
   */
  lemma {:induction false} SurvivorsMembership(pairs: seq<(int, int)>, selection: seq<bool>, r: Record)
    ensures r in Survivors(pairs, selection) <==>
      (r.x, r.y) in pairs && Mul(r.x, r.y, selection) == Some(r)
  {
    if pairs != [] {
      var init, last := pairs[..|pairs| - 1], pairs[|pairs| - 1];
      SurvivorsMembership(init, selection, r);
      ContributionMembership(last, selection, r);
      assert r in Survivors(pairs, selection) <==>
        r in Survivors(init, selection) || r in Contribution(last, selection);
      InInitOrLast(pairs, (r.x, r.y));
    }
  }

  /** A value of a non-empty sequence is in all but its last element, or is the last. */
  lemma InInitOrLast<T>(s: seq<T>, v: T)
    requires s != []
    ensures v in s <==> v in s[..|s| - 1] || v == s[|s| - 1]
  {
    assert s == s[..|s| - 1] + [s[|s| - 1]];
  }

  /** A pair contributes a record iff it is the pair's and the evaluator returns it. */
  lemma ContributionMembership(p: (int, int), selection: seq<bool>, r: Record)
    ensures r in Contribution(p, selection) <==>
      (r.x, r.y) == p && Mul(p.0, p.1, selection) == Some(r)
  {
  }

  /** With nothing selected, every pair is kept, in order. */
  lemma {:induction false} SurvivorsKeepAll(pairs: seq<(int, int)>, selection: seq<bool>)
    requires forall k :: 0 <= k < |selection| ==> !selection[k]
    ensures |Survivors(pairs, selection)| == |pairs|
    ensures forall k :: 0 <= k < |pairs| ==>
      Survivors(pairs, selection)[k] == MakeRecord(pairs[k].0, pairs[k].1)
  {
    if pairs != [] {
      var init, last := pairs[..|pairs| - 1], pairs[|pairs| - 1];
      SurvivorsKeepAll(init, selection);
      NothingSelectedPasses(ComputeMods(last.0 * last.1), selection);
      var s := Survivors(init, selection);
      assert Contribution(last, selection) == [MakeRecord(last.0, last.1)];
      assert Survivors(pairs, selection) == s + [MakeRecord(last.0, last.1)];
      forall k | 0 <= k < |pairs|
        ensures Survivors(pairs, selection)[k] == MakeRecord(pairs[k].0, pairs[k].1)
      {
        if k < |init| {
          assert pairs[k] == init[k];
        }
      }
    }
  }

  /** The (length, width) keys of a sequence of records. */
  function Keys(rs: seq<Record>): seq<(int, int)>
  {
    seq(|rs|, k requires 0 <= k < |rs| => (rs[k].x, rs[k].y))
  }

  /** The keys of one more record are the keys before, followed by its key. */
  lemma KeysSnoc(rs: seq<Record>, r: Record)
    ensures Keys(rs + [r]) == Keys(rs) + [(r.x, r.y)]
  {
    var a, b := Keys(rs + [r]), Keys(rs) + [(r.x, r.y)];
    assert |a| == |b|;
    forall k | 0 <= k < |a| ensures a[k] == b[k] {
    }
  }

  /** A sorted sequence followed by a pair that comes after all of it is sorted. */
  lemma SortedSnoc(ps: seq<(int, int)>, p: (int, int))
    requires RowMajorSorted(ps)
    requires forall i :: 0 <= i < |ps| ==> RowMajorBefore(ps[i], p)
    ensures RowMajorSorted(ps + [p])
  {
  }

  /** Filtering keeps the row-major order of the pairs. */
  lemma {:induction false} SurvivorsSorted(pairs: seq<(int, int)>, selection: seq<bool>)
    requires RowMajorSorted(pairs)
    ensures RowMajorSorted(Keys(Survivors(pairs, selection)))
  {
    if pairs != [] {
      var init, last := pairs[..|pairs| - 1], pairs[|pairs| - 1];
      SurvivorsSorted(init, selection);
      var s, c := Survivors(init, selection), Contribution(last, selection);
      if c == [] {
        assert Survivors(pairs, selection) == s;
      } else {
        var ks, key := Keys(s), (last.0, last.1);
        forall i | 0 <= i < |s| ensures RowMajorBefore(ks[i], key) {
          SurvivorsMembership(init, selection, s[i]);
          var k :| 0 <= k < |init| && init[k] == (s[i].x, s[i].y);
          assert pairs[k] == init[k];
        }
        KeysSnoc(s, c[0]);
        assert Keys(Survivors(pairs, selection)) == ks + [key];
        SortedSnoc(ks, key);
      }
    }
  }

  /** Two selections that decide every pair alike keep the same records, in the same order. */
  lemma {:induction false} SurvivorsSameDecisions(pairs: seq<(int, int)>, a: seq<bool>, b: seq<bool>)
    requires forall i :: 0 <= i < |pairs| ==>
      (Passes(ComputeMods(pairs[i].0 * pairs[i].1), a) <==> Passes(ComputeMods(pairs[i].0 * pairs[i].1), b))
    ensures Survivors(pairs, a) == Survivors(pairs, b)
  {
    if pairs != [] {
      var init, last := pairs[..|pairs| - 1], pairs[|pairs| - 1];
      forall i | 0 <= i < |init|
        ensures Passes(ComputeMods(init[i].0 * init[i].1), a) <==> Passes(ComputeMods(init[i].0 * init[i].1), b)
      {
        assert init[i] == pairs[i];
      }
      SurvivorsSameDecisions(init, a, b);
      assert Mul(last.0, last.1, a) == Mul(last.0, last.1, b);
    }
  }

  /** The records that pass the rules of `selection`, in order. */
  function Refine(rs: seq<Record>, selection: seq<bool>): seq<Record>
  {
    if rs == [] then []
    else
      var last := rs[|rs| - 1];
      Refine(rs[..|rs| - 1], selection) +
        (if Passes(ComputeMods(last.x * last.y), selection) then [last] else [])
  }

  /** Refining never adds a record. */
  lemma {:induction false} RefineLength(rs: seq<Record>, selection: seq<bool>)
    ensures |Refine(rs, selection)| <= |rs|
  {
    if rs != [] {
      RefineLength(rs[..|rs| - 1], selection);
    }
  }

  /** The records that `Refine` keeps are records of its input. */
  lemma {:induction false} RefineSubset(rs: seq<Record>, selection: seq<bool>, r: Record)
    ensures r in Refine(rs, selection) ==> r in rs
  {
    if rs != [] {
      var init := rs[..|rs| - 1];
      RefineSubset(init, selection, r);
      if r in Refine(init, selection) {
        var k :| 0 <= k < |init| && init[k] == r;
        assert rs[k] == r;
      }
    }
  }

  /**
   * Selecting more rules refines the results: the results under `more` are exactly the
   * results under `fewer` that also pass the rules of `more`, in the same order.
   */
  lemma {:induction false} SurvivorsRefine(pairs: seq<(int, int)>, more: seq<bool>, fewer: seq<bool>)
    requires Includes(more, fewer)
    ensures Survivors(pairs, more) == Refine(Survivors(pairs, fewer), more)
  {
    if pairs != [] {
      var init, last := pairs[..|pairs| - 1], pairs[|pairs| - 1];
      SurvivorsRefine(init, more, fewer);
      var s := Survivors(init, fewer);
      var mods := ComputeMods(last.0 * last.1);
      PassesMonotone(mods, more, fewer);
      assert Survivors(pairs, fewer) == s + Contribution(last, fewer);
      assert Survivors(pairs, more) == Refine(s, more) + Contribution(last, more);
      if Passes(mods, fewer) {
        var r := MakeRecord(last.0, last.1);
        assert Contribution(last, fewer) == [r];
        assert Contribution(last, more) == if Passes(mods, more) then [r] else [];
        RefineSnoc(s, r, more);
      } else {
        assert Contribution(last, fewer) == [] && Contribution(last, more) == [];
        assert s + [] == s;
      }
    }
  }

  /** Refining one more record appends it when it passes. */
  lemma RefineSnoc(rs: seq<Record>, r: Record, selection: seq<bool>)
    ensures Refine(rs + [r], selection) ==
      Refine(rs, selection) + (if Passes(ComputeMods(r.x * r.y), selection) then [r] else [])
  {
    assert (rs + [r])[..|rs|] == rs;
  }

  // ---------------------------------------------------------------------------------------
  // The whole search

  /**
   * A record is in the results iff its length is odd and within the length range, its
   * width is odd and within the width range, its pair passes the selected rules, and it
   * carries that pair's eight displayed attributes unchanged.
   */
  lemma ResultsMembership(startX: int, endX: int, startY: int, endY: int, selection: seq<bool>, r: Record)
    ensures r in Results(startX, endX, startY, endY, selection) <==>
      r.x % 2 == 1 && startX <= r.x <= endX &&
      r.y % 2 == 1 && startY <= r.y <= endY &&
      Passes(ComputeMods(r.x * r.y), selection) &&
      CarriesAttributes(r, ComputeMods(r.x * r.y))
  {
    var xs, ys := OddRange(startX, endX), OddRange(startY, endY);
    SurvivorsMembership(Pairs(xs, ys), selection, r);
    PairsMembership(xs, ys, (r.x, r.y));
    OddRangeMembership(startX, endX, r.x);
    OddRangeMembership(startY, endY, r.y);
  }

  /**
   * The results are in row-major order, lengths ascending and, within a length, widths
   * ascending; in particular no pair appears twice.
   */
  lemma ResultsOrdered(startX: int, endX: int, startY: int, endY: int, selection: seq<bool>)
    ensures RowMajorSorted(Keys(Results(startX, endX, startY, endY, selection)))
    ensures forall i, j :: 0 <= i < j < |Results(startX, endX, startY, endY, selection)| ==>
      Results(startX, endX, startY, endY, selection)[i] != Results(startX, endX, startY, endY, selection)[j]
  {
    var xs, ys := OddRange(startX, endX), OddRange(startY, endY);
    OddRangeAscending(startX, endX);
    OddRangeAscending(startY, endY);
    PairsSorted(xs, ys);
    SurvivorsSorted(Pairs(xs, ys), selection);
    var rs := Results(startX, endX, startY, endY, selection);
    forall i, j | 0 <= i < j < |rs| ensures rs[i] != rs[j] {
      assert RowMajorBefore(Keys(rs)[i], Keys(rs)[j]);
    }
  }

  /** There are at most as many results as odd lengths times odd widths. */
  lemma ResultsLength(startX: int, endX: int, startY: int, endY: int, selection: seq<bool>)
    ensures |Results(startX, endX, startY, endY, selection)| <= OddCount(startX, endX) * OddCount(startY, endY)
  {
    var xs, ys := OddRange(startX, endX), OddRange(startY, endY);
    PairsLength(xs, ys);
    SurvivorsLength(Pairs(xs, ys), selection);
  }

  /**
   * With no rule selected, every odd pair of the two ranges is a result, in row-major
   * order: there are exactly as many results as odd lengths times odd widths.
   */
  lemma ResultsNothingSelected(startX: int, endX: int, startY: int, endY: int, selection: seq<bool>)
    requires forall k :: 0 <= k < |selection| ==> !selection[k]
    ensures |Results(startX, endX, startY, endY, selection)| == OddCount(startX, endX) * OddCount(startY, endY)
    ensures |Results(startX, endX, startY, endY, selection)| == |Pairs(OddRange(startX, endX), OddRange(startY, endY))|
    ensures forall k :: 0 <= k < |Results(startX, endX, startY, endY, selection)| ==>
      Results(startX, endX, startY, endY, selection)[k] ==
        MakeRecord(Pairs(OddRange(startX, endX), OddRange(startY, endY))[k].0,
                   Pairs(OddRange(startX, endX), OddRange(startY, endY))[k].1)
  {
    var xs, ys := OddRange(startX, endX), OddRange(startY, endY);
    PairsLength(xs, ys);
    SurvivorsKeepAll(Pairs(xs, ys), selection);
  }

  /**
   * Selecting more rules never adds a result: the results under `more` are the results
   * under `fewer` filtered by the rules of `more`, so they are fewer and all among them.
   */
  lemma ResultsMonotone(startX: int, endX: int, startY: int, endY: int, more: seq<bool>, fewer: seq<bool>)
    requires Includes(more, fewer)
    ensures Results(startX, endX, startY, endY, more) == Refine(Results(startX, endX, startY, endY, fewer), more)
    ensures |Results(startX, endX, startY, endY, more)| <= |Results(startX, endX, startY, endY, fewer)|
    ensures forall r :: r in Results(startX, endX, startY, endY, more) ==> r in Results(startX, endX, startY, endY, fewer)
  {
    var ps := Pairs(OddRange(startX, endX), OddRange(startY, endY));
    SurvivorsRefine(ps, more, fewer);
    RefineLength(Survivors(ps, fewer), more);
    forall r | r in Results(startX, endX, startY, endY, more)
      ensures r in Results(startX, endX, startY, endY, fewer)
    {
      RefineSubset(Survivors(ps, fewer), more, r);
    }
  }

  /**
   * Over non-negative ranges the `yoni` and `wanshaya` checkboxes change nothing: the
   * results are the same, in the same order, with both of them cleared.
   */
  lemma ResultsIgnoreYoniAndWanshaya(startX: int, endX: int, startY: int, endY: int, selection: seq<bool>)
    requires 0 <= startX && 0 <= startY
    ensures Results(startX, endX, startY, endY, selection) ==
      Results(startX, endX, startY, endY, WithoutYoniAndWanshaya(selection))
  {
    var xs, ys := OddRange(startX, endX), OddRange(startY, endY);
    var ps := Pairs(xs, ys);
    forall i | 0 <= i < |ps|
      ensures Passes(ComputeMods(ps[i].0 * ps[i].1), selection) <==>
        Passes(ComputeMods(ps[i].0 * ps[i].1), WithoutYoniAndWanshaya(selection))
    {
      PairsMembership(xs, ys, ps[i]);
      OddRangeMembership(startX, endX, ps[i].0);
      OddRangeMembership(startY, endY, ps[i].1);
      YoniAndWanshayaHaveNoEffect(ps[i].0, ps[i].1, selection);
    }
    SurvivorsSameDecisions(ps, selection, WithoutYoniAndWanshaya(selection));
  }
}
