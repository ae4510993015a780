/**
 * The inclusion-rule catalog and its evaluator. Each rule tests one attribute: a strict
 * inequality, membership in a fixed list of integers, or non-membership in one. The user
 * selects rules by their position in the catalog; a product passes when no rule is
 * selected or when every selected rule holds.
 */
module Conditions {
  import opened Attributes

  /** One inclusion rule: the attribute it tests and how. */
  datatype Check =
    | Above(field: Field, bound: int)
    | Below(field: Field, bound: int)
    | OneOf(field: Field, values: seq<int>)
    | NoneOf(field: Field, values: seq<int>)

  /** Whether a rule holds on an attribute record. */
  predicate Holds(c: Check, mods: Mods)
  {
    match c
    case Above(f, b) => Get(mods, f) > b
    case Below(f, b) => Get(mods, f) < b
    case OneOf(f, vs) => Get(mods, f) in vs
    case NoneOf(f, vs) => Get(mods, f) !in vs
  }

  /** The eleven rules, in the order of the source's `conditions` array. */
  const Catalog: seq<Check> := [
    Above(Aya, 6),
    Below(Weya, 5),
    OneOf(Yoni, [1, 3, 5, 7]),
    OneOf(Nekatha, [2, 5, 7, 9, 11, 14, 16, 18, 20, 23, 25, 27]),
    OneOf(Dawasa, [2, 3, 6]),
    Above(Ayusha, 50),
    OneOf(Anshaka, [1, 3, 5, 6, 8]),
    OneOf(Rashiya, [2, 3, 5, 9, 11]),
    NoneOf(Thithiya, [5, 10, 15, 20, 25, 30]),
    OneOf(Wanshaya, [1, 2, 3]),
    OneOf(Dewatha, [1, 2])
  ]

  /** Each catalog entry, read back as the test on the attribute record that it stands for. */
  lemma CatalogMeaning(mods: Mods)
    ensures |Catalog| == 11
    ensures Holds(Catalog[0], mods) <==> mods.aya > 6
    ensures Holds(Catalog[1], mods) <==> mods.weya < 5
    ensures Holds(Catalog[2], mods) <==> mods.yoni in [1, 3, 5, 7]
    ensures Holds(Catalog[3], mods) <==> mods.nekatha in [2, 5, 7, 9, 11, 14, 16, 18, 20, 23, 25, 27]
    ensures Holds(Catalog[4], mods) <==> mods.dawasa in [2, 3, 6]
    ensures Holds(Catalog[5], mods) <==> mods.ayusha > 50
    ensures Holds(Catalog[6], mods) <==> mods.anshaka in [1, 3, 5, 6, 8]
    ensures Holds(Catalog[7], mods) <==> mods.rashiya in [2, 3, 5, 9, 11]
    ensures Holds(Catalog[8], mods) <==> mods.thithiya !in [5, 10, 15, 20, 25, 30]
    ensures Holds(Catalog[9], mods) <==> mods.wanshaya in [1, 2, 3]
    ensures Holds(Catalog[10], mods) <==> mods.dewatha in [1, 2]
  {
  }

  /**
   * Whether rule `i` is selected. An index past the end of the selection reads as
   * `undefined` in the source, which the filter treats as not selected.
   */
  predicate Selected(selection: seq<bool>, i: nat)
  {
    i < |selection| && selection[i]
  }

  /** The rules of `rules` at selected positions from `i` on, in order. */
  function SelectedFrom(rules: seq<Check>, selection: seq<bool>, i: nat): (r: seq<Check>)
    ensures i <= |rules| ==> |r| <= |rules| - i
    decreases |rules| - i
  {
    if i >= |rules| then []
    else (if Selected(selection, i) then [rules[i]] else []) + SelectedFrom(rules, selection, i + 1)
  }

  /** Only rules of `rules` are selected. */
  lemma {:induction false} SelectedFromWithin(rules: seq<Check>, selection: seq<bool>, i: nat)
    ensures forall c :: c in SelectedFrom(rules, selection, i) ==> c in rules
    decreases |rules| - i
  {
    if i < |rules| {
      SelectedFromWithin(rules, selection, i + 1);
    }
  }

  /** The source's `selectedChecks`: the catalog filtered by the selection. */
  function SelectedChecks(selection: seq<bool>): (checks: seq<Check>)
    ensures |checks| <= |Catalog|
    ensures forall c :: c in checks ==> c in Catalog
  {
    SelectedFromWithin(Catalog, selection, 0);
    SelectedFrom(Catalog, selection, 0)
  }

  /** The source's survival test: nothing selected, or every selected rule holds. */
  predicate Passes(mods: Mods, selection: seq<bool>)
  {
    var checks := SelectedChecks(selection);
    |checks| == 0 || forall c :: c in checks ==> Holds(c, mods)
  }

  /** There is no selected rule from position `i` on iff no position `k >= i` is selected. */
  lemma {:induction false} SelectedFromEmpty(rules: seq<Check>, selection: seq<bool>, i: nat)
    ensures SelectedFrom(rules, selection, i) == [] <==>
      (forall k :: i <= k < |rules| ==> !Selected(selection, k))
    decreases |rules| - i
  {
    if i < |rules| {
      SelectedFromEmpty(rules, selection, i + 1);
    }
  }

  /**
   * A property `ok` holds of every selected rule from position `i` on iff it holds of the
   * rule at every selected position `k >= i`.
   */
  lemma {:induction false} SelectedFromAll(rules: seq<Check>, selection: seq<bool>, i: nat, ok: Check -> bool)
    ensures (forall c :: c in SelectedFrom(rules, selection, i) ==> ok(c)) <==>
      (forall k :: i <= k < |rules| && Selected(selection, k) ==> ok(rules[k]))
    decreases |rules| - i
  {
    if i < |rules| {
      SelectedFromAll(rules, selection, i + 1, ok);
      var rest := SelectedFrom(rules, selection, i + 1);
      if Selected(selection, i) {
        var here := [rules[i]] + rest;
        assert SelectedFrom(rules, selection, i) == here;
        assert (forall c :: c in here ==> ok(c)) <==> ok(rules[i]) && (forall c :: c in rest ==> ok(c));
      } else {
        assert SelectedFrom(rules, selection, i) == rest;
      }
    }
  }

  /**
   * A product passes iff every rule whose index is selected holds on its attributes:
   * the explicit "no rule selected" case of the source is subsumed by vacuous truth.
   */
  lemma PassesIff(mods: Mods, selection: seq<bool>)
    ensures Passes(mods, selection) <==>
      forall k :: 0 <= k < |Catalog| && Selected(selection, k) ==> Holds(Catalog[k], mods)
  {
    var ok := c => Holds(c, mods);
    SelectedFromAll(Catalog, selection, 0, ok);
    assert (forall c :: c in SelectedChecks(selection) ==> ok(c)) <==>
      (forall c :: c in SelectedChecks(selection) ==> Holds(c, mods));
    assert (forall k :: 0 <= k < |Catalog| && Selected(selection, k) ==> ok(Catalog[k])) <==>
      (forall k :: 0 <= k < |Catalog| && Selected(selection, k) ==> Holds(Catalog[k], mods));
  }

  /** With no rule selected, every product passes. */
  lemma NothingSelectedPasses(mods: Mods, selection: seq<bool>)
    requires forall k :: 0 <= k < |selection| ==> !selection[k]
    ensures SelectedChecks(selection) == []
    ensures Passes(mods, selection)
  {
    SelectedFromEmpty(Catalog, selection, 0);
  }

  /** `more` selects every rule that `fewer` selects, and possibly others. */
  predicate Includes(more: seq<bool>, fewer: seq<bool>)
  {
    forall k :: 0 <= k < |fewer| && fewer[k] ==> Selected(more, k)
  }

  /** Selecting more rules never lets more products pass. */
  lemma PassesMonotone(mods: Mods, more: seq<bool>, fewer: seq<bool>)
    requires Includes(more, fewer)
    ensures Passes(mods, more) ==> Passes(mods, fewer)
  {
    PassesIff(mods, more);
    PassesIff(mods, fewer);
  }

  /**
   * The enumerator only yields odd dimensions, so every product is odd; for a non-negative
   * odd product the `yoni` rule (index 2) and the `wanshaya` rule (index 9) always hold.
   */
  lemma OddProductPassesYoniAndWanshaya(multi: int)
    requires multi >= 0 && multi % 2 == 1
    ensures Holds(Catalog[2], ComputeMods(multi))
    ensures Holds(Catalog[9], ComputeMods(multi))
  {
    var mods := ComputeMods(multi);
    var t := multi * 3;
    var h := multi / 2;
    assert t == 2 * (3 * h + 1) + 1;
    var r8, r4 := t % 8, t % 4;
    assert t == 8 * (t / 8) + r8 && t == 4 * (t / 4) + r4;
    assert r8 == 2 * (3 * h + 1 - 4 * (t / 8)) + 1;
    assert r4 == 2 * (3 * h + 1 - 2 * (t / 4)) + 1;
    assert mods.yoni == r8 && mods.wanshaya == r4;
  }

  /** The selection with the `yoni` (index 2) and `wanshaya` (index 9) checkboxes cleared. */
  function WithoutYoniAndWanshaya(selection: seq<bool>): seq<bool>
  {
    seq(|selection|, k requires 0 <= k < |selection| => selection[k] && k != 2 && k != 9)
  }

  /**
   * For two non-negative odd dimensions, the `yoni` and `wanshaya` checkboxes have no
   * effect: the pair passes with them selected iff it passes with them cleared.
   */
  lemma YoniAndWanshayaHaveNoEffect(x: int, y: int, selection: seq<bool>)
    requires 0 <= x && 0 <= y && x % 2 == 1 && y % 2 == 1
    ensures Passes(ComputeMods(x * y), selection) <==>
      Passes(ComputeMods(x * y), WithoutYoniAndWanshaya(selection))
  {
    var mods := ComputeMods(x * y);
    var cleared := WithoutYoniAndWanshaya(selection);
    OddTimesOdd(x, y);
    assert 0 <= x * y;
    OddProductPassesYoniAndWanshaya(x * y);
    PassesIff(mods, selection);
    PassesIff(mods, cleared);
    forall k | 0 <= k < |Catalog|
      ensures (Selected(selection, k) ==> Holds(Catalog[k], mods)) <==>
        (Selected(cleared, k) ==> Holds(Catalog[k], mods))
    {
      if k != 2 && k != 9 {
        assert Selected(selection, k) == Selected(cleared, k);
      }
    }
  }

  /** The product of two odd integers is odd. */
  lemma OddTimesOdd(x: int, y: int)
    requires x % 2 == 1 && y % 2 == 1
    ensures (x * y) % 2 == 1
  {
    var a, b := x / 2, y / 2;
    assert x == 2 * a + 1 && y == 2 * b + 1;
    assert x * y == 2 * (2 * a * b + a + b) + 1;
  }
}
