/**
 * The attribute deriver. A dimension pair's product `multi = x * y` is reduced to eleven
 * named attributes, each `(multi * k) % m` for a fixed multiplier `k` and modulus `m`.
 * Also the feet/inches split that the result records use for display.
 */
module Attributes {

  /**
   * JavaScript's `%`: the remainder of division truncated toward zero, which takes the
   * sign of the dividend (Dafny's own `%` is Euclidean and never negative).
   */
  function JsRem(a: int, m: int): (r: int)
    requires m > 0
    ensures 0 <= a ==> 0 <= r < m
    ensures a < 0 ==> -m < r <= 0
  {
    if a >= 0 then a % m else -((-a) % m)
  }

  /** A multiple `k * m` of a positive `m` that lies strictly between `-m` and `m` has `k == 0`. */
  lemma SmallMultipleIsZero(k: int, m: int)
    requires m > 0 && -m < k * m < m
    ensures k == 0
  {
  }

  /**
   * `JsRem` is the truncated remainder and nothing else: any `r` with `a == q * m + r`
   * that has the sign of `a` and is smaller than `m` in magnitude is `JsRem(a, m)`.
   */
  lemma JsRemIsTruncatedRemainder(a: int, m: int, q: int, r: int)
    requires m > 0 && a == q * m + r
    requires 0 <= a ==> 0 <= r < m
    requires a < 0 ==> -m < r <= 0
    ensures JsRem(a, m) == r
  {
    var s := JsRem(a, m);
    var p := if a >= 0 then a / m else -((-a) / m);
    assert a == p * m + s by {
      if a >= 0 {
        assert a == (a / m) * m + a % m;
      } else {
        assert -a == ((-a) / m) * m + (-a) % m;
        assert (-((-a) / m)) * m == -(((-a) / m) * m);
      }
    }
    assert (q - p) * m == s - r by {
      assert (q - p) * m == q * m - p * m;
    }
    SmallMultipleIsZero(q - p, m);
  }

  /** The eleven attributes, in the order the source lists them. */
  datatype Field =
    | Aya | Weya | Yoni | Nekatha | Dawasa | Ayusha | Anshaka | Rashiya | Thithiya | Wanshaya | Dewatha

  /** The multiplier `k` of each attribute. */
  function Multiplier(f: Field): nat
  {
    match f
    case Aya => 8
    case Weya => 9
    case Yoni => 3
    case Nekatha => 8
    case Dawasa => 9
    case Ayusha => 27
    case Anshaka => 4
    case Rashiya => 5
    case Thithiya => 9
    case Wanshaya => 3
    case Dewatha => 5
  }

  /** The modulus `m` of each attribute. */
  function Modulus(f: Field): (m: int)
    ensures m > 0
  {
    match f
    case Aya => 12
    case Weya => 10
    case Yoni => 8
    case Nekatha => 27
    case Dawasa => 7
    case Ayusha => 100
    case Anshaka => 9
    case Rashiya => 12
    case Thithiya => 30
    case Wanshaya => 4
    case Dewatha => 3
  }

  /** The attribute record of one product. */
  datatype Mods = Mods(
    aya: int, weya: int, yoni: int, nekatha: int, dawasa: int, ayusha: int,
    anshaka: int, rashiya: int, thithiya: int, wanshaya: int, dewatha: int)

  /** Looks one attribute up by name. */
  function Get(mods: Mods, f: Field): int
  {
    match f
    case Aya => mods.aya
    case Weya => mods.weya
    case Yoni => mods.yoni
    case Nekatha => mods.nekatha
    case Dawasa => mods.dawasa
    case Ayusha => mods.ayusha
    case Anshaka => mods.anshaka
    case Rashiya => mods.rashiya
    case Thithiya => mods.thithiya
    case Wanshaya => mods.wanshaya
    case Dewatha => mods.dewatha
  }

  /**
   * The source's `computeMods`. Every attribute is the truncated remainder of the product
   * times its multiplier, by its modulus (the table above); for a non-negative product it
   * lies in `[0, m)`, for a negative one in `(-m, 0]`.
   */
  function ComputeMods(multi: int): (mods: Mods)
    ensures forall f :: Get(mods, f) == JsRem(multi * Multiplier(f), Modulus(f))
    ensures forall f :: multi >= 0 ==> 0 <= Get(mods, f) < Modulus(f)
    ensures forall f :: multi < 0 ==> -Modulus(f) < Get(mods, f) <= 0
  {
    Mods(
      aya := JsRem(multi * 8, 12),
      weya := JsRem(multi * 9, 10),
      yoni := JsRem(multi * 3, 8),
      nekatha := JsRem(multi * 8, 27),
      dawasa := JsRem(multi * 9, 7),
      ayusha := JsRem(multi * 27, 100),
      anshaka := JsRem(multi * 4, 9),
      rashiya := JsRem(multi * 5, 12),
      thithiya := JsRem(multi * 9, 30),
      wanshaya := JsRem(multi * 3, 4),
      dewatha := JsRem(multi * 5, 3))
  }

  /** The attributes of the default first pair 361 x 281, whose product is 101441. */
  lemma DefaultFirstPairMods()
    ensures 361 * 281 == 101441
    ensures ComputeMods(101441) == Mods(4, 9, 3, 16, 1, 7, 8, 1, 9, 3, 1)
  {
  }

  /**
   * The source's `convertInchesToFeetAndInches`, without the text template: the feet are
   * the FLOOR of `inches / 12`, the inches the JavaScript (truncated) remainder.
   */
  function FeetAndInches(inches: int): (r: (int, int))
    ensures r.0 * 12 <= inches < r.0 * 12 + 12
    ensures r.1 == JsRem(inches, 12)
    ensures inches >= 0 ==> r.0 * 12 + r.1 == inches && 0 <= r.1 < 12
  {
    (inches / 12, JsRem(inches, 12))
  }

  /**
   * For a negative length that is not a whole number of feet, floor and truncation
   * disagree: the two displayed numbers add up to twelve inches less than the length.
   */
  lemma FeetAndInchesNegative(inches: int)
    requires inches < 0 && inches % 12 != 0
    ensures FeetAndInches(inches).0 * 12 + FeetAndInches(inches).1 == inches - 12
  {
    var r := FeetAndInches(inches);
    var q := -((-inches) / 12);
    assert inches == q * 12 + r.1;
  }
}
