# House-plan dimension filter — a Dafny model

This project models the search engine of a small house-plan tool. The tool looks for
rectangle dimensions (length `x` and width `y`, in inches) that satisfy a traditional
measurement scheme. The engine works in four steps:

1. **Odd-number enumerator** (`OddNumbers`). It lists the odd integers of a closed range in
   ascending order. An even start is bumped up by one first. `GenerateOddNumbers` is the
   source's push loop. It is proved equal to the specification `OddRange`.
2. **Attribute deriver** (`Attributes`). It maps a product `multi = x * y` to eleven named
   attributes. Each attribute is `(multi * k) % m` for a fixed multiplier and modulus. The
   remainder is JavaScript's truncated `%` (`JsRem`), written out explicitly. The same
   module holds the feet/inches split used for display (`FeetAndInches`).
3. **Inclusion-rule catalog and evaluator** (`Conditions`). The catalog is a table of eleven
   rules. Each rule tests one attribute: a strict inequality, membership in a fixed list,
   or non-membership in one. A product passes when no rule is selected, or when every
   selected rule holds. Rules are selected by position. A position past the end of the
   selection counts as not selected, because the source reads `undefined` there.
4. **Pipeline** (`Engine`). It takes the Cartesian product of the two odd sequences:
   length in the outer loop, width in the inner loop. It evaluates each pair with `Mul`
   and appends the record of each passing pair. `ComputeResults` is the source's nested
   loop. It is proved equal to the specification `Results`. The lemmas about `Results`
   cover:
   - which records are present;
   - their row-major order, and that no pair appears twice;
   - the length bound;
   - the no-selection case;
   - monotonicity: selecting more rules only filters the results further;
   - over non-negative ranges, the `yoni` and `wanshaya` checkboxes change nothing, because
     every enumerated product is odd and those two rules always hold for non-negative odd
     products.

All arithmetic uses unbounded integers. JavaScript numbers are exact here, because the
largest intermediate value (600 · 600 · 27) is far below 2^53.

`src/App.jsx` has only inclusion rules, with no exclusion rules, and only the enumeration
mode, with no single-pair mode. The model has the same scope.

## Model

| member | source | states |
|---|---|---|
| `OddNumbers.FirstOdd` | src/App.jsx:6 | the first candidate is odd and is `start` or `start + 1` |
| `OddNumbers.GenerateOddNumbers` | src/App.jsx:4-11 | the push loop returns exactly the specification sequence `OddRange(start, end)` |
| `OddNumbers.OddRangeMembership` | src/App.jsx:4-11 | `i` is enumerated iff `i` is odd and `start <= i <= end` |
| `OddNumbers.OddRangeAscending` | src/App.jsx:7-9 | the sequence is strictly ascending, consecutive elements two apart |
| `OddNumbers.OddRangeEdges` | src/App.jsx:6-7 | empty when `start > end`; for `start == end`, the single element if odd, empty if even |
| `Attributes.JsRem` | src/App.jsx:17-27 | JavaScript `%` lies in `[0, m)` for a non-negative dividend and in `(-m, 0]` for a negative one |
| `Attributes.JsRemIsTruncatedRemainder` | src/App.jsx:17-27 | any `r` with `a == q*m + r`, the sign of `a` and `abs(r) < m` equals `JsRem(a, m)`: it is the truncated remainder |
| `Attributes.ComputeMods` | src/App.jsx:16-28 | each of the eleven attributes is the truncated remainder of `multi * k` by `m` for its listed (k, m); each lies in `[0, m)` for `multi >= 0` and in `(-m, 0]` for `multi < 0` |
| `Attributes.DefaultFirstPairMods` | src/App.jsx:16-28 | the attributes of the first default pair 361 x 281 (product 101441) |
| `Attributes.FeetAndInches` | src/App.jsx:13-14 | the feet are the floor of `inches / 12` and the inches the truncated remainder; for `inches >= 0`, `feet*12 + rem == inches` and `0 <= rem < 12` |
| `Attributes.FeetAndInchesNegative` | src/App.jsx:13-14 | for a negative length that is not a whole number of feet, the two displayed numbers add up to `inches - 12` |
| `Conditions.Holds` | src/App.jsx:32-61 | a rule holds when its attribute is above the bound, below the bound, in the list or not in the list, according to the rule's kind |
| `Conditions.Catalog` | src/App.jsx:31-62 | the eleven rules in source order, each given as (attribute, kind, constants) |
| `Conditions.SelectedFrom` | src/App.jsx:80-82 | the rules at selected positions from `i` on, in order; there are at most as many as the rules from `i` on |
| `Conditions.SelectedFromWithin` | src/App.jsx:80-82 | filtering only ever yields rules of the list it filters |
| `Conditions.SelectedChecks` | src/App.jsx:80-82 | the catalog filtered by the selection: at most eleven checks, all of them catalog rules |
| `Conditions.Passes` | src/App.jsx:84-87 | the survival test: no check selected, or every selected check holds |
| `Conditions.CatalogMeaning` | src/App.jsx:31-62 | the catalog has eleven entries, each holding exactly when the corresponding inequality, list membership or list non-membership on its attribute holds |
| `Conditions.SelectedFromEmpty` | src/App.jsx:80-82 | the filtered rule list is empty iff no catalog position is selected |
| `Conditions.SelectedFromAll` | src/App.jsx:80-86 | a property holds of every filtered rule iff it holds of the rule at every selected position |
| `Conditions.PassesIff` | src/App.jsx:80-87 | a product passes iff every rule at a selected index holds on its attributes |
| `Conditions.NothingSelectedPasses` | src/App.jsx:84-85 | with no rule selected, the filtered list is empty and every product passes |
| `Conditions.PassesMonotone` | src/App.jsx:80-87 | if one selection includes another, passing the larger one implies passing the smaller one |
| `Conditions.OddProductPassesYoniAndWanshaya` | src/App.jsx:34-60 | for a non-negative odd product, the `yoni` rule and the `wanshaya` rule always hold |
| `Conditions.OddTimesOdd` | src/App.jsx:104-109 | the product of two odd dimensions is odd |
| `Conditions.YoniAndWanshayaHaveNoEffect` | src/App.jsx:34-87 | for two non-negative odd dimensions, the pair passes a selection iff it passes the same selection with the `yoni` and `wanshaya` checkboxes cleared |
| `Engine.MakeRecord` | src/App.jsx:88-99 | the result object of a pair carries the pair and the eight displayed attributes of its product, unchanged |
| `Engine.Mul` | src/App.jsx:77-102 | returns a record iff the pair's attributes pass the selection; the record carries `x`, `y` and the eight attributes `aya`…`rashiya` unchanged |
| `Engine.ComputeResults` | src/App.jsx:104-112 | the nested loops return exactly `Results`: the survivors of the row-major product of the two enumerations |
| `Engine.PairsLength` | src/App.jsx:107-112 | the product has `abs(xs) * abs(ys)` pairs |
| `Engine.PairsMembership` | src/App.jsx:107-112 | a pair is in the product iff its length is in `xs` and its width is in `ys` |
| `Engine.PairsSorted` | src/App.jsx:107-112 | for ascending `xs` and `ys`, the product is strictly sorted in row-major order |
| `Engine.SurvivorsLength` | src/App.jsx:109-110 | filtering never adds records |
| `Engine.SurvivorsMembership` | src/App.jsx:109-110 | a record survives iff its pair is among the pairs and the evaluator returns that record for it |
| `Engine.SurvivorsKeepAll` | src/App.jsx:84-85 | with nothing selected, the survivors are the records of all pairs, position by position |
| `Engine.SurvivorsSorted` | src/App.jsx:107-112 | filtering keeps row-major order |
| `Engine.SurvivorsRefine` | src/App.jsx:80-87 | the survivors under a larger selection are the survivors under a smaller one, filtered again by the larger one |
| `Engine.SurvivorsSameDecisions` | src/App.jsx:107-112 | two selections that decide every pair alike keep the same records in the same order |
| `Engine.RefineLength` | src/App.jsx:80-87 | re-filtering never adds records |
| `Engine.RefineSubset` | src/App.jsx:80-87 | re-filtering keeps only records it was given |
| `Engine.ResultsMembership` | src/App.jsx:104-112 | a record is a result iff its length is odd and in the length range, its width is odd and in the width range, it passes the selection, and it carries its pair's attributes |
| `Engine.ResultsOrdered` | src/App.jsx:104-112 | results are in row-major order (length ascending, then width ascending) and no two are equal |
| `Engine.ResultsLength` | src/App.jsx:104-112 | there are at most (number of odd lengths) × (number of odd widths) results |
| `Engine.ResultsNothingSelected` | src/App.jsx:80-112 | with nothing selected, every odd pair is a result in row-major order, so the count is exactly the product of the two counts |
| `Engine.ResultsMonotone` | src/App.jsx:80-112 | selecting more rules yields the earlier results filtered further: never more of them, and all among the earlier ones |

| `Engine.ResultsIgnoreYoniAndWanshaya` | src/App.jsx:34-112 | over non-negative ranges, clearing the `yoni` and `wanshaya` checkboxes leaves the results unchanged, order included |

## Left out

- React wiring is not modelled. This covers the state hooks, the effect that reruns on every
  input change, and `setResults` (src/App.jsx:64-75, 113-114). `ComputeResults` is that
  effect's body, run on explicit inputs.
- User interface is not modelled: the range sliders, the checkbox toggle handler and the
  result cards (src/App.jsx:116-253).
- Text formatting is not modelled. `FeetAndInches` returns the two numbers of the
  `"<ft> ft <in> in"` label. A result record keeps the raw integer length and width,
  not the label.
- The condition labels are not modelled. They are display strings. The catalog keeps only
  the attribute, the kind of test and the constants.
- Hard exclusion rules and a single-pair mode are not modelled, because `src/App.jsx` has
  neither.
- Floating-point numbers are not modelled. JavaScript numbers become unbounded integers.
  This is exact for the products this program forms, which stay far below 2^53.
- Negative zero is not modelled. JavaScript gives `-0` for the remainder of a negative
  multiple; `JsRem` gives `0`. No comparison or list-membership test in the catalog can
  tell them apart.
