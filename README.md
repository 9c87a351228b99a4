# Steel column design engine, modelled in Dafny

This project models the design engine of a small steel-column tool. It also models the height sweep built on top of that engine.

- **The engine** (`structural_columns/columns.py`) covers several pieces:
  - the load-combination maximum of the National Building Code of Canada 2015 (Division B, Article 4.1.3.2);
  - the radius of gyration and the Euler buckling load of a doubly-symmetric column;
  - the factored compressive resistance of CSA S16:19, clause 13.3.1, about the governing axis;
  - the demand/capacity ratio of a steel column.
- **The sweep** (`sample_app_module.py`) walks one steel column object through `range(min_height, max_height, interval)`. At each step it overwrites the column's height and collects the factored resistance. The comparison runs the sweep once for each of two sections.

Modules:

- `Exceptions` (exceptions.dfy): the Python exceptions the engine can raise, and `Result<T>`. A computation either returns `Ok(value)` or raises `Err(error)`.
- `ColumnFormulas` (column_formulas.dfy): the free functions of `columns.py` and the `Load` record.
- `Columns` (columns.dfy): the `Column` and `SteelColumn` records and their methods. Axis labels are dispatched the way `axis.lower()` compares them with "x" and "y".
- `SampleApp` (sample_app_module.dfy): the sweep and the comparison.
  - `ColumnPrOverHeightRange` is imperative. A `CalcSteelColumn` object has mutable fields, and a loop overwrites its `height` and appends to a sequence.
  - The method is proved equal to the function `PrCurve`, and the properties of the sweep are proved about `PrCurve`.

All quantities are Dafny `real`s, computed exactly:

- π is the constant `Pi`, the decimal Python prints for `math.pi` (the double itself differs from it in later digits).
- `math.sqrt` and `**` are parameters `sqrt` and `pow`. Results that depend on them are stated under the predicates `IsSqrt` and `IsPow`:
  - `IsSqrt`: the root is non-negative and squares back.
  - `IsPow`: a positive base gives a positive power, 0 to a positive power is 0, and a base of at least 1 to a non-positive power is at most 1.
- `SqrtPowLaw` relates the square root and the power: λ^(2n) = (fy/F_e)^n when λ = √(fy/F_e). The formula lemma is stated without the square root.

Every exception the source raises under exact real arithmetic is modelled as an `Err`, in the order the source evaluates. OverflowError, which only floating-point limits raise, is not (see "## Left out"). The modelled exceptions are:

- a zero `k·L**2` or a zero area is a ZeroDivisionError;
- so is a zero governing stress F_e;
- the square root of a negative ratio is a ValueError;
- 0.0 raised to a negative power is a ZeroDivisionError;
- so is `-1 / n` with `n == 0`;
- an unknown axis label leaves the local `r` (or `P_E`) unbound, which is an UnboundLocalError;
- `range` with a zero step is a ValueError;
- `dl_str_to_load` on fewer than two entries is an IndexError.

Two behaviours of the code are modelled as written:

- `eulerbucklingload` divides by `k * L**2`, not by `(k·L)**2`. The expected values at structural_columns/test_columns.py:24 and :88 match this form.
- `SteelColumn.factored_axial_capacity` does not forward `self.phi`, so the default 0.9 always applies. `SteelColumnIgnoresPhi` proves this.

## Model

| member | source | states |
|---|---|---|
| ColumnFormulas.MaxFactoredLoad | structural_columns/columns.py:191-204 | the result is at least each of 1.4D, 1.25D+1.5L, 1.25D+1.5L+1.0S and 1.25D+1.5S+1.0L, and equals one of them |
| ColumnFormulas.MaxFactoredLoadIgnoresWindAndEarthquake | structural_columns/columns.py:198-204 | changing the W and E components of a load never changes its governing factored load |
| ColumnFormulas.EmptyLoadHasZeroFactoredLoad | structural_columns/columns.py:32 | the all-zero load has governing factored load 0 |
| ColumnFormulas.DeadAndLiveLoadGoverning | structural_columns/columns.py:198-204 | for a load with only D and L (L ≥ 0), the governing load is the larger of 1.4D and 1.25D+1.5L |
| ColumnFormulas.DlStrToLoad | structural_columns/columns.py:207-215 | succeeds exactly when there are at least two entries, else IndexError; D and L are entries 0 and 1, and S, W, E are 0 |
| ColumnFormulas.RadiusOfGyration | structural_columns/columns.py:218-223 | ZeroDivisionError exactly when A = 0, ValueError exactly when I/A < 0; otherwise, for a true square root, r ≥ 0 and r·r·A = I |
| ColumnFormulas.EulerBucklingLoad | structural_columns/columns.py:226-231 | ZeroDivisionError exactly when k = 0 or L = 0; otherwise P_E·(k·L²) = π²·E·I |
| ColumnFormulas.EulerBucklingLoadPositive | structural_columns/columns.py:226-231 | for positive E, I, k and non-zero L the load is defined and positive |
| ColumnFormulas.EulerBucklingLoadDecreasesWithLength | structural_columns/columns.py:226-231 | for positive E, I, k and 0 < L1 < L2 the load at L2 is strictly smaller than the load at L1 |
| ColumnFormulas.GoverningBucklingStress | structural_columns/columns.py:243-247 | ZeroDivisionError exactly when area, kx, ky or L is zero; otherwise F_e is at most P_Ex/A and at most P_Ey/A, and equals one of them |
| ColumnFormulas.GoverningBucklingStressSwapAxes | structural_columns/columns.py:243-247 | exchanging (Ix, kx) with (Iy, ky) leaves F_e unchanged |
| ColumnFormulas.GoverningBucklingStressDecreasesWithHeight | structural_columns/columns.py:243-247 | for a positive section and 0 < L1 < L2, 0 < F_e(L2) < F_e(L1) |
| ColumnFormulas.FactoredAxialCapacity | structural_columns/columns.py:234-250 | a zero area, kx, ky or L raises ZeroDivisionError; n = 0 always raises; F_e = 0 raises ZeroDivisionError; fy/F_e < 0 raises ValueError; with a true square root, fy = 0 and n < 0 raise ZeroDivisionError (0.0 to a negative power), and the call succeeds exactly when F_e is defined and non-zero, fy/F_e ≥ 0, n ≠ 0 and not (fy = 0 and n < 0) |
| ColumnFormulas.FactoredAxialCapacitySwapAxes | structural_columns/columns.py:243-249 | exchanging (Ix, kx) with (Iy, ky) leaves the resistance, or the exception, unchanged |
| ColumnFormulas.FactoredAxialCapacityDefined | structural_columns/columns.py:234-250 | a positive section with non-zero L, fy ≥ 0 and n > 0 always yields a resistance |
| ColumnFormulas.FactoredAxialCapacityFormula | structural_columns/columns.py:247-249 | with a true square root and the power law, the resistance is φ·A·fy·(1+(fy/F_e)^n)^(-1/n) |
| ColumnFormulas.FactoredAxialCapacityWithinSquashLoad | structural_columns/columns.py:247-249 | for positive area, fy, n and φ the resistance lies in (0, φ·A·fy] |
| Columns.Column.RadiusOfGyration | structural_columns/columns.py:56-65 | "x"/"X" use Ix, "y"/"Y" use Iy, any other label raises UnboundLocalError; zero area raises ZeroDivisionError; r ≥ 0 and r·r·A = I of that axis |
| Columns.Column.EulerBucklingLoad | structural_columns/columns.py:67-76 | "x"/"X" use (Ix, kx), "y"/"Y" use (Iy, ky), any other label raises UnboundLocalError; P_E·(k·L²) = π²·E·I of that axis |
| Columns.TurnedColumnExchangesAxes | structural_columns/columns.py:56-76 | asking a column about x gives the same as asking the quarter-turned column about y, and the other way round |
| Columns.SteelColumnBucklingStressFromColumn | structural_columns/columns.py:67-76 | a steel column answers the inherited euler_buckling_load from its own fields: F_e of its resistance is defined exactly when the area is non-zero and both axis loads of its Column part are, and then equals the smaller of P_E("x")/A and P_E("y")/A |
| Columns.SteelColumn.FactoredAxialLoad | structural_columns/columns.py:105-111 | the governing factored load of the column's applied load |
| Columns.SteelColumn.FactoredAxialCapacity | structural_columns/columns.py:113-124 | the free resistance function on the column's fields, with φ fixed at 0.9 |
| Columns.SteelColumnIgnoresPhi | structural_columns/columns.py:122-124 | changing the stored phi never changes the resistance or the ratio |
| Columns.EmptySteelColumnRaisesZeroDivision | structural_columns/test_columns.py:28-40 | a steel column of all-zero geometry raises ZeroDivisionError for its resistance |
| Columns.SteelColumn.FactoredDcr | structural_columns/columns.py:126-130 | the resistance's exception propagates, a zero resistance raises ZeroDivisionError, and otherwise ratio × resistance = factored load |
| Columns.FactoredDcrAdequacy | structural_columns/columns.py:126-130 | for a positive resistance the ratio is defined, and it is at most 1 exactly when the load does not exceed the resistance |
| SampleApp.HeightRange | sample_app_module.py:96 | ValueError exactly when the step is zero, otherwise the progression start, start+step, … before stop |
| SampleApp.ProgressionTerms | sample_app_module.py:96 | the i-th term is start + i·step, every term lies before stop, the next one would not, and the list is empty exactly when start is not before stop |
| SampleApp.HeightRangeLength | sample_app_module.py:96 | for a positive step the count is ⌈(stop−start)/step⌉ when start < stop and 0 otherwise, and start ≤ term < stop |
| SampleApp.CapacitiesAligned | sample_app_module.py:109-113 | on success there is one resistance per height, each the resistance at that height; the sweep fails exactly when some height fails, with the first failing height's exception |
| SampleApp.CapacitiesFailFromPrefix | sample_app_module.py:109-113 | once a prefix of the heights has raised, the whole sweep raises the same exception |
| SampleApp.PrCurveDefaults | sample_app_module.py:79-80 | leaving E and fy out is the same as passing 200e3 and 350 |
| SampleApp.PrCurveShape | sample_app_module.py:96-115 | on success the heights are the range, and each resistance is factored_axial_capacity(area, Ix, Iy, 1, 1, height, E, fy, 1.34) at φ = 0.9 |
| SampleApp.PrCurveDefined | sample_app_module.py:96-115 | a positive step, a positive minimum height and a positive section always give a curve |
| SampleApp.PrCurveFailsFromZeroHeight | sample_app_module.py:96-115 | a sweep starting at height 0 raises ZeroDivisionError |
| SampleApp.CapacitiesDependOnSectionOnly | sample_app_module.py:97-112 | two columns that agree on area, I, k, E and fy give the same sweep, whatever their height, tag, load and phi |
| SampleApp.PrCurveIgnoresTag | sample_app_module.py:105 | the column tag does not change the curve |
| SampleApp.ColumnPrOverHeightRange | sample_app_module.py:71-115 | the in-place loop returns exactly the curve PrCurve specifies; its invariant keeps every field but height equal to the column built before the loop |
| SampleApp.CompareTwoColumns | sample_app_module.py:10-69 | succeeds exactly when both sweeps do, raising A's exception first; keys are exactly "a" and "b", "a" is the sweep of the A arguments, "b" of the B arguments, and both share one height list |
| SampleApp.CompareTwoColumnsSwap | sample_app_module.py:44-69 | exchanging the A and B argument groups exchanges the "a" and "b" entries |

## Left out

- The user interface of app.py (Streamlit widgets and Plotly figures) is not part of this model.
- The handcalcs rendering is not modelled: `calc_pr_at_given_height`, `calc_euler_buckling`, `calc_factored_resistance` and the re-bound `radius_of_gyration` (sample_app_module.py:7, :119-142). They call a foreign LaTeX-rendering library.
- `math.sqrt` and `**` are parameters. Their floating-point values, and the numeric expected values of the tests (structural_columns/test_columns.py:13-25, :86-94), are not modelled.
- IEEE-754 rounding, infinities and NaN are not modelled. All arithmetic is exact real arithmetic.
- OverflowError is not modelled. Python raises it when `lamb ** (2 * n)` (structural_columns/columns.py:249) exceeds the largest double, for a very large λ = √(fy/F_e). It also raises it when `k * L**2` (structural_columns/columns.py:230) is an int too large to convert to a float, as integer heights from the sweep can make it. The model returns a value in both cases.
- ColumnFormulas.DlStrToLoad takes already-parsed reals. Python's `float()` parsing of the strings, and its ValueError on bad text, are not modelled.
- Monotonicity of the final resistance in the height is not proved. It needs monotonicity of real powers, which the opaque `pow` does not provide. Only F_e's monotonicity is proved.
- Integer-argument checks of `range` (a TypeError for non-integer bounds) are not modelled: the bounds are Dafny `int`s.
- The example Load, Column and SteelColumn instances of columns.py are data and are not modelled.
- The return annotation of `column_pr_over_height_range` names a 3-tuple, but the function returns a pair. The model returns the pair.
