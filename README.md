# Decision methods under uncertainty — Dafny model

This project models the evaluation engine of a small operations-research
program. The program takes a payoff matrix whose rows are alternatives and
whose columns are states of nature. It scores every alternative under five
criteria: Laplace, pessimistic (maximin), optimistic (maximax), Hurwicz and
Savage (minimax regret). For each criterion it then names the best
alternative.

- `matrices.dfy` (module `Matrices`) holds the matrix type and its shape
  predicates. It also holds `Max`, `Min` and `Sum` over rows and `Column`.
  Cells are `real`. The program reads cells as floats when they are typed
  in and as integers when they are drawn at random. `real` holds every
  finite value of either kind, and the model computes on them exactly,
  without float rounding (see "## Left out").
- `criteria.dfy` (module `Criteria`) holds the four row-wise criteria.
  `Optimistic`, `Pessimistic` and `Hurwicz` are functions, as the source's
  list comprehensions are. `Laplace` is a method with the source's nested
  accumulation loop. Each is proved against what it means: the row's
  maximum or minimum, a value between them, or the row's mean.
- `savage.dfy` (module `Savage`) copies the transposed matrix into an
  `array2`. `RegretInPlace` rewrites each row of that array (an original
  column) in place, exactly as the source's nested loop does. Its loop
  invariants say that rows already processed hold regrets and that later
  rows still hold payoffs. `RegretMatrix` transposes back and is proved
  equal to `Regret`, the column-maximum-minus-cell definition.
  `SavageScores` scores each row by its largest regret.
- `selection.dfy` (module `Selection`) holds the winner rule: `max` of the
  scores, or `min` for Savage, followed by `list.index` of that value. The
  first index holding the extreme value therefore wins ties.
- `worked_example.dfy` (module `WorkedExample`) works the five criteria on
  the matrix [[2, 4], [5, 1]] with coefficient 0.5.

## Model

| member | source | states |
|---|---|---|
| `Matrices.Max` | main.py:133 | `max(row)` of a non-empty row occurs in the row, and no cell of the row exceeds it |
| `Matrices.Min` | main.py:145 | `min(row)` of a non-empty row occurs in the row, and no cell of the row is below it |
| `Criteria.Optimistic` | main.py:124-133 | one score per row; each score is an element of its row and no cell of that row exceeds it |
| `Criteria.Pessimistic` | main.py:136-145 | one score per row; each score is an element of its row and no cell of that row is below it |
| `Criteria.Hurwicz` | main.py:89-100 | one score per row; what each score means is stated by the three Hurwicz lemmas below |
| `Criteria.HurwiczScoreBetween` | main.py:99-100 | with weights `coef` and `1-coef` and `0 <= coef <= 1`, a row's score lies between its worst and best payoff |
| `Criteria.HurwiczBetween` | main.py:99-100 | for every coefficient the caller accepts (`0 <= coef <= 1`, main.py:240), every Hurwicz score lies between its row's minimum and maximum |
| `Criteria.HurwiczFullOptimism` | main.py:99-100 | with `coef = 1` Hurwicz gives exactly the optimistic scores |
| `Criteria.HurwiczNoOptimism` | main.py:99-100 | with `coef = 0` Hurwicz gives exactly the pessimistic scores |
| `Criteria.Laplace` | main.py:68-86 | the loop that adds `number * (1/cols)` per row yields one score per row, equal to the row sum divided by the column count |
| `Criteria.SumStep` | main.py:82-83 | one more term of the accumulator: the scaled running sum grows by `number * prob` |
| `Criteria.LaplaceBetween` | main.py:77-84 | in a rectangular matrix each Laplace score lies between its row's minimum and maximum |
| `Criteria.LaplaceUniformRow` | main.py:77-84 | a row whose payoffs are all `v` scores exactly `v` |
| `Savage.Regret` | main.py:112-119 | the regret matrix has the payoff matrix's shape; cell [i][j] is column j's maximum minus cell [i][j] |
| `Savage.RegretInPlace` | main.py:114-117 | the in-place loop turns every row of the transposed array into its maximum minus the original cell; each row's maximum is taken before the row is written, rows are processed in order, and rows not yet reached keep their payoffs |
| `Savage.RegretMatrix` | main.py:112-119 | transposing, rewriting in place and transposing back produces exactly `Regret(m)` |
| `Savage.SavageScores` | main.py:103-121 | the Savage scores are the optimistic scores of the regret matrix: one per row, each non-negative |
| `Savage.RegretNonNegative` | main.py:115-117 | no regret is negative |
| `Savage.RegretColumnHasZero` | main.py:115-117 | every column of the regret matrix holds at least one zero |
| `Savage.SavageScoresNonNegative` | main.py:121 | every row's largest regret is non-negative |
| `Selection.IndexOf` | main.py:227 | `list.index(v)` is the first position holding `v` |
| `Selection.Select` | main.py:216-227 | the winner is the first index holding the maximum score, or the minimum one when `_min_result` is set: no score beats it and it beats every earlier score; an empty score list has no winner (Python's `max`/`min` raise) |
| `Selection.SelectIsTheFirstBest` | main.py:216-227 | that description fixes the winner: any index meeting it is the one `Select` returns |
| `Selection.SelectExamples` | main.py:216-227 | on scores [3, 7, 7, 2] the maximising winner is index 1 and the minimising winner is index 3 |
| `WorkedExample.LaplaceExample` | main.py:253 | running `Laplace` on [[2, 4], [5, 1]] gives scores [3, 3], and the first alternative wins |
| `WorkedExample.RowCriteriaExample` | main.py:254-256 | on [[2, 4], [5, 1]]: pessimistic [2, 1] with winner 0, optimistic [4, 5] with winner 1, Hurwicz at 0.5 [3, 3] with winner 0 |
| `WorkedExample.SavageExample` | main.py:257 | on [[2, 4], [5, 1]] the regret matrix is [[3, 0], [0, 3]], the scores are [3, 3] and the minimising winner is 0 |
| `WorkedExample.SavageScoresExample` | main.py:257 | running `SavageScores` on [[2, 4], [5, 1]] gives scores [3, 3], and the minimising winner is 0 |

## Left out

- Rounding: `round(x, 2)` in Laplace and Hurwicz and floating-point accumulation of `number * prob` (main.py:83-84, main.py:100). Scores are exact reals, so the properties are stated about exact arithmetic.
- Non-finite and rounded floats: cells are finite reals. Typed-in cells go through NumPy's float conversion (main.py:35), which also accepts "inf", "nan" and literals too large for a float such as "1e400". Such cells are outside the model. On them `inf - inf` at main.py:117 gives `nan`, and `RegretNonNegative` and `RegretColumnHasZero` no longer describe the program.
- Float rounding in the Savage subtraction `maxim - number` (main.py:117) is left out; regrets are exact differences.
- Winners are chosen from exact scores. The program applies `max`/`min` and `index` (main.py:216, main.py:225, main.py:227) to rounded Laplace, Hurwicz and Savage scores. Rounding can make two scores equal that differ exactly, and the tie then goes to the lower index where `Select` on exact scores may pick another alternative.
- Integer width: NumPy arrays built from random integers are 64-bit and `maxim - number` could wrap in them. The model uses unbounded reals.
- Input and menus: `create_matrix`, `validate_integer_input`, `validate_option` and `main` (main.py:13-40, main.py:148-198, main.py:231-266) are interactive retry loops around `input()`. The facts they guarantee become preconditions: `rows, cols > 0` (main.py:159), a rectangular matrix (main.py:23, main.py:188-189) and `0 <= coef <= 1` (main.py:240).
- Random matrix generation with `np.random.randint` (main.py:188) is nondeterministic and a library call.
- Presentation: `generate_print_matrix` and the printing in `print_results_matrix` (main.py:43-65, main.py:213-228), including `tabulate`, `colorama` and `deepcopy`. Only the winner rule of that function is modelled.
- NumPy dtype details of `np.empty(...).tolist()` and `np.transpose`, and the `sleep` at exit (main.py:265).
- Hurwicz: the function itself does not check the coefficient. A coefficient outside [0, 1] is rejected only by the input loop at main.py:240, and no error is raised. `Hurwicz` accepts any coefficient, and the bound lemmas assume `0 <= coef <= 1`.
- Savage: the source takes each column's maximum just before rewriting that column, not all maxima first. The two orders agree because the columns are disjoint, and the loop invariants of `RegretInPlace` show this.
- Laplace: the probability `1/cols` comes from the first row (main.py:77). `Laplace` therefore divides every row sum by the first row's length, as the source does. The bound lemmas are stated for rectangular matrices.
