# UPS vs NPS pay and pension engine, in Dafny

This project models the engine behind the UPS/NPS comparison dashboards. It
covers three things:

- how one pay matrix per future pay-commission (CPC) cycle is built from the
  7th CPC matrix and the DA history;
- the month-by-month career simulation from joining to retirement. Each month
  runs, in order: CPC switch, DA reset and accrual, DA amount, annual
  increment, promotion and NPS accrual, then appends one ledger record;
- the figures at retirement: UPS pension and lumpsum, NPS annuity and
  lumpsum, and the totals paid over the years lived after retirement.

The engine is written twice: once in `dashboard.py`, and once in
`Dash/pages/Dashboard.py`, which adds the payout figures. Both share one model.

Modules, one per file:

- `Common` (`common.dfy`): the `Result` type and the three failures the code
  can raise: a retirement date that does not exist, an initial cell missing
  from the base matrix, and a read of the last record of an empty ledger.
- `Calendar` (`calendar.dfy`): dates and month starts.
  - The retirement date reuses the joining month and day.
  - The timeline is the list of month starts between joining and retirement.
  - It also gives the service months and the completed six-month periods.
- `PayMatrix` (`pay_matrix.dfy`): the DA rate in force on a cycle's reference
  date, the fitment factor, pandas' half-to-even rounding, and
  `GenerateCpcTables`. That is the loop that appends one revised matrix per
  cycle.
- `Career` (`career.dfy`): one month as a function `Step`, and the whole run
  as a function `Run`.
  - `SimulateMonth` and `Simulate` are the loop body and the loop, written
    imperatively and proved equal to `Step` and `Run`.
  - Lemmas about `Run` state what the dashboard promises: the cycle pointer,
    DA, levels, the corpus, and that the pay stays on the matrix.
- `Retirement` (`retirement.dfy`): the pension and lumpsum formulas, and the
  post-retirement loop `TotalUpsPaid` with its closed form.
- `Dashboard` (`dashboard.dfy`): the top-level flow of both pages, from their
  inputs to their outputs, with their failures in the order the code meets
  them.

The representation:

- A pay matrix is a finite map from a cell (level, pay position) to basic pay.
  A level is its index in the sorted list of levels.
- DA is a count of steps of 0.03, so the rate is `0.03 * steps`.
- The NPS monthly growth factor is a parameter (`Config.growth`).
- The clock's current year is an input (`Inputs.currentYear`).
- The levels are those of the base matrix: `Dashboard.ValidInputs` requires
  the level count to be the number of distinct levels in it, and the initial
  level to be one of them, as the level list and the level picker give.

What the code does, as the model follows it:

- The timeline is `pd.date_range(joining, retirement, freq='MS')`. It starts
  at the first month start on or after joining, so the joining month is
  included only when joining on the 1st. A career therefore has 12 records
  per year of service, plus one when joining on the 1st.
- The UPS monthly pension shown is 0.5 × final basic.
- Each post-retirement month pays pension × (1 + DA). That DA starts at the
  DA at retirement and rises by 0.03 every six months.
- The cycle switch waits only for January of the next cycle's own year. So
  anyone whose first simulated month is after January 2026 never reaches the
  8th CPC, and therefore never reaches the 9th to 11th either. They stay on
  the 7th CPC matrix for the whole career (`Career.LateStartNeverSwitches`,
  `Dashboard.LateJoinerStaysOnBaseCycle`).

## Model

| member | source | states |
|---|---|---|
| Calendar.RetirementDate | Dash/pages/Dashboard.py:89-90 | The retirement date is the joining month and day in year current year + (retirement age − current age). It fails (InvalidRetirementDate) exactly for a 29 February joining in a non-leap retirement year. |
| Calendar.MonthStarts | Dash/pages/Dashboard.py:91 | The timeline holds valid month starts that lie within [joining, retirement]. They are consecutive from the first month start on or after joining, with the length that implies. |
| Calendar.MonthStartsComplete | Dash/pages/Dashboard.py:91 | Every month start in [joining, retirement] is on the timeline. |
| Calendar.TimelineLength | Dash/pages/Dashboard.py:89-94 | Service months are 12 × the year difference. The timeline has that many month starts, plus one when joining on the 1st. It is empty exactly when retirement is in an earlier year, or in the same year after a mid-month joining. |
| PayMatrix.LatestOnOrBefore | Dash/pages/Dashboard.py:56-58 | Returns the index of a DA entry dated on or before the reference date that no other qualifying entry post-dates. Returns −1 exactly when no entry qualifies. |
| PayMatrix.ReferenceDa | Dash/pages/Dashboard.py:55-60 | The DA rate is 0 when no entry is on or before the reference date. Otherwise it is the rate of a qualifying entry with the latest date. |
| PayMatrix.EmptyDaHistoryFitment | Dash/pages/Dashboard.py:59-61 | With no DA history, the fitment is 1 + the pay-commission increase. |
| PayMatrix.RoundHalfEven | Dash/pages/Dashboard.py:63 | The result is within 0.5 of the argument, and is even on a tie. |
| PayMatrix.RoundHalfEvenUnique | Dash/pages/Dashboard.py:63 | Those two properties determine the rounding uniquely. |
| PayMatrix.RoundMonotone | Dash/pages/Dashboard.py:63 | Rounding preserves order. |
| PayMatrix.Revise | Dash/pages/Dashboard.py:62-63 | The revised matrix has exactly the cells of the previous one. Each pay is the previous pay × fitment, rounded. |
| PayMatrix.RevisionNeverLowersPay | Dash/pages/Dashboard.py:61-63 | A fitment ≥ 1 never lowers a non-negative pay. |
| PayMatrix.RevisionKeepsPayOrder | Dash/pages/Dashboard.py:61-63 | A non-negative fitment keeps pay non-decreasing in the position within a level. |
| PayMatrix.FitmentAtLeastOne | Dash/pages/Dashboard.py:55-61 | With a non-negative DA history and increase, every cycle's fitment is at least 1. |
| PayMatrix.GeneratedPayOrdered | Dash/pages/Dashboard.py:53-65 | If the base matrix pays no less at a higher position within a level, so does every matrix generated from it, given a non-negative DA history and increase. |
| PayMatrix.CycleLabelsDistinct | Dash/pages/Dashboard.py:9-15 | The labels 7CPC to 11CPC of the base cycle and the four future cycles are pairwise distinct. |
| PayMatrix.GenerateCpcTables | Dash/pages/Dashboard.py:49-66 | There is one matrix per cycle plus the base, with the base first. Each cycle's matrix is revised from the one just before it with that cycle's fitment, in schedule order. Matrix p carries cycle p's label, and every matrix has the base's cells. The older dashboard's copy (dashboard.py lines 28-45) is identical. |
| PayMatrix.TotalRowsOfGeneration | Dash/pages/Dashboard.py:50-66 | The concatenated matrices have (cycles + 1) × (base rows) rows. |
| Career.SwitchCpc | Dash/pages/Dashboard.py:116-127 | A switch advances the pointer by one and resets DA. It takes the same cell's pay in the new matrix, and keeps the old pay when that cell is absent. |
| Career.Increment | Dash/pages/Dashboard.py:137-142 | The position rises by one exactly when the next cell exists in the active matrix, and the pay becomes that cell's. Otherwise nothing changes. |
| Career.Promote | Dash/pages/Dashboard.py:145-153 | The level rises by one exactly when below the top level and when position 1 of the next level exists; the position becomes 1 and the pay that cell's. Otherwise nothing changes. |
| Career.StepSwitch | Dash/pages/Dashboard.py:113-131 | The pointer advances by one exactly in January of the next cycle's year. The record names that cycle, or "" otherwise. DA becomes one step on a switch, and otherwise gains a step in January and July. The record shows the month, the DA and the active label. |
| Career.StepCareer | Dash/pages/Dashboard.py:136-153 | The level rises by at most one, only on a due promotion, never to the top count or beyond, and then lands on position 1. Otherwise the position moves only on a due increment, by exactly one. |
| Career.StepMoney | Dash/pages/Dashboard.py:133-157 | DA amount, emoluments and contribution use the pay in force before the month's increment and promotion. The contribution is added to the corpus before it grows. |
| Career.Step | Dash/pages/Dashboard.py:110-172 | One month of the loop. The cycle pointer stays within the schedule; the month's effects are stated by Career.StepSwitch, Career.StepCareer and Career.StepMoney. |
| Career.Run | Dash/pages/Dashboard.py:109-172 | One record per month, and record i is for month i. |
| Career.SimulateMonth | Dash/pages/Dashboard.py:110-172 | The loop body, updating the loop's variables in the code's order, equals `Step`. The body of the older dashboard's loop (dashboard.py lines 96-158) is the same. |
| Career.Simulate | Dash/pages/Dashboard.py:99-172 | Fails (MissingInitialRow) exactly when the initial cell is missing from the base matrix. Otherwise the ledger and final state are `Run` from the initial cell's base pay, with no DA and an empty corpus. The initial lookup has no fallback, here and in the older dashboard (dashboard.py line 91). |
| Career.RunPrefix | Dash/pages/Dashboard.py:109-172 | Simulating a prefix of the months yields the same prefix of the ledger. |
| Career.RunRecord | Dash/pages/Dashboard.py:109-172 | Record i is the step taken from the state reached after the first i months. |
| Career.RunSwitches | Dash/pages/Dashboard.py:113-119 | The final pointer is the initial one plus the number of switch records. The k-th switch applies the k-th next cycle under its label, in January of its year, with DA at one step, so no cycle is skipped or repeated. |
| Career.RunLastRecord | Dash/pages/Dashboard.py:159-172 | The last record shows the final level, position, pay, DA, corpus and cycle label. |
| Career.RunLevels | Dash/pages/Dashboard.py:144-153 | Levels never fall, rise by at most one per month and stay below the level count. |
| Career.RunDa | Dash/pages/Dashboard.py:107-131 | The final DA step count is the number of January/July months since the last switch, switch month included. With no switch it is the initial count plus those of all months. |
| Career.StepCorpusGrows | dashboard.py:142-143 | With rate ≥ 0, growth ≥ 1 and a non-negative pay, the month's contribution is non-negative and the corpus does not shrink. |
| Career.RunCorpus | dashboard.py:142-143 | Under the same conditions, the pay stays non-negative, every contribution is non-negative and the corpus never falls from one record to a later one. |
| Career.StepStaysOnMatrix | Dash/pages/Dashboard.py:116-153 | When all matrices share their cells, a month that starts on the matrix ends on it. |
| Career.RunStaysOnMatrix | Dash/pages/Dashboard.py:116-153 | Then the basic pay is always the current cell's pay in the current cycle's matrix. |
| Career.LateStartNeverSwitches | Dash/pages/Dashboard.py:116 | If every month is after January of the next cycle's year, the pointer never moves: no record applies a cycle, and all carry the current label. |
| Retirement.NpsCorpusSplit | Dash/pages/Dashboard.py:178-183 | The NPS lumpsum and the annuitised share add up to the corpus. |
| Retirement.UpsLumpsumPerYear | Dash/pages/Dashboard.py:182 | With whole years of service, the lumpsum is a fifth of the final basic pay per year. |
| Retirement.TotalUpsPaid | Dash/pages/Dashboard.py:188-195 | The loop's total is the sum of the monthly pensions at the rising DA. In closed form it is the pension × (months × (1 + DA at retirement) + 0.03 × Σ⌊i/6⌋). |
| Retirement.UpsPaidClosedForm | Dash/pages/Dashboard.py:188-195 | The closed form of the UPS total over any number of months. |
| Retirement.FloorSixSumClosed | Dash/pages/Dashboard.py:192-193 | Σ_{i<n} ⌊i/6⌋ = 3q(q−1) + rq, where n = 6q + r. |
| Retirement.UpsTotalOverYears | Dash/pages/Dashboard.py:185-195 | Over y whole years, the UPS total is the pension × (12y × (1 + DA at retirement) + 0.18·y·(2y − 1)). |
| Retirement.NpsTotalOverYears | Dash/pages/Dashboard.py:196-197 | Over y whole years, the NPS annuity pays y annual annuity amounts. |
| Retirement.RetirementFigures | Dash/pages/Dashboard.py:176-197 | Fails (EmptyLedger) exactly on an empty ledger. Otherwise the figures are: pension and lumpsum from the final pay; DA from the last record; the UPS total from the loop; NPS annuity, lumpsum and totals from the final corpus. |
| Retirement.FiguresTotals | Dash/pages/Dashboard.py:185-197 | The figures' UPS and NPS totals in closed form over the years after retirement. |
| Dashboard.Project | Dash/pages/Dashboard.py:67-172 | Fails with InvalidRetirementDate, or else MissingInitialRow, exactly in those cases. Otherwise the matrices, retirement date, timeline, service and ledger are the ones the page computes. |
| Dashboard.ProjectionTimeline | Dash/pages/Dashboard.py:89-94 | Service is 12 × the service years, and the ledger has 12 × years records, plus one when joining on the 1st. The ledger is empty exactly for an empty timeline, and its records are on consecutive months. |
| Dashboard.BasicDashboard | dashboard.py:160-172 | The older page fails only as the projection does. Otherwise it shows the UPS pension, the annual NPS annuity and its monthly twelfth, from the final pay and corpus. |
| Dashboard.PensionPage | Dash/pages/Dashboard.py:174-197 | Fails as the projection does, or with EmptyLedger exactly for an empty timeline. Otherwise the figures are those of the projection's run. |
| Dashboard.ProjectionOnMatrix | Dash/pages/Dashboard.py:105-153 | On a projection, the final pay is the final cell's pay in the final cycle's matrix. |
| Dashboard.ProjectionLevels | Dash/pages/Dashboard.py:144-153 | On a projection, the level starts at the initial level, never falls, rises by at most one a month and never passes the highest level of the base matrix. |
| Dashboard.ProjectionPayOrdered | Dash/pages/Dashboard.py:49-67 | If the base matrix pays no less at a higher position within a level, so does every matrix of the projection, given a non-negative DA history and increase. |
| Dashboard.LateJoinerStaysOnBaseCycle | Dash/pages/Dashboard.py:103-119 | If the first simulated month is after January 2026, the base 7CPC cycle is never left. |

## Left out

**Outside the model.**
- The Streamlit interface (sliders, tables, markdown) and `Dash/about.py`, which is static text.
- `load_data`: reading the Excel files and cleaning them with pandas. The base matrix and the DA history are inputs.
- `datetime.now()`: its year is the input `currentYear`.
- The NPS growth factor `(1 + r) ** (1/12)`: it is the parameter `growth`. The corpus lemmas assume it is at least 1.
- `create_new_cpc_matrix`: nothing calls it.
- A systematic-withdrawal plan and annuity growth: neither has any code in these files.

**Arithmetic.**
- Floating point: amounts are exact reals and basic pay is an unbounded integer. Float rounding drift and int64 limits are not modelled.
- The rounding of each record's display columns is not modelled. The "DA Rate" column, `round(current_da, 2)`, is read back as the DA at retirement. For an exact multiple of 0.03 that rounding changes nothing, so the model reads the record's DA steps directly.
- ReferenceDa: among DA entries sharing the latest date, the model takes the first in table order. The source's sort is not stable, so it does not fix which one it takes.

**Representation.**
- Cycle labels: the code finds a cycle's matrix by querying the concatenated table by label. The model indexes the list of matrices by position. The two agree: `GenerateCpcTables` proves that position p carries cycle p's label, and `CycleLabelsDistinct` proves that the labels are distinct.
- A 29 February joining date with a non-leap retirement year makes `datetime(...)` raise. The model returns `Err(InvalidRetirementDate)` instead.
