# Freedom Radio transmitter dashboard — a Dafny model of its data core

The dashboard shows the Freedom Radio FM transmitters on Réunion island. It
builds a synthetic fleet of twelve transmitters and seven days of hourly
signal quality. It then renders these views: a filterable and sortable
details table, a power pie chart, a coverage heatmap and a maintenance
planner. This project models the data rules behind those views. The
rendering is not modelled.

Modules:

- `Text`:
  - code-point string order (`LexLe`), as Python and pandas compare strings;
  - decimal and zero-padded formatting (`{:03d}`, `{:02d}`);
  - `YYYY-MM-DD` dates, with the proof that string order on them is date order.
- `Ids`: transmitter identifiers `FR-` followed by a three-digit counter, and reading them back.
- `TableOps`:
  - `Select`, a pandas boolean mask that keeps the passing rows in order;
  - a stable sort that returns a sorted permutation.
- `Fleet`: the twelve sites and the fleet generator (`initialize_emitters`). Every random draw is a `SiteDraw` parameter.
- `Signal`: the hourly quality rule and the 7 × 24 samples per transmitter (`initialize_signal_data`). The draws are `DayDraw` parameters.
- `Details`: the status and power filters, the five sort keys, and the power-range counts of the pie chart.
- `Coverage`: one heatmap cell. It is the strongest linear-falloff signal among the active transmitters.
- `Maintenance`:
  - priority rules, the priority ranks and the schedule order;
  - the `En cours` / `Urgent` / `Planifié` badge.

Random choices, the current date and the distances are inputs. Each module
states the ranges the source draws from as a `Valid…` predicate.

## Model

| member | source | states |
|---|---|---|
| Signal.Clamp | Dashboard.py:182 | `max(0, min(100, x))` lies in [0, 100], is `x` itself inside that range, 0 below it and 100 above it |
| Signal.HourlyQuality | Dashboard.py:164-182 | hourly quality is always in [0, 100]; a transmitter under maintenance has quality exactly 0 at hours 2, 3 and 4, whatever the draws |
| Signal.NightNeverBetter | Dashboard.py:174-176 | with the same draws, an hour in 0–5 never has better quality than a day hour |
| Signal.QualityRanges | Dashboard.py:164-182 | with draws in range, quality is 0 if and only if the transmitter is under maintenance and the hour is 2–4; otherwise it lies in [54, 94.5] at night and in [60, 100] by day |
| Signal.EmitterHistory | Dashboard.py:160-184 | one transmitter's history has 24 samples per day, and sample `i` is hour `i % 24` of day `i / 24` |
| Signal.History | Dashboard.py:156-186 | the whole history has 168 rows per transmitter, grouped per transmitter in table order |
| Signal.HistoryRows | Dashboard.py:156-186 | every history row names its transmitter, has day < 7 and hour < 24, and has quality in [0, 100] |
| Signal.MaintenanceBlackout | Dashboard.py:170-172 | every history row of a transmitter under maintenance at hours 2–4 has quality 0 |
| Signal.HistoryRanges | Dashboard.py:163-183 | with every draw in range, a history row has quality 0 exactly in a maintenance window, quality at least 54 otherwise, and a sampled power within 10 % of the transmitter's power |
| Signal.RowsPerEmitter | Dashboard.py:156-186 | with distinct identifiers, selecting the rows of one transmitter's id gives exactly 168 rows |
| Ids.IdRoundTrip | Dashboard.py:136 | the identifier made from counter `n` reads back as `n` |
| Ids.IdInjective | Dashboard.py:136 | two identifiers are equal if and only if their counters are equal |
| Ids.IdShape | Dashboard.py:136 | counters up to 999 give six characters: `FR-` and three digits |
| Ids.IdOrder | Dashboard.py:136 | for counters up to 999, string order on identifiers is numeric order on counters |
| Text.DateStringOrder | Dashboard.py:600-611 | on well-formed dates, `YYYY-MM-DD` strings compare as strings exactly as the dates compare chronologically |
| Fleet.PowerFor | Dashboard.py:126-129 | the three main towns get 1000 W or more, every other town gets at most 500 W; power is always in [100, 5000] |
| Fleet.CoverageBounds | Dashboard.py:146 | `power × U(0.8, 1.2) / 10` lies in [0.08 × power, 0.12 × power] and is positive |
| Fleet.CoverageRadius | Dashboard.py:146 | the coverage radius lies in [0.08 × power, 0.12 × power] and is positive |
| Fleet.MakeEmitter | Dashboard.py:117-149 | a generated record has the counter's identifier, the town's name, coordinates within 0.05° of the site, the status the draw picks from the options list, a frequency in [88, 108], an altitude in [100, 1500], a power from the town's list, and coverage within 20 % of power / 10 |
| Fleet.GeneratedTextFields | Dashboard.py:144-148 | the technician is `Tech-0` followed by one digit whose value is 1 to 5. The installation date (2005–2022) sorts as a string strictly before the last maintenance date (2023–2024) |
| Fleet.SequentialIds | Dashboard.py:115-150 | identifiers from a counter starting at 1 are distinct, read back as position + 1, and sort as strings in position order |
| Fleet.GeneratedFleetFacts | Dashboard.py:115-150 | in a fleet generated with a counter from 1, every record has a distinct identifier that reads back as its position and sorts in position order, and a positive radius |
| Fleet.GenerateFleet | Dashboard.py:114-150 | the generator loop yields one record per site, in site order, the record at position `i` being made with counter `i + 1` |
| Fleet.InitializeEmitters | Dashboard.py:114-152 | the generator yields twelve records, one per site in site order, with distinct identifiers `FR-001`… that sort in generation order, each with positive coverage |
| Details.PowerRangesPartition | Dashboard.py:500-505 | the ranges `< 500W`, `500-1000W` and `> 1000W` cover every power, and no two overlap |
| Details.FilterTable | Dashboard.py:317-330 | the filtered table is the original order restricted to rows passing both the status filter and the power filter; a row is in it if and only if it is in the table and passes both |
| Details.FilterKeepsOrder | Dashboard.py:317-330 | filtering a table made of two parts gives the filtered first part followed by the filtered second part |
| Details.PowerCounts | Dashboard.py:500-505 | the three pie counts equal the sizes of the three power filters, and they sum to the table's length |
| Details.StatusLabelOrder | Dashboard.py:341-342 | sorting the status strings puts Actif before Inactif before Maintenance |
| Details.SortTable | Dashboard.py:332-342 | the sorted table is a permutation of its input. It is ascending by id, name, frequency or status label, and descending by power |
| Details.SortByIdIsGenerationOrder | Dashboard.py:333-334 | sorting by `ID` a fleet whose identifiers come from a counter starting at 1 (up to 999 records) returns the fleet in generation order, although the sort itself promises no stability |
| Details.DetailsView | Dashboard.py:317-342 | the displayed table is a permutation of exactly the rows passing both filters. It is ordered by the chosen key: ascending by id, name, frequency or status label, descending by power |
| Coverage.EmitterSignal | Dashboard.py:551-553 | a transmitter's signal lies in [0, 100]. It is 100 exactly at distance 0 and 0 exactly from the coverage radius on |
| Coverage.SignalDecreasesWithDistance | Dashboard.py:553 | a transmitter further away never gives a stronger signal |
| Coverage.CellSignal | Dashboard.py:547-554 | the cell value lies in [0, 100]. It is at least every active transmitter's signal, and it is either 0 or one of those signals |
| Coverage.CellValueUnique | Dashboard.py:547-554 | that characterisation of the cell value determines the value |
| Coverage.ComputeCell | Dashboard.py:547-554 | the loop computes the cell value of that characterisation, equal to `CellSignal` |
| Coverage.NoActiveMeansZero | Dashboard.py:547-549 | with no active transmitter the cell is 0 |
| Coverage.FullSignalAtActiveSite | Dashboard.py:549-554 | a grid point at distance 0 from an active transmitter has signal 100 |
| Coverage.InactiveIgnored | Dashboard.py:548-549 | removing a transmitter that is not active leaves the cell unchanged |
| Coverage.MoreEmittersNeverWeaker | Dashboard.py:547-554 | adding a transmitter never lowers a cell |
| Maintenance.Rank | Dashboard.py:609-610 | every priority label is a key of the `priority_order` dictionary, so the rank column has no missing value |
| Maintenance.RankOrder | Dashboard.py:609 | Élevée ranks before Moyenne, which ranks before Basse |
| Maintenance.PriorityOf | Dashboard.py:580-593 | under maintenance the priority is Élevée. Otherwise it is Élevée if and only if days < 7, Moyenne if and only if 7 ≤ days < 30, and Basse if and only if days ≥ 30 |
| Maintenance.PriorityMonotone | Dashboard.py:588-593 | more days until maintenance never gives a more urgent rank |
| Maintenance.MaintenanceMostUrgent | Dashboard.py:581-593 | a transmitter under maintenance is at least as urgent as any other |
| Maintenance.BuildRow | Dashboard.py:579-604 | a schedule row copies the transmitter's fields. Its next date is today under maintenance and the drawn date otherwise. Its task is one of the four tasks |
| Maintenance.BuildSchedule | Dashboard.py:577-606 | there is one row per transmitter, in table order, and every row under maintenance has priority Élevée |
| Maintenance.ScheduleOrderTotalPreorder | Dashboard.py:611 | ordering by (rank, date string) is total and transitive |
| Maintenance.SortSchedule | Dashboard.py:608-611 | the sorted schedule is a permutation of the rows. It is non-decreasing in rank, and within one priority it is non-decreasing in date string |
| Maintenance.SortScheduleStable | Dashboard.py:611 | the two-column sort is stable: rows with the same priority and the same next-maintenance date keep their table order |
| Maintenance.NextDateOrder | Dashboard.py:582-600 | for well-formed dates, comparing next-maintenance strings is comparing the dates chronologically |
| Maintenance.BadgeOfBuiltRow | Dashboard.py:619-624 | the badge is `En cours` if and only if the transmitter is under maintenance. It is `Urgent` if and only if the transmitter is not under maintenance and days < 7, and `Planifié` if and only if it is not under maintenance and days ≥ 7 |
| Maintenance.PlanifieIffNotTopRank | Dashboard.py:619-624 | on a consistent row, the badge is `Planifié` if and only if the rank is not Élevée |
| Maintenance.MaintenanceView | Dashboard.py:577-624 | the planner lists a permutation of the built rows in which no `Planifié` row comes before an `En cours` or `Urgent` row |
| Maintenance.EnCoursBeforeUrgent | Dashboard.py:580-611 | with draws in range, no `Urgent` row comes before an `En cours` row: both rank Élevée, and an `Urgent` row is due strictly after today |
| TableOps.InsertionSort | Dashboard.py:333-342 | the sort stand-in returns a permutation of its input, sorted by any total preorder |
| TableOps.InsertionSortStable | Dashboard.py:611 | the sort stand-in is stable: within every class of rows tied under the order, rows keep their input order |

## Left out

- Rendering is not modelled: Streamlit layout, CSS, Plotly charts, the Folium map and the metrics panel.
- The current-quality snapshot, the random sample of five transmitters and the group-by means are not modelled. They only feed charts.
- Distances are inputs of the coverage cell. The square root of the squared degree differences is floating point, so it is not modelled.
- The 50 × 50 `linspace` grid is not modelled. The model covers one cell, the same for every grid point.
- `round(…, 1)` on frequency and coverage is not modelled. Values are kept unrounded, so the contracts hold for the unrounded draws.
- Calendar arithmetic (`now + Timedelta(days)`) is not modelled. The due date is a `ScheduleDraw` input, next to the days drawn. Today's date is an input. The draw's range (`ValidScheduleDraw`) requires the due date to be strictly after today, which is what adding at least one day gives.
- Signal timestamps (`now - Timedelta(days=day)`) are not modelled. A sample keeps the day offset instead.
- Random draws are parameters. The model does not follow the order in which the generator consumes the random stream. For example, `randint(1, 90)` is drawn only for transmitters not under maintenance.
- Coverage.CellSignal: requires a positive radius for every active transmitter. numpy would give `inf` or `nan` on a zero radius instead. Generated radii are always at least 8 km (`Fleet.CoverageBounds`).
- Details.SortTable: promises a sorted permutation but not stability. pandas' default single-column sort is not stable, so rows with equal keys may come in any order.
- Maintenance.SortSchedule: its own contract states only a sorted permutation. Stability is stated separately, by `Maintenance.SortScheduleStable`. pandas sorts on two columns with a stable lexsort, so rows with equal rank and date keep their table order.
- Coverage.EmitterSignal: Python floats are modelled as exact reals. The reverse halves of its two if-and-only-if clauses hold only in exact arithmetic. In IEEE doubles, a tiny positive distance can still round to a signal of exactly 100.0, and a distance just below the radius can round to exactly 0.0.
- Floating point in general is modelled as exact reals: quality, jitter, power factors, coordinates and coverage. The ranges stated by the contracts are exact-real facts.
