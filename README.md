# Superstore dashboard: filter clause and currency stripping

This project models the logic of the Superstore sales dashboard (`app.py`)
that does not belong to the UI, the database or the charts:

- **The filter clause.** The sidebar has seven selections: segment,
  category, subcategory, region, order priority, ship mode and
  state/province. Each is either the sentinel `ALL` or a value. The dashboard
  builds a list of `alias.column = 'value'` fragments, one for each selection
  that is not `ALL`, in a fixed order. It joins them with ` AND `, or uses
  `1=1` when the list is empty (module `Filters`). Beside the text, the model
  has a structured form of the same predicate, for values without a single
  quote. This is a sequence of `Constraint(dimension, value)` with a "row
  satisfies" relation.
- **The five queries.** Monthly sales, top categories, top segments, the
  per-state heatmap and the sales/profit totals. Each is a fixed SQL template
  whose one hole receives the clause unchanged (module `Queries`). The SQL
  around the hole is opaque text.
- **Currency stripping.** Before a cast, every `$` and `,` is removed from
  a text amount. In SQL this is `REPLACE(REPLACE(x, '$', ''), ',', '')`. In
  pandas it is the regular expression `[\$,]` replaced by nothing. Both
  forms are modelled and proved equal (module `Currency`).

Selections are strings with the `ALL` sentinel, as in the source. A domain
value that is literally `ALL` is therefore treated as "no constraint". The
values are spliced between single quotes as they are, with no escaping, and
the model claims no escaping.

The source builds the list with seven `if` statements, one per dimension, in
the order segment, category, subcategory, region, priority, ship mode,
state/province. `Filters.BuildFilters` does the same work as one loop over
that fixed order. Each dimension has its own fixed column (`Filters.Column`).

Two facts about the code that the model keeps:

- Every `$` is removed wherever it occurs, not only a leading one, and so
  is every `,`.
- Selected values are not checked against the `SELECT DISTINCT` domains;
  any string other than `ALL` becomes a constraint.

## Model

| member | source | states |
|---|---|---|
| `Filters.BuildFilters` | app.py:35-49 | The list starts empty and gets one fragment per dimension that is not `ALL`, in the fixed order. It equals the fragments of the structured predicate `Constraints(sel)`. |
| `Filters.BuildWhereClause` | app.py:51 | The clause is the fragments joined by ` AND ` when the list is non-empty, and `1=1` otherwise. This equals `WhereClause(sel)`. |
| `Filters.Fragments` | app.py:37-49 | There is exactly one fragment per constraint, at the same position. |
| `Filters.FragmentShape` | app.py:37-49 | A fragment is the dimension's column, then ` = '`, then the value verbatim, then a closing `'`. |
| `Filters.ConstraintsShape` | app.py:36-49 | Constraints come in strictly increasing position of the fixed order, so no dimension appears twice. A constraint is present exactly when its dimension is not `ALL`, and it carries the selected value. |
| `Filters.ConstraintCount` | app.py:35-51 | The number of constraints, and the number of fragments, equals the number of selections that are not `ALL`. |
| `Filters.WhereClauseTrueIff` | app.py:51 | The clause is `1=1` if and only if all seven selections are `ALL`. The constraint list is empty under the same condition. |
| `Filters.WhereClauseJoined` | app.py:51 | When some selection is set, the clause is the fragments joined by ` AND `. It is not `1=1`. It starts with the first constrained column and ends with the closing quote, so no separator leads or trails. |
| `Filters.ConsumerWestConstraints` | app.py:36-49 | Segment `Consumer` and region `West`, all else `ALL`, gives exactly those two constraints, segment first. |
| `Filters.ConsumerWestExample` | app.py:36-51 | Segment `Consumer` and region `West`, all else `ALL`, gives `c.segment = 'Consumer' AND a.region = 'West'`. |
| `Filters.SatisfiesSelection` | app.py:51-62 | The empty predicate renders as `1=1` and admits every row. A row satisfies the selection's predicate exactly when it equals the selected value on every dimension that is not `ALL`. |
| `Filters.ConstraintsOverMembership` | app.py:36-49 | A constraint is collected from a list of dimensions if and only if its dimension is in the list and is not `ALL`, and its value is the selection. |
| `Filters.ConstraintsOverOrdered` | app.py:36-49 | Visiting dimensions in increasing order yields constraints in increasing order. |
| `Filters.JoinEndsWithLast` | app.py:51 | A join of at least one part ends with the last part. |
| `Queries.ExtractInstantiate` | app.py:54-127 | The clause spliced into any of the five templates is read back from the query text unchanged. |
| `Queries.InstantiateExtract` | app.py:54-127 | A text that fits a template is that template's prefix, then the clause read from it, then the template's suffix. |
| `Queries.InstantiateInjective` | app.py:54-127 | Two different clauses never give the same query text. |
| `Queries.SameClauseInEveryQuery` | app.py:51-127 | There are five queries. Each is its template's prefix, then the one `where_clause` built from the selection, then its template's suffix. The clause read back from each of them is that same clause. |
| `Queries.UnfilteredQueries` | app.py:51-127 | With every selection `ALL`, each of the five queries is its select list, then the join path, then `1=1`, then its suffix. |
| `Currency.StripCurrency` | app.py:198 | The pandas `[\$,]` replacement leaves no `$` and no `,`, and never lengthens the text. |
| `Currency.RemoveChar` | app.py:100 | SQL `REPLACE(x, c, '')` leaves no `c`. |
| `Currency.SqlStripMatchesRegex` | app.py:118-119 | The nested SQL `REPLACE` calls compute the same text as the pandas regular expression, for every input. |
| `Currency.StripConcat` | app.py:198 | Stripping works one character at a time, so it distributes over concatenation. |
| `Currency.StripKeepsClean` | app.py:198 | A text without `$` and `,` is unchanged. |
| `Currency.StripIdempotent` | app.py:198 | Stripping twice is the same as stripping once. |
| `Currency.StripCounts` | app.py:198 | The result has no `$` and no `,`. Every other character occurs as often as in the input. |
| `Currency.StripSubsequence` | app.py:198 | The result is a subsequence of the input, so the kept characters stay in their original order. |
| `Currency.StripExamples` | app.py:198 | `$1,234.50` becomes `1234.50`, and `$0` becomes `0`. |

## Left out

- Page configuration, the sidebar widgets and the `SELECT DISTINCT` domain queries (app.py:10-32). These are UI and database reads. The seven selections are inputs to the model.
- `create_engine`, `load_data` / `pd.read_sql` and all query execution (app.py:16-22, 66, 81, 96, 110, 129). These are foreign database calls.
- The meaning of the SQL text around the clause: joins, `GROUP BY`, `ORDER BY ... LIMIT 5`, `DATE_TRUNC`, `COALESCE`. PostgreSQL evaluates these. The structured predicate's "row satisfies" relation stands in for the `WHERE` filter alone.
- The numeric casts (`FLOAT`, `NUMERIC`, `.astype(float)`), the `isna()` check and `format_number` (app.py:100, 118-119, 132-145, 198). These need float parsing, division and formatting.
- Quote escaping and injection safety. The source does not escape values, and so neither does the model.
- The Plotly charts and the page layout (app.py:148-222). These are rendering.
- config.py: it reads environment variables and builds a connection URL. Its `if not DATABASE_URL` check can never fire, because the URL built just before it is never empty.
- General substring `REPLACE`. Only the one-character patterns `'$'` and `','` that the source uses are modelled.
- Python's `.format` and f-string substitution in general. The five templates contain no braces other than the one hole, so substitution is plain concatenation.
