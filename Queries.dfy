/**
 * The five dashboard queries. Each is a fixed SQL template with one hole,
 * `WHERE {where_clause}`, into which the filter clause is spliced unchanged.
 * The SQL around the hole is treated as opaque text: the model only cares
 * that the same clause lands in every query, and that it can be read back.
 */
module Queries {
  import Filters

  datatype Option<T> = None | Some(value: T)

  /** The five aggregate views of the dashboard. */
  datatype Query = SalesOverTime | TopCategories | TopSegments | StateHeatmap | TotalSalesProfit

  /** The queries in the order the dashboard issues them. */
  const Issued: seq<Query> := [SalesOverTime, TopCategories, TopSegments, StateHeatmap, TotalSalesProfit]

  /** The join path shared by every query, up to the hole for the clause. */
  const JoinPath: string :=
    "FROM sales s\n"
    + "JOIN \"Order\" o ON s.orderguid = o.orderguid\n"
    + "JOIN customer c ON o.customerguid = c.customerguid\n"
    + "JOIN product p ON s.productguid = p.productguid\n"
    + "JOIN shipping sh ON o.shippingguid = sh.shippingguid\n"
    + "JOIN address a ON sh.addressguid = a.addressguid\n"
    + "WHERE "

  /** The select list of each query. */
  function SelectList(q: Query): string
  {
    match q
    case SalesOverTime =>
      "\nSELECT DATE_TRUNC('month', o.dateordered) as month, SUM(s.sales) as total_sales\n"
    case TopCategories =>
      "\nSELECT p.category, SUM(s.sales) AS total_sales\n"
    case TopSegments =>
      "\nSELECT c.segment, SUM(s.sales) AS total_sales\n"
    case StateHeatmap =>
      "\nSELECT a.state_code, CAST(REPLACE(REPLACE(CAST(SUM(s.sales) AS TEXT), '$', ''), ',', '') AS FLOAT) AS total_sales\n"
    case TotalSalesProfit =>
      "\nSELECT \n"
      + "    COALESCE(SUM(CAST(REPLACE(REPLACE(CAST(s.sales AS TEXT), '$', ''), ',', '') AS NUMERIC)), 0) AS total_sales,\n"
      + "    COALESCE(SUM(CAST(REPLACE(REPLACE(CAST(s.profit AS TEXT), '$', ''), ',', '') AS NUMERIC)), 0) AS total_profit\n"
  }

  /** Everything before the hole. */
  function Prefix(q: Query): string
  {
    SelectList(q) + JoinPath
  }

  /** Everything after the hole. */
  function Suffix(q: Query): string
  {
    match q
    case SalesOverTime => "\nGROUP BY DATE_TRUNC('month', o.dateordered)\nORDER BY month;\n"
    case TopCategories => "\nGROUP BY p.category\nORDER BY total_sales DESC LIMIT 5;\n"
    case TopSegments => "\nGROUP BY c.segment\nORDER BY total_sales DESC LIMIT 5;\n"
    case StateHeatmap => "\nGROUP BY a.state_code\n"
    case TotalSalesProfit => "\n"
  }

  /** The query text with `clause` in the hole. */
  function Instantiate(q: Query, clause: string): string
  {
    Prefix(q) + clause + Suffix(q)
  }

  /** The part of `text` between `prefix` and `suffix`, if `text` has that shape. */
  function Between(prefix: string, suffix: string, text: string): Option<string>
  {
    if |prefix| + |suffix| <= |text| && text[..|prefix|] == prefix && text[|text| - |suffix|..] == suffix
    then Some(text[|prefix|..|text| - |suffix|])
    else None
  }

  /** Reading back what was put between a prefix and a suffix gives it unchanged. */
  lemma BetweenSplice(prefix: string, middle: string, suffix: string)
    ensures Between(prefix, suffix, prefix + middle + suffix) == Some(middle)
  {
  }

  /** A text with the shape is its prefix, its middle and its suffix. */
  lemma SpliceBetween(prefix: string, suffix: string, text: string)
    ensures Between(prefix, suffix, text).Some? ==> prefix + Between(prefix, suffix, text).value + suffix == text
  {
  }

  /** Reads the clause back out of a query text, if the text fits the template. */
  function ExtractClause(q: Query, text: string): Option<string>
  {
    Between(Prefix(q), Suffix(q), text)
  }

  /** The clause spliced into a template is read back unchanged. */
  lemma ExtractInstantiate(q: Query, clause: string)
    ensures ExtractClause(q, Instantiate(q, clause)) == Some(clause)
  {
    BetweenSplice(Prefix(q), clause, Suffix(q));
  }

  /** A text that fits the template is the template with the extracted clause. */
  lemma InstantiateExtract(q: Query, text: string)
    ensures ExtractClause(q, text).Some? ==> Instantiate(q, ExtractClause(q, text).value) == text
  {
    SpliceBetween(Prefix(q), Suffix(q), text);
  }

  /** Different clauses give different query texts. */
  lemma InstantiateInjective(q: Query, c1: string, c2: string)
    requires Instantiate(q, c1) == Instantiate(q, c2)
    ensures c1 == c2
  {
    ExtractInstantiate(q, c1);
    ExtractInstantiate(q, c2);
  }

  /** The five query texts the dashboard issues for one filter selection. */
  function DashboardQueries(sel: Filters.Selection): seq<string>
  {
    var clause := Filters.WhereClause(sel);
    seq(|Issued|, i requires 0 <= i < |Issued| => Instantiate(Issued[i], clause))
  }

  /**
   * All five queries carry the one clause built from the selection: each is
   * its template's prefix, that clause and its template's suffix, and the
   * clause read back from any of them is the same.
   */
  lemma SameClauseInEveryQuery(sel: Filters.Selection)
    ensures |DashboardQueries(sel)| == |Issued|
    ensures forall i :: 0 <= i < |Issued| ==>
              DashboardQueries(sel)[i] == Prefix(Issued[i]) + Filters.WhereClause(sel) + Suffix(Issued[i])
    ensures forall i :: 0 <= i < |Issued| ==>
              ExtractClause(Issued[i], DashboardQueries(sel)[i]) == Some(Filters.WhereClause(sel))
  {
    forall i | 0 <= i < |Issued|
      ensures ExtractClause(Issued[i], DashboardQueries(sel)[i]) == Some(Filters.WhereClause(sel))
    {
      ExtractInstantiate(Issued[i], Filters.WhereClause(sel));
    }
  }

  /** With every selection "ALL", every query reads `WHERE 1=1`. */
  lemma UnfilteredQueries(sel: Filters.Selection)
    requires forall d :: !Filters.IsSet(sel, d)
    ensures forall i :: 0 <= i < |Issued| ==>
              DashboardQueries(sel)[i] == SelectList(Issued[i]) + JoinPath + "1=1" + Suffix(Issued[i])
  {
    Filters.WhereClauseTrueIff(sel);
  }
}
