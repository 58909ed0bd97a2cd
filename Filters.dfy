/**
 * The dashboard's filter model: seven sidebar selections, each either the
 * sentinel "ALL" or a value, turned into a structured conjunction of
 * equality constraints and into the SQL text of the WHERE clause that every
 * dashboard query shares.
 */
module Filters {

  /** The sentinel a selection box shows when a dimension is not constrained. */
  const All: string := "ALL"

  /** The text used when no dimension is constrained. */
  const TrueClause: string := "1=1"

  /** The separator between two conjuncts of the WHERE clause. */
  const Separator: string := " AND "

  /** The filterable dimensions. */
  datatype Dimension = Segment | Category | Subcategory | Region | Priority | ShipMode | StateProvince

  /** The fixed order in which the builder looks at the dimensions. */
  const Order: seq<Dimension> := [Segment, Category, Subcategory, Region, Priority, ShipMode, StateProvince]

  /** Position of a dimension in Order. */
  function Rank(d: Dimension): (r: nat)
    ensures r < |Order| && Order[r] == d
  {
    match d
    case Segment => 0
    case Category => 1
    case Subcategory => 2
    case Region => 3
    case Priority => 4
    case ShipMode => 5
    case StateProvince => 6
  }

  /** The table alias and column each dimension constrains. */
  function Column(d: Dimension): string
  {
    match d
    case Segment => "c.segment"
    case Category => "p.category"
    case Subcategory => "p.subcategory"
    case Region => "a.region"
    case Priority => "o.priority"
    case ShipMode => "sh.shipmode"
    case StateProvince => "a.state_province"
  }

  /** The seven sidebar selections. */
  datatype Selection = Selection(
    segment: string,
    category: string,
    subcategory: string,
    region: string,
    priority: string,
    shipmode: string,
    stateProvince: string)

  /** The value selected for one dimension. */
  function Selected(sel: Selection, d: Dimension): string
  {
    match d
    case Segment => sel.segment
    case Category => sel.category
    case Subcategory => sel.subcategory
    case Region => sel.region
    case Priority => sel.priority
    case ShipMode => sel.shipmode
    case StateProvince => sel.stateProvince
  }

  /** A dimension constrains the queries when its selection is not the sentinel. */
  predicate IsSet(sel: Selection, d: Dimension)
  {
    Selected(sel, d) != All
  }

  /** The dimensions that constrain the queries. */
  function SetDimensions(sel: Selection): set<Dimension>
  {
    set d | d in Order && IsSet(sel, d)
  }

  /** One equality constraint `column = 'value'`. */
  datatype Constraint = Constraint(dim: Dimension, value: string)

  /**
   * The constraints produced by looking at the dimensions `ds` in turn and
   * appending one constraint for each set dimension, as the builder's list does.
   */
  function ConstraintsOver(sel: Selection, ds: seq<Dimension>): seq<Constraint>
  {
    if ds == [] then []
    else
      ConstraintsOver(sel, ds[..|ds| - 1]) + Part(sel, ds[|ds| - 1])
  }

  /** The structured predicate: a conjunction of constraints in the fixed order. */
  function Constraints(sel: Selection): seq<Constraint>
  {
    ConstraintsOver(sel, Order)
  }

  /** The dimensions of a sequence of constraints, in order. */
  function Dims(cs: seq<Constraint>): (ds: seq<Dimension>)
    ensures |ds| == |cs|
    ensures forall i :: 0 <= i < |cs| ==> ds[i] == cs[i].dim
  {
    seq(|cs|, i requires 0 <= i < |cs| => cs[i].dim)
  }

  /** The SQL text of one constraint, the value between single quotes, unescaped. */
  function Fragment(c: Constraint): string
  {
    Column(c.dim) + " = '" + c.value + "'"
  }

  /** The SQL text of each constraint, in order. */
  function Fragments(cs: seq<Constraint>): (fs: seq<string>)
    ensures |fs| == |cs|
    ensures forall i :: 0 <= i < |cs| ==> fs[i] == Fragment(cs[i])
  {
    if cs == [] then [] else Fragments(cs[..|cs| - 1]) + [Fragment(cs[|cs| - 1])]
  }

  /** `sep.join(parts)`: the parts with `sep` between neighbours. */
  function Join(parts: seq<string>, sep: string): string
  {
    if |parts| == 0 then ""
    else if |parts| == 1 then parts[0]
    else parts[0] + sep + Join(parts[1..], sep)
  }

  /** The clause text of a structured predicate; the empty conjunction is "1=1". */
  function Render(cs: seq<Constraint>): string
  {
    if cs == [] then TrueClause else Join(Fragments(cs), Separator)
  }

  /** The WHERE clause the dashboard splices into its queries. */
  function WhereClause(sel: Selection): string
  {
    Render(Constraints(sel))
  }

  /** The seven-column view of one joined row that the predicate looks at. */
  datatype Row = Row(
    segment: string,
    category: string,
    subcategory: string,
    region: string,
    priority: string,
    shipmode: string,
    stateProvince: string)

  function Attribute(row: Row, d: Dimension): string
  {
    match d
    case Segment => row.segment
    case Category => row.category
    case Subcategory => row.subcategory
    case Region => row.region
    case Priority => row.priority
    case ShipMode => row.shipmode
    case StateProvince => row.stateProvince
  }

  /** A row satisfies a conjunction when it has the required value on every constrained column. */
  predicate Satisfies(row: Row, cs: seq<Constraint>)
  {
    forall i :: 0 <= i < |cs| ==> Attribute(row, cs[i].dim) == cs[i].value
  }

  /** The constraint one dimension contributes: none when it is "ALL". */
  function Part(sel: Selection, d: Dimension): seq<Constraint>
  {
    if IsSet(sel, d) then [Constraint(d, Selected(sel, d))] else []
  }

  /** Appending to the constraint list appends the matching fragments. */
  lemma FragmentsAppendPart(cs: seq<Constraint>, sel: Selection, d: Dimension)
    ensures Fragments(cs + Part(sel, d))
         == Fragments(cs) + (if IsSet(sel, d) then [Fragment(Constraint(d, Selected(sel, d)))] else [])
  {
  }

  /**
   * The builder: start from an empty list and, for each dimension in the fixed
   * order (segment first, state/province last), append its fragment when its
   * selection is not "ALL".
   */
  method BuildFilters(sel: Selection) returns (filters: seq<string>)
    ensures filters == Fragments(Constraints(sel))
  {
    filters := [];
    for i := 0 to |Order|
      invariant filters == Fragments(ConstraintsOver(sel, Order[..i]))
    {
      var d := Order[i];
      FragmentsAppendPart(ConstraintsOver(sel, Order[..i]), sel, d);
      assert Order[..i + 1][..i] == Order[..i];
      if Selected(sel, d) != All {
        filters := filters + [Fragment(Constraint(d, Selected(sel, d)))];
      }
    }
    assert Order[..|Order|] == Order;
  }

  /** The builder's fragments joined by `Separator`, or `TrueClause` when there are none. */
  method BuildWhereClause(sel: Selection) returns (clause: string)
    ensures clause == WhereClause(sel)
  {
    var filters := BuildFilters(sel);
    if |filters| > 0 {
      clause := Join(filters, Separator);
    } else {
      clause := TrueClause;
    }
  }

  // ---------------------------------------------------------------------
  // Properties of the constraints

  /** Every dimension occurs in the fixed order, and the ranks increase along it. */
  lemma OrderRanks()
    ensures forall d: Dimension :: d in Order
    ensures forall i, j :: 0 <= i < j < |Order| ==> Rank(Order[i]) < Rank(Order[j])
  {
    forall d: Dimension ensures d in Order {
      assert Order[Rank(d)] == d;
    }
  }

  /** A constraint is produced exactly for a set dimension looked at, with its selected value. */
  lemma {:induction false} ConstraintsOverMembership(sel: Selection, ds: seq<Dimension>, c: Constraint)
    ensures c in ConstraintsOver(sel, ds) <==> c.dim in ds && IsSet(sel, c.dim) && c.value == Selected(sel, c.dim)
  {
    if ds != [] {
      var init := ds[..|ds| - 1];
      ConstraintsOverMembership(sel, init, c);
      assert ds == init + [ds[|ds| - 1]];
      assert c.dim in ds <==> c.dim in init || c.dim == ds[|ds| - 1];
    }
  }

  /** Looking at dimensions in increasing rank yields constraints in increasing rank. */
  lemma {:induction false} ConstraintsOverOrdered(sel: Selection, ds: seq<Dimension>)
    requires forall i, j :: 0 <= i < j < |ds| ==> Rank(ds[i]) < Rank(ds[j])
    ensures forall i, j :: 0 <= i < j < |ConstraintsOver(sel, ds)| ==>
              Rank(ConstraintsOver(sel, ds)[i].dim) < Rank(ConstraintsOver(sel, ds)[j].dim)
  {
    if ds != [] {
      var init := ds[..|ds| - 1];
      var last := ds[|ds| - 1];
      ConstraintsOverOrdered(sel, init);
      var cs := ConstraintsOver(sel, init);
      forall k | 0 <= k < |cs| ensures Rank(cs[k].dim) < Rank(last) {
        ConstraintsOverMembership(sel, init, cs[k]);
        var m :| 0 <= m < |init| && init[m] == cs[k].dim;
      }
    }
  }

  /**
   * The constraints follow the fixed order segment, category, subcategory,
   * region, priority, ship mode, state/province, so no dimension occurs twice,
   * and they are exactly the set dimensions with their selected values.
   */
  lemma ConstraintsShape(sel: Selection)
    ensures forall i, j :: 0 <= i < j < |Constraints(sel)| ==>
              Rank(Constraints(sel)[i].dim) < Rank(Constraints(sel)[j].dim)
    ensures forall i, j :: 0 <= i < j < |Constraints(sel)| ==> Constraints(sel)[i].dim != Constraints(sel)[j].dim
    ensures forall c :: c in Constraints(sel) <==> IsSet(sel, c.dim) && c.value == Selected(sel, c.dim)
  {
    OrderRanks();
    ConstraintsOverOrdered(sel, Order);
    forall c ensures c in Constraints(sel) <==> IsSet(sel, c.dim) && c.value == Selected(sel, c.dim) {
      ConstraintsOverMembership(sel, Order, c);
    }
  }

  /** A sequence without repetitions has as many distinct elements as it is long. */
  lemma {:induction false} DistinctCardinality(ds: seq<Dimension>)
    requires forall i, j :: 0 <= i < j < |ds| ==> ds[i] != ds[j]
    ensures |set d | d in ds| == |ds|
  {
    if ds != [] {
      var init := ds[..|ds| - 1];
      var last := ds[|ds| - 1];
      DistinctCardinality(init);
      assert (set d | d in ds) == (set d | d in init) + {last} by {
        assert ds == init + [last];
      }
      assert last !in init;
    }
  }

  /**
   * The clause has one conjunct per selection that is not "ALL": as many
   * constraints and as many fragments as there are set dimensions.
   */
  lemma ConstraintCount(sel: Selection)
    ensures |Constraints(sel)| == |SetDimensions(sel)|
    ensures |Fragments(Constraints(sel))| == |SetDimensions(sel)|
  {
    var cs := Constraints(sel);
    ConstraintsShape(sel);
    OrderRanks();
    var ds := Dims(cs);
    forall d | d in ds ensures d in SetDimensions(sel) {
      var k :| 0 <= k < |ds| && ds[k] == d;
      assert cs[k] in cs;
    }
    forall d | d in SetDimensions(sel) ensures d in ds {
      assert Constraint(d, Selected(sel, d)) in cs;
      var k :| 0 <= k < |cs| && cs[k] == Constraint(d, Selected(sel, d));
      assert ds[k] == d;
    }
    assert (set d | d in ds) == SetDimensions(sel);
    DistinctCardinality(ds);
  }

  // ---------------------------------------------------------------------
  // Properties of the clause text

  /** A join of at least one part begins with the first part. */
  lemma {:induction false} JoinStartsWithFirst(parts: seq<string>, sep: string)
    requires |parts| > 0
    ensures parts[0] <= Join(parts, sep)
  {
  }

  /** A join of at least one part ends with the last part. */
  lemma {:induction false} JoinEndsWithLast(parts: seq<string>, sep: string)
    requires |parts| > 0
    ensures var j := Join(parts, sep); var p := parts[|parts| - 1];
            |p| <= |j| && j[|j| - |p|..] == p
  {
    if |parts| > 1 {
      JoinEndsWithLast(parts[1..], sep);
    }
  }

  /** The value stands verbatim between the two single quotes after `column = `. */
  lemma FragmentShape(c: Constraint)
    ensures var f := Fragment(c); var n := |Column(c.dim)|;
            |f| == n + |c.value| + 5
            && f[..n] == Column(c.dim)
            && f[n..n + 4] == " = '"
            && f[n + 4..|f| - 1] == c.value
            && f[|f| - 1] == '\''
  {
  }

  /** Every fragment starts with a column alias letter, never with '1'. */
  lemma FragmentInitial(c: Constraint)
    ensures |Fragment(c)| > 0 && Fragment(c)[0] != TrueClause[0]
  {
  }

  /**
   * With every selection "ALL" the clause is exactly "1=1", and only then:
   * a clause with a conjunct starts with a column alias, never with '1'.
   */
  lemma WhereClauseTrueIff(sel: Selection)
    ensures WhereClause(sel) == TrueClause <==> forall d :: !IsSet(sel, d)
    ensures Constraints(sel) == [] <==> forall d :: !IsSet(sel, d)
  {
    var cs := Constraints(sel);
    ConstraintsShape(sel);
    forall d | IsSet(sel, d) ensures cs != [] {
      assert Constraint(d, Selected(sel, d)) in cs;
    }
    if cs != [] {
      var fs := Fragments(cs);
      JoinStartsWithFirst(fs, Separator);
      FragmentInitial(cs[0]);
      assert Join(fs, Separator)[0] == fs[0][0];
    }
  }

  /**
   * With at least one selection set, the clause is the fragments joined by
   * " AND ": it begins with the first constrained column and ends with the
   * closing quote of the last value, so there is no leading or trailing
   * separator.
   */
  lemma WhereClauseJoined(sel: Selection)
    requires exists d :: IsSet(sel, d)
    ensures |Constraints(sel)| > 0
    ensures WhereClause(sel) == Join(Fragments(Constraints(sel)), Separator)
    ensures WhereClause(sel) != TrueClause
    ensures Column(Constraints(sel)[0].dim) <= WhereClause(sel)
    ensures WhereClause(sel)[|WhereClause(sel)| - 1] == '\''
  {
    WhereClauseTrueIff(sel);
    var cs := Constraints(sel);
    var fs := Fragments(cs);
    JoinStartsWithFirst(fs, Separator);
    JoinEndsWithLast(fs, Separator);
    FragmentShape(cs[|cs| - 1]);
  }

  /** The two constraints of segment "Consumer" and region "West". */
  lemma ConsumerWestConstraints()
    ensures Constraints(Selection("Consumer", All, All, "West", All, All, All))
         == [Constraint(Segment, "Consumer"), Constraint(Region, "West")]
  {
    var sel := Selection("Consumer", All, All, "West", All, All, All);
    var consumer, west := Constraint(Segment, "Consumer"), Constraint(Region, "West");
    var d1: seq<Dimension> := [Segment];
    var d2 := d1 + [Category];
    var d3 := d2 + [Subcategory];
    var d4 := d3 + [Region];
    var d5 := d4 + [Priority];
    var d6 := d5 + [ShipMode];
    assert Order == d6 + [StateProvince];
    ConstraintsOverSnoc(sel, [], Segment);
    assert [] + [Segment] == d1;
    assert ConstraintsOver(sel, d1) == [consumer];
    ConstraintsOverSnoc(sel, d1, Category);
    ConstraintsOverSnoc(sel, d2, Subcategory);
    assert ConstraintsOver(sel, d3) == [consumer];
    ConstraintsOverSnoc(sel, d3, Region);
    assert ConstraintsOver(sel, d4) == [consumer, west];
    ConstraintsOverSnoc(sel, d4, Priority);
    ConstraintsOverSnoc(sel, d5, ShipMode);
    ConstraintsOverSnoc(sel, d6, StateProvince);
  }

  /** The fragment of segment "Consumer". */
  lemma ConsumerFragment()
    ensures Fragment(Constraint(Segment, "Consumer")) == "c.segment = 'Consumer'"
  {
  }

  /** The fragment of region "West". */
  lemma WestFragment()
    ensures Fragment(Constraint(Region, "West")) == "a.region = 'West'"
  {
  }

  /** The text of the two joined fragments. */
  lemma ConsumerWestText()
    ensures "c.segment = 'Consumer'" + Separator + "a.region = 'West'"
         == "c.segment = 'Consumer' AND a.region = 'West'"
  {
  }

  /** Two constraints render as their fragments around one separator. */
  lemma RenderTwo(c1: Constraint, c2: Constraint)
    ensures Render([c1, c2]) == Fragment(c1) + Separator + Fragment(c2)
  {
    var fs := Fragments([c1, c2]);
    assert fs == [Fragment(c1), Fragment(c2)];
    assert fs[1..] == [Fragment(c2)];
    assert Join(fs[1..], Separator) == Fragment(c2);
    assert Join(fs, Separator) == fs[0] + Separator + Join(fs[1..], Separator);
  }

  /** Segment "Consumer" and region "West", everything else "ALL". */
  lemma ConsumerWestExample()
    ensures WhereClause(Selection("Consumer", All, All, "West", All, All, All))
         == "c.segment = 'Consumer' AND a.region = 'West'"
  {
    ConsumerWestConstraints();
    RenderTwo(Constraint(Segment, "Consumer"), Constraint(Region, "West"));
    ConsumerFragment();
    WestFragment();
    ConsumerWestText();
  }

  /** Looking at one more dimension appends that dimension's part. */
  lemma ConstraintsOverSnoc(sel: Selection, ds: seq<Dimension>, d: Dimension)
    ensures ConstraintsOver(sel, ds + [d]) == ConstraintsOver(sel, ds) + Part(sel, d)
  {
  }

  // ---------------------------------------------------------------------
  // Meaning of the structured predicate

  /**
   * The empty conjunction (rendered "1=1") admits every row; the conjunction
   * of a selection admits a row exactly when the row carries the selected
   * value on every set dimension.
   */
  lemma SatisfiesSelection(sel: Selection, row: Row)
    ensures Render([]) == TrueClause && Satisfies(row, [])
    ensures Satisfies(row, Constraints(sel)) <==> forall d :: IsSet(sel, d) ==> Attribute(row, d) == Selected(sel, d)
  {
    var cs := Constraints(sel);
    ConstraintsShape(sel);
    if Satisfies(row, cs) {
      forall d | IsSet(sel, d) ensures Attribute(row, d) == Selected(sel, d) {
        assert Constraint(d, Selected(sel, d)) in cs;
        var k :| 0 <= k < |cs| && cs[k] == Constraint(d, Selected(sel, d));
      }
    }
    if forall d :: IsSet(sel, d) ==> Attribute(row, d) == Selected(sel, d) {
      forall k | 0 <= k < |cs| ensures Attribute(row, cs[k].dim) == cs[k].value {
        assert cs[k] in cs;
      }
    }
  }
}
