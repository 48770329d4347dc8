/**
 * Row enrichment (`normalize_partners`): rename the partner column, derive the working
 * renewal date, the cohort and the numeric monthly cost, drop rows missing a partner name
 * or a working date, compute the days to renewal, and sort by (date, name).
 */
module Partners {
  import opened Wrappers
  import opened Seqs
  import opened Text
  import opened Lookup
  import opened Columns

  /** A spreadsheet cell: missing (NaN/None), or a value shown by its text. */
  datatype Cell = Blank | Value(text: string)

  /** `str(cell)` as `astype(str)` renders it: a missing cell renders as "nan". */
  function CellText(c: Cell): string {
    match c
    case Blank => "nan"
    case Value(t) => t
  }

  /** A pandas timestamp: nanoseconds since the epoch. */
  type Timestamp = int

  const NanosPerDay: int := 86_400_000_000_000

  /** A raw table: its header list, and its rows of cells by position. */
  datatype Table = Table(columns: seq<string>, rows: seq<seq<Cell>>) {
    ghost predicate WellFormed() {
      forall i :: 0 <= i < |rows| ==> |rows[i]| == |columns|
    }
  }

  /**
   * The library parsers, which this model takes as given. The two date parsers work on a
   * whole column (pandas infers the lenient format from the column) and return one result
   * per cell; the numeric parser works on one value.
   */
  datatype Parsers = Parsers(
    iso: seq<Cell> -> seq<Option<Timestamp>>,      // to_datetime(col, format="%Y-%m-%d", errors="coerce")
    lenient: seq<Cell> -> seq<Option<Timestamp>>,  // to_datetime(col, errors="coerce", dayfirst=False)
    numeric: Cell -> Option<real>)                 // to_numeric(value, errors="coerce")

  const CplColumn: string := "CPL"
  const CostColumn: string := "Monthly subscription cost"

  datatype Cohort = FacebookGroup | AllOtherPartners

  function CohortLabel(c: Cohort): string {
    match c
    case FacebookGroup => "Facebook Group cohort"
    case AllOtherPartners => "All Other Partners"
  }

  /** The exceptions `normalize_partners` raises. */
  datatype PipelineError =
    | MissingPartnerColumn          // KeyError: no partner column
    | MissingRenewalColumn          // KeyError: no renewal date column
    | NonUniqueLabel(header: string) // pandas refuses a label it reads by name that occurs twice

  /** A row with its derived columns, before rows are dropped. */
  datatype Enriched = Enriched(
    cells: seq<Cell>,
    name: Option<string>,
    working: Option<Timestamp>,
    cpl: Option<real>,
    cohort: Cohort,
    cost: Option<real>)

  /** A retained partner row. */
  datatype Partner = Partner(
    cells: seq<Cell>,
    name: string,
    renewal: Timestamp,
    cpl: Option<real>,
    cohort: Cohort,
    cost: Option<real>,
    days: int)

  /** The result of `normalize_partners`: the renamed header list and the partner rows. */
  datatype Normalized = Normalized(columns: seq<string>, partners: seq<Partner>)

  /** Where the columns read by name sit in the (renamed) header list. */
  datatype Layout = Layout(name: nat, renewal: nat, cpl: Option<nat>, cost: Option<nat>)

  predicate Fits(lay: Layout, width: nat) {
    && lay.name < width && lay.renewal < width
    && (lay.cpl.Some? ==> lay.cpl.value < width)
    && (lay.cost.Some? ==> lay.cost.value < width)
  }

  function Occurrences(columns: seq<string>, header: string): (n: nat)
    ensures n == 0 <==> header !in columns
  {
    if columns == [] then 0
    else (if columns[0] == header then 1 else 0) + Occurrences(columns[1..], header)
  }

  /** The first position of `header`; its only one when it occurs once. */
  function IndexOf(columns: seq<string>, header: string): (i: nat)
    requires header in columns
    ensures i < |columns| && columns[i] == header
    ensures Occurrences(columns, header) == 1 ==> forall j :: 0 <= j < |columns| && columns[j] == header ==> j == i
  {
    if columns[0] == header then
      assert Occurrences(columns, header) == 1 ==> header !in columns[1..];
      0
    else 1 + IndexOf(columns[1..], header)
  }

  /**
   * The first of `labels` that occurs more than once in the header list: every label
   * before it occurs at most once.
   */
  function FirstAmbiguous(columns: seq<string>, labels: seq<string>): (r: Option<string>)
    ensures r.None? <==> forall i :: 0 <= i < |labels| ==> Occurrences(columns, labels[i]) <= 1
    ensures r.Some? ==> r.value in labels && Occurrences(columns, r.value) > 1
    ensures r.Some? ==>
      exists n :: && 0 <= n < |labels| && labels[n] == r.value
                  && forall m :: 0 <= m < n ==> Occurrences(columns, labels[m]) <= 1
  {
    if labels == [] then None
    else if Occurrences(columns, labels[0]) > 1 then Some(labels[0])
    else
      var r := FirstAmbiguous(columns, labels[1..]);
      assert r.Some? ==>
        exists n :: && 0 <= n < |labels| && labels[n] == r.value
                    && forall m :: 0 <= m < n ==> Occurrences(columns, labels[m]) <= 1 by {
        if r.Some? {
          var n :| && 0 <= n < |labels[1..]| && labels[1..][n] == r.value
                   && forall m :: 0 <= m < n ==> Occurrences(columns, labels[1..][m]) <= 1;
          SingleBeforeShift(columns, labels, n);
        }
      }
      r
  }

  /** A label read once at the head, then `n` labels read once, make `n + 1` labels read once. */
  lemma SingleBeforeShift(columns: seq<string>, labels: seq<string>, n: nat)
    requires n + 1 < |labels| && Occurrences(columns, labels[0]) <= 1
    requires forall m :: 0 <= m < n ==> Occurrences(columns, labels[1..][m]) <= 1
    ensures labels[n + 1] == labels[1..][n]
    ensures forall m :: 0 <= m < n + 1 ==> Occurrences(columns, labels[m]) <= 1
  {
    forall m | 0 < m < n + 1 ensures Occurrences(columns, labels[m]) <= 1 {
      assert labels[m] == labels[1..][m - 1];
    }
  }

  /** The labels read by name, in the order `normalize_partners` reads them. */
  function LabelsRead(renewal: string): seq<string> {
    [renewal, CplColumn, CostColumn, PartnerColumn]
  }

  function LayoutOf(columns: seq<string>, renewal: string): (lay: Layout)
    requires renewal in columns && PartnerColumn in columns
    ensures Fits(lay, |columns|)
    ensures columns[lay.name] == PartnerColumn && columns[lay.renewal] == renewal
    ensures lay.cpl.Some? <==> CplColumn in columns
    ensures lay.cpl.Some? ==> columns[lay.cpl.value] == CplColumn
    ensures lay.cost.Some? <==> CostColumn in columns
    ensures lay.cost.Some? ==> columns[lay.cost.value] == CostColumn
  {
    Layout(
      IndexOf(columns, PartnerColumn),
      IndexOf(columns, renewal),
      if CplColumn in columns then Some(IndexOf(columns, CplColumn)) else None,
      if CostColumn in columns then Some(IndexOf(columns, CostColumn)) else None)
  }

  /** Every row is wide enough for the layout: pandas rows are as wide as the header list. */
  ghost predicate RowsFit(rows: seq<seq<Cell>>, lay: Layout) {
    forall i :: 0 <= i < |rows| ==> Fits(lay, |rows[i]|)
  }

  /** `out[renewal_col]`: the raw renewal cells. */
  function RenewalCells(rows: seq<seq<Cell>>, lay: Layout): (col: seq<Cell>)
    requires RowsFit(rows, lay)
    ensures |col| == |rows| && forall i :: 0 <= i < |rows| ==> col[i] == rows[i][lay.renewal]
  {
    seq(|rows|, i requires 0 <= i < |rows| && RowsFit(rows, lay) => rows[i][lay.renewal])
  }

  /** The parser's result for cell `i`; a result list shorter than the column gives NaT. */
  function At<T>(results: seq<Option<T>>, i: nat): Option<T> {
    if i < |results| then results[i] else None
  }

  /** `parsed_iso.fillna(parsed_fallback)` for one cell. */
  function WorkingDate(iso: Option<Timestamp>, lenient: Option<Timestamp>): (r: Option<Timestamp>)
    ensures iso.Some? ==> r == iso
    ensures iso.None? ==> r == lenient
    ensures r.None? <==> iso.None? && lenient.None?
  {
    if iso.Some? then iso else lenient
  }

  /** The cohort lambda: `FACEBOOK_COHORT if v in (15.0, 18.0) else OTHER_COHORT`. */
  function CohortOf(cpl: Option<real>): (c: Cohort)
    ensures c == FacebookGroup <==> cpl == Some(15.0) || cpl == Some(18.0)
  {
    match cpl
    case Some(v) => if v in [15.0, 18.0] then FacebookGroup else AllOtherPartners
    case None => AllOtherPartners
  }

  function NameOf(c: Cell): Option<string> {
    match c
    case Blank => None
    case Value(t) => Some(t)
  }

  /** One row's derived columns, given the two date parses of its renewal cell. */
  function EnrichRow(cells: seq<Cell>, iso: Option<Timestamp>, lenient: Option<Timestamp>,
                     lay: Layout, parse: Parsers): Enriched
    requires Fits(lay, |cells|)
  {
    var cpl := if lay.cpl.Some? then parse.numeric(cells[lay.cpl.value]) else None;
    var cost := if lay.cost.Some? then parse.numeric(Value(CleanCost(CellText(cells[lay.cost.value])))) else None;
    Enriched(cells, NameOf(cells[lay.name]), WorkingDate(iso, lenient), cpl, CohortOf(cpl), cost)
  }

  /** The derived columns of every row: working date, CPL, cohort and numeric cost. */
  function Enrich(rows: seq<seq<Cell>>, lay: Layout, parse: Parsers): (es: seq<Enriched>)
    requires RowsFit(rows, lay)
    ensures |es| == |rows|
    ensures forall i :: 0 <= i < |rows| ==> es[i].cells == rows[i]
  {
    var raw := RenewalCells(rows, lay);
    var iso, lenient := parse.iso(raw), parse.lenient(raw);
    seq(|rows|, i requires 0 <= i < |rows| => EnrichRow(rows[i], At(iso, i), At(lenient, i), lay, parse))
  }

  /**
   * The working renewal date of a row is the strict parse when that succeeded, else the
   * lenient parse; it is missing only when both failed.
   */
  lemma WorkingDateRule(rows: seq<seq<Cell>>, lay: Layout, parse: Parsers, i: nat)
    requires RowsFit(rows, lay)
    requires i < |rows|
    ensures var raw, w := RenewalCells(rows, lay), Enrich(rows, lay, parse)[i].working;
      var iso, lenient := At(parse.iso(raw), i), At(parse.lenient(raw), i);
      && (iso.Some? ==> w == iso)
      && (iso.None? ==> w == lenient)
      && (w.None? <==> iso.None? && lenient.None?)
  {
  }

  /** A row's partner name is missing exactly when its partner cell is, and is otherwise the cell's text. */
  lemma NameRule(rows: seq<seq<Cell>>, lay: Layout, parse: Parsers, i: nat)
    requires RowsFit(rows, lay)
    requires i < |rows|
    ensures var e := Enrich(rows, lay, parse)[i];
      && (e.name.None? <==> rows[i][lay.name] == Blank)
      && (rows[i][lay.name].Value? ==> e.name == Some(rows[i][lay.name].text))
  {
  }

  /**
   * A row is in the Facebook Group cohort exactly when the table has a CPL column and the
   * row's CPL is numerically 15 or 18; without a CPL column every row is in the other cohort,
   * and so is a row with a blank CPL cell when a blank cell has no numeric value.
   * The cohort label is always one of the two fixed labels.
   */
  lemma CohortRule(rows: seq<seq<Cell>>, lay: Layout, parse: Parsers, i: nat)
    requires RowsFit(rows, lay)
    requires i < |rows|
    ensures var e := Enrich(rows, lay, parse)[i];
      && (e.cohort == FacebookGroup <==>
            lay.cpl.Some? && parse.numeric(rows[i][lay.cpl.value]) in {Some(15.0), Some(18.0)})
      && (lay.cpl.None? ==> e.cohort == AllOtherPartners)
      && (lay.cpl.Some? && rows[i][lay.cpl.value] == Blank && parse.numeric(Blank) == None ==>
            e.cohort == AllOtherPartners)
      && CohortLabel(e.cohort) in {"Facebook Group cohort", "All Other Partners"}
  {
  }

  /**
   * The numeric cost of a row is the numeric parse of its cost text as `astype(str)` renders
   * it, cleaned down to `[0-9.-]` (`CleanCost` states what the cleaning keeps); without a
   * cost column every row's cost is missing.
   */
  lemma CostRule(rows: seq<seq<Cell>>, lay: Layout, parse: Parsers, i: nat)
    requires RowsFit(rows, lay)
    requires i < |rows|
    ensures var e := Enrich(rows, lay, parse)[i];
      && (lay.cost.None? ==> e.cost.None?)
      && (lay.cost.Some? ==> e.cost == parse.numeric(Value(CleanCost(CellText(rows[i][lay.cost.value])))))
  {
  }

  predicate Complete(e: Enriched) {
    e.name.Some? && e.working.Some?
  }

  /** Days from the as-of date to the renewal date's midnight, as `Timedelta.days` floors them. */
  function DaysToRenewal(renewal: Timestamp, asOf: Timestamp): (days: int)
    ensures var delta := (renewal / NanosPerDay) * NanosPerDay - asOf;
      days * NanosPerDay <= delta < (days + 1) * NanosPerDay
  {
    ((renewal / NanosPerDay) * NanosPerDay - asOf) / NanosPerDay
  }

  /** From an as-of date at midnight, the days to renewal are the difference of the day numbers. */
  lemma DaysToRenewalFromMidnight(renewal: Timestamp, asOfDay: int)
    ensures DaysToRenewal(renewal, asOfDay * NanosPerDay) == renewal / NanosPerDay - asOfDay
  {
    var d := renewal / NanosPerDay;
    assert d * NanosPerDay - asOfDay * NanosPerDay == (d - asOfDay) * NanosPerDay;
  }

  function ToPartner(e: Enriched, asOf: Timestamp): Partner
    requires Complete(e)
  {
    Partner(e.cells, e.name.value, e.working.value, e.cpl, e.cohort, e.cost,
            DaysToRenewal(e.working.value, asOf))
  }

  /** `dropna` on the partner name and the working date, then the Days to Renewal column. */
  function Retained(es: seq<Enriched>, asOf: Timestamp): (ps: seq<Partner>)
    ensures |ps| == |Filter(es, Complete)|
  {
    var kept := Filter(es, Complete);
    seq(|kept|, i requires 0 <= i < |kept| => ToPartner(kept[i], asOf))
  }

  /**
   * Exactly the complete rows are retained, each with its name, working date and derived
   * columns carried over and Days to Renewal computed from the as-of date.
   */
  lemma RetainedRows(es: seq<Enriched>, asOf: Timestamp)
    ensures forall p :: p in Retained(es, asOf) ==>
      exists i :: 0 <= i < |es| && Complete(es[i]) && p == ToPartner(es[i], asOf)
    ensures forall i :: 0 <= i < |es| && Complete(es[i]) ==> ToPartner(es[i], asOf) in Retained(es, asOf)
  {
    var kept := Filter(es, Complete);
    var ps := Retained(es, asOf);
    forall p | p in ps
      ensures exists i :: 0 <= i < |es| && Complete(es[i]) && p == ToPartner(es[i], asOf)
    {
      var k :| 0 <= k < |ps| && ps[k] == p;
      assert kept[k] in es;
      var i :| 0 <= i < |es| && es[i] == kept[k];
    }
    forall i | 0 <= i < |es| && Complete(es[i])
      ensures ToPartner(es[i], asOf) in ps
    {
      var k :| 0 <= k < |kept| && kept[k] == es[i];
      assert ps[k] == ToPartner(es[i], asOf);
    }
  }

  predicate Incomplete(e: Enriched) {
    !Complete(e)
  }

  /** The retained rows and the dropped rows together make up the enriched table. */
  lemma RetainedAndDropped(es: seq<Enriched>, asOf: Timestamp)
    ensures |Retained(es, asOf)| + |Filter(es, Incomplete)| == |es|
    ensures multiset(Filter(es, Complete)) + multiset(Filter(es, Incomplete)) == multiset(es)
  {
    FilterComplement(es, Complete, Incomplete);
  }

  /** A complete row is retained at the head of the table, an incomplete one is not. */
  lemma RetainedCons(es: seq<Enriched>, asOf: Timestamp)
    requires es != []
    ensures Retained(es, asOf)
      == (if Complete(es[0]) then [ToPartner(es[0], asOf)] else []) + Retained(es[1..], asOf)
  {
    var kept, rest := Filter(es, Complete), Filter(es[1..], Complete);
    var head := if Complete(es[0]) then [ToPartner(es[0], asOf)] else [];
    assert kept == (if Complete(es[0]) then [es[0]] else []) + rest;
    var lhs, rhs := Retained(es, asOf), head + Retained(es[1..], asOf);
    assert |lhs| == |rhs|;
    forall k | 0 <= k < |lhs| ensures lhs[k] == rhs[k] {
      assert lhs[k] == ToPartner(kept[k], asOf);
      if Complete(es[0]) && k > 0 {
        assert kept[k] == rest[k - 1];
      } else if !Complete(es[0]) {
        assert kept[k] == rest[k];
      }
    }
  }

  /** A partner row determines the complete enriched row it came from. */
  lemma ToPartnerInjective(a: Enriched, b: Enriched, asOf: Timestamp)
    requires Complete(a) && Complete(b) && ToPartner(a, asOf) == ToPartner(b, asOf)
    ensures a == b
  {
  }

  /** No complete row is dropped: each is retained exactly as often as it occurs. */
  lemma {:induction false} RetainedMultiplicity(es: seq<Enriched>, asOf: Timestamp, e: Enriched)
    requires Complete(e)
    ensures multiset(Retained(es, asOf))[ToPartner(e, asOf)] == multiset(es)[e]
  {
    if es != [] {
      var x := ToPartner(e, asOf);
      var head := if Complete(es[0]) then [ToPartner(es[0], asOf)] else [];
      RetainedCons(es, asOf);
      RetainedMultiplicity(es[1..], asOf, e);
      assert multiset(Retained(es, asOf))[x] == multiset(head)[x] + multiset(Retained(es[1..], asOf))[x];
      assert multiset(es)[e] == multiset([es[0]])[e] + multiset(es[1..])[e] by {
        assert es == [es[0]] + es[1..];
      }
      if Complete(es[0]) && ToPartner(es[0], asOf) == x {
        ToPartnerInjective(es[0], e, asOf);
      }
      assert multiset(head)[x] == multiset([es[0]])[e];
    }
  }

  /** The sort key order: by renewal timestamp, then by partner name. */
  predicate KeyLe(a: Partner, b: Partner) {
    a.renewal < b.renewal || (a.renewal == b.renewal && LexLe(a.name, b.name))
  }

  ghost predicate Sorted(ps: seq<Partner>) {
    forall i, j :: 0 <= i < j < |ps| ==> KeyLe(ps[i], ps[j])
  }

  lemma KeyLeTransitive(a: Partner, b: Partner, c: Partner)
    requires KeyLe(a, b) && KeyLe(b, c)
    ensures KeyLe(a, c)
  {
    if a.renewal == b.renewal == c.renewal {
      LexLeTransitive(a.name, b.name, c.name);
    }
  }

  /** Rows ordered both ways have the same key: the same working date and the same name. */
  lemma KeyLeAntisymmetric(a: Partner, b: Partner)
    requires KeyLe(a, b) && KeyLe(b, a)
    ensures a.renewal == b.renewal && a.name == b.name
  {
    if a.renewal == b.renewal {
      LexLeAntisymmetric(a.name, b.name);
    }
  }

  lemma KeyLeTotal(a: Partner, b: Partner)
    ensures KeyLe(a, b) || KeyLe(b, a)
  {
    LexLeTotal(a.name, b.name);
  }

  lemma PrependSorted(x: Partner, s: seq<Partner>)
    requires Sorted(s)
    requires forall y :: y in s ==> KeyLe(x, y)
    ensures Sorted([x] + s)
  {
    var r := [x] + s;
    forall i, j | 0 <= i < j < |r| ensures KeyLe(r[i], r[j]) {
      if i > 0 { assert r[i] == s[i - 1] && r[j] == s[j - 1]; }
      else { assert r[j] in s; }
    }
  }

  /** Insert `x` before the first row it does not sort after (so equal keys keep their order). */
  function Insert(x: Partner, s: seq<Partner>): (r: seq<Partner>)
    requires Sorted(s)
    ensures Sorted(r)
    ensures multiset(r) == multiset(s) + multiset{x}
  {
    if s == [] then [x]
    else if KeyLe(x, s[0]) then
      assert forall y :: y in s ==> KeyLe(x, y) by {
        forall y | y in s ensures KeyLe(x, y) {
          var j :| 0 <= j < |s| && s[j] == y;
          if j > 0 { KeyLeTransitive(x, s[0], y); }
        }
      }
      PrependSorted(x, s);
      [x] + s
    else
      var t := Insert(x, s[1..]);
      assert s == [s[0]] + s[1..];
      assert forall y :: y in t ==> KeyLe(s[0], y) by {
        KeyLeTotal(x, s[0]);
        forall y | y in t ensures KeyLe(s[0], y) {
          assert y in multiset(t);
          if y != x {
            assert y in s[1..];
            var j :| 0 <= j < |s[1..]| && s[1..][j] == y;
            assert s[j + 1] == y;
          }
        }
      }
      PrependSorted(s[0], t);
      [s[0]] + t
  }

  /** `sort_values(["Renewal Date (Working)", "Dealership Group Name"])`: sorted, and a permutation. */
  function SortPartners(ps: seq<Partner>): (r: seq<Partner>)
    ensures Sorted(r)
    ensures multiset(r) == multiset(ps)
  {
    if ps == [] then []
    else
      assert ps == [ps[0]] + ps[1..];
      Insert(ps[0], SortPartners(ps[1..]))
  }

  /**
   * `normalize_partners(df, as_of_date)`: the partner header is resolved and renamed to its
   * canonical name, the renewal header resolved on the renamed list; the result rows are
   * the retained enriched rows, sorted by (working date, partner name).
   */
  method NormalizePartners(t: Table, asOf: Timestamp, parse: Parsers) returns (res: Result<Normalized, PipelineError>)
    requires t.WellFormed()
    ensures res == Failure(MissingPartnerColumn) <==> Resolve(t.columns, [PartnerColumn]).None?
    ensures res == Failure(MissingRenewalColumn) <==>
      Resolve(t.columns, [PartnerColumn]).Some? && RenewalColumn(PartnerRenamed(t.columns)).None?
    ensures Resolve(t.columns, [PartnerColumn]).Some? && RenewalColumn(PartnerRenamed(t.columns)).Some? ==>
      var columns, renewal := PartnerRenamed(t.columns), RenewalColumn(PartnerRenamed(t.columns)).value;
      match FirstAmbiguous(columns, LabelsRead(renewal))
      case Some(header) => res == Failure(NonUniqueLabel(header))
      case None =>
        && res.Success?
        && res.value.columns == columns
        && Sorted(res.value.partners)
        && multiset(res.value.partners) == multiset(Retained(Enrich(t.rows, LayoutOf(columns, renewal), parse), asOf))
  {
    var out := t;
    var partnerCol := ResolveColumn(out.columns, PartnerColumn, []);
    assert [PartnerColumn] + [] == [PartnerColumn];
    if partnerCol.None? {
      return Failure(MissingPartnerColumn);
    }
    if partnerCol.value != PartnerColumn {
      out := out.(columns := Relabel(out.columns, partnerCol.value, PartnerColumn));
    }
    assert out.columns == PartnerRenamed(t.columns);
    var renewalCol := RenewalColumn(out.columns);
    if renewalCol.None? {
      return Failure(MissingRenewalColumn);
    }
    var ambiguous := FirstAmbiguous(out.columns, LabelsRead(renewalCol.value));
    if ambiguous.Some? {
      return Failure(NonUniqueLabel(ambiguous.value));
    }
    RenewalColumnSpec(out.columns);
    var layout := LayoutOf(out.columns, renewalCol.value);
    var enriched := Enrich(out.rows, layout, parse);
    var partners := Retained(enriched, asOf);
    partners := SortPartners(partners);
    return Success(Normalized(out.columns, partners));
  }
}
