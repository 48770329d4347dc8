/**
 * Column resolution (`resolve_column`, `resolve_renewal_column`), the renaming of the
 * partner column, and the required-column check the dashboard runs before normalising
 * a table. Headers are compared by their normalised form.
 */
module Columns {
  import opened Wrappers
  import opened ColumnNames
  import opened Lookup

  const PartnerColumn: string := "Dealership Group Name"
  const RenewalColumnName: string := "Actual renewal date"
  const RenewalAliases: seq<string> := ["Actual Renewal Date", "Renewal Date", "renewal date"]
  /** Column M: the renewal date's position when no header matches by name. */
  const RenewalFallbackIndex: nat := 12

  /** The names tried for the renewal column, in order. */
  function RenewalNames(): seq<string> {
    [RenewalColumnName] + RenewalAliases
  }

  /** `{normalize_colname(c): c for c in df.columns}` */
  function HeaderIndex(columns: seq<string>): map<string, string> {
    IndexBy(columns, Normalize)
  }

  /** What `resolve_column(df, wanted[0], wanted[1..])` returns. */
  function Resolve(columns: seq<string>, wanted: seq<string>): (r: Option<string>)
    ensures r.Some? ==> r.value != ""
  {
    FirstHit(HeaderIndex(columns), wanted, Normalize)
  }

  /**
   * `resolve_column` returns nothing exactly when no wanted name normalises like a
   * non-empty header; otherwise it returns a header found by the first wanted name that
   * does: the last header with that normalised form.
   */
  lemma ResolveSpec(columns: seq<string>, wanted: seq<string>)
    ensures Resolve(columns, wanted).None? <==> forall n :: 0 <= n < |wanted| ==> !Hit(columns, Normalize, wanted[n])
    ensures Resolve(columns, wanted).Some? ==>
      exists n :: && 0 <= n < |wanted|
                  && Finds(columns, Normalize, wanted[n], Resolve(columns, wanted).value)
                  && forall m :: 0 <= m < n ==> !Hit(columns, Normalize, wanted[m])
  {
    FirstHitSpec(columns, Normalize, wanted);
  }

  /** What `resolve_column` returns is one of the table's non-empty headers. */
  lemma ResolvedIsHeader(columns: seq<string>, wanted: seq<string>)
    requires Resolve(columns, wanted).Some?
    ensures Resolve(columns, wanted).value in columns && Resolve(columns, wanted).value != ""
  {
    ResolveSpec(columns, wanted);
    var n :| 0 <= n < |wanted| && Finds(columns, Normalize, wanted[n], Resolve(columns, wanted).value);
    FoundIsHeader(columns, Normalize, wanted[n], Resolve(columns, wanted).value);
  }

  /** `resolve_column`: build the normalised index, then try the target and each alias in turn. */
  method ResolveColumn(columns: seq<string>, target: string, aliases: seq<string>) returns (r: Option<string>)
    ensures r == Resolve(columns, [target] + aliases)
  {
    var wanted := [target] + aliases;
    var index := HeaderIndex(columns);
    for i := 0 to |wanted|
      invariant FirstHit(index, wanted, Normalize) == FirstHit(index, wanted[i..], Normalize)
    {
      var w := wanted[i];
      var key := Normalize(w);
      assert FirstHit(index, wanted[i..], Normalize)
        == if key in index && index[key] != "" then Some(index[key]) else FirstHit(index, wanted[i + 1..], Normalize) by {
        assert wanted[i..][0] == w && wanted[i..][1..] == wanted[i + 1..];
      }
      if key in index && index[key] != "" {
        return Some(index[key]);
      }
    }
    return None;
  }

  /** `resolve_renewal_column`: by name first, else the header at position 12 when there is one. */
  function RenewalColumn(columns: seq<string>): (r: Option<string>)
    ensures r.Some? ==> r.value in columns
  {
    var named := Resolve(columns, RenewalNames());
    if named.Some? then
      ResolvedIsHeader(columns, RenewalNames());
      named
    else if |columns| > RenewalFallbackIndex then Some(columns[RenewalFallbackIndex])
    else None
  }

  /**
   * A name match is always preferred; without one the renewal column is column 12 when the
   * table has at least 13 columns, and there is none otherwise. Whatever is found is a header.
   */
  lemma RenewalColumnSpec(columns: seq<string>)
    ensures var r, names := RenewalColumn(columns), RenewalNames();
      && (r.None? <==> |columns| < 13 && forall n :: 0 <= n < |names| ==> !Hit(columns, Normalize, names[n]))
      && (r.Some? ==> r.value in columns)
      && ((exists n :: 0 <= n < |names| && Hit(columns, Normalize, names[n])) ==> r == Resolve(columns, names))
      && ((forall n :: 0 <= n < |names| ==> !Hit(columns, Normalize, names[n])) ==>
            r == if |columns| >= 13 then Some(columns[12]) else None)
  {
    var names := RenewalNames();
    ResolveSpec(columns, names);
  }

  /**
   * `df.rename(columns={resolved: target})` once `target` resolves to a different header:
   * every header equal to the resolved one becomes `target`, every other header stays, and
   * nothing changes when `target` does not resolve. The renamed list then holds `target`.
   */
  function RenamedTo(columns: seq<string>, target: string): (r: seq<string>)
    ensures |r| == |columns|
    ensures Resolve(columns, [target]).None? ==> r == columns
    ensures Resolve(columns, [target]).Some? ==>
      forall i :: 0 <= i < |columns| ==>
        r[i] == if columns[i] == Resolve(columns, [target]).value then target else columns[i]
    ensures Resolve(columns, [target]).Some? ==> target in r
  {
    match Resolve(columns, [target])
    case Some(c) =>
      ResolvedIsHeader(columns, [target]);
      if c != target then
        RelabelContainsTarget(columns, c, target);
        Relabel(columns, c, target)
      else columns
    case None => columns
  }

  /** The renaming step of `normalize_partners`: the resolved partner header becomes the canonical name. */
  function PartnerRenamed(columns: seq<string>): seq<string> {
    RenamedTo(columns, PartnerColumn)
  }

  /** Renaming the resolved header to a non-empty target changes no hit of any wanted name. */
  lemma RenamedPreservesHits(columns: seq<string>, target: string, w: string)
    requires target != ""
    ensures Hit(RenamedTo(columns, target), Normalize, w) <==> Hit(columns, Normalize, w)
  {
    ResolveSpec(columns, [target]);
    match Resolve(columns, [target])
    case Some(c) =>
      if c != target {
        FoundIsHeader(columns, Normalize, [target][0], c);
        RelabelPreservesHits(columns, Normalize, c, target, w);
      }
    case None =>
  }

  /** Renaming the partner column never changes whether the renewal column can be found. */
  lemma PartnerRenamePreservesRenewal(columns: seq<string>)
    ensures RenewalColumn(PartnerRenamed(columns)).Some? == RenewalColumn(columns).Some?
  {
    var renamed := PartnerRenamed(columns);
    var names := RenewalNames();
    forall n | 0 <= n < |names|
      ensures Hit(renamed, Normalize, names[n]) <==> Hit(columns, Normalize, names[n])
    {
      RenamedPreservesHits(columns, PartnerColumn, names[n]);
    }
    RenewalColumnSpec(columns);
    RenewalColumnSpec(renamed);
  }

  /** `[x]` when `p` holds, else nothing: one conditional `append`. */
  function AppendIf<T>(p: bool, x: T): seq<T> {
    if p then [x] else []
  }

  lemma AppendIfTwice<T>(p: bool, x: T, q: bool, y: T)
    ensures var m := AppendIf(p, x) + AppendIf(q, y);
      && (forall i :: 0 <= i < |m| ==> m[i] == x || m[i] == y)
      && (forall i, j :: 0 <= i < j < |m| ==> m[i] == x && m[j] == y)
  {
  }

  /** The required-column check of the dashboard: the canonical names it reports as missing. */
  function MissingColumns(columns: seq<string>): (missing: seq<string>)
    ensures PartnerColumn in missing <==> Resolve(columns, [PartnerColumn]).None?
    ensures RenewalColumnName in missing <==> RenewalColumn(columns).None?
    ensures |missing| <= 2
  {
    assert PartnerColumn[0] != RenewalColumnName[0];
    AppendIf(Resolve(columns, [PartnerColumn]).None?, PartnerColumn)
      + AppendIf(RenewalColumn(columns).None?, RenewalColumnName)
  }

  /** The missing-column list is two conditional appends, partner name first. */
  lemma MissingColumnsAppends(columns: seq<string>)
    ensures MissingColumns(columns)
      == AppendIf(Resolve(columns, [PartnerColumn]).None?, PartnerColumn)
         + AppendIf(RenewalColumn(columns).None?, RenewalColumnName)
  {
  }

  /** Only the two canonical names are ever reported, the partner name before the renewal name. */
  lemma MissingColumnsNames(columns: seq<string>)
    ensures var missing := MissingColumns(columns);
      forall i :: 0 <= i < |missing| ==> missing[i] == PartnerColumn || missing[i] == RenewalColumnName
    ensures var missing := MissingColumns(columns);
      forall i, j :: 0 <= i < j < |missing| ==> missing[i] == PartnerColumn && missing[j] == RenewalColumnName
  {
    MissingColumnsAppends(columns);
    AppendIfTwice(Resolve(columns, [PartnerColumn]).None?, PartnerColumn,
                  RenewalColumn(columns).None?, RenewalColumnName);
  }

  /**
   * The dashboard's check passes exactly when `normalize_partners` will find both the
   * partner column and, after renaming it, the renewal column.
   */
  lemma MissingColumnsGuardNormalize(columns: seq<string>)
    ensures MissingColumns(columns) == [] <==>
      Resolve(columns, [PartnerColumn]).Some? && RenewalColumn(PartnerRenamed(columns)).Some?
  {
    PartnerRenamePreservesRenewal(columns);
    var missing := MissingColumns(columns);
    if missing != [] {
      assert missing[0] in missing;
    }
  }
}
