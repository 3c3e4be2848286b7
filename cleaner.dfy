/**
 * `clean_data` from the ETL step: the scraped records, read into a table,
 * are deduplicated by `product_url` (first occurrence kept), renumbered
 * with `product_id` 1..N, their prices parsed, four scrape-only columns
 * dropped, and the columns reordered so that `product_id` comes first and
 * `price`, `unit`, `currency` come last. Also the empty check of
 * `save_processed_data`.
 *
 * A table is its column list and its rows; each row maps every column
 * name to its cell.
 */
module DataCleaner {
  import opened Wrappers
  import opened PriceParser

  /** A cell of the table. `Null` is pandas' missing value (NaN/None). */
  datatype Value = Null | Text(text: string) | Int(n: int) | Amount(amount: Decimal) | TextList(items: seq<string>)

  type Row = map<string, Value>

  datatype Table = Table(columns: seq<string>, rows: seq<Row>)

  const ProductIdColumn := "product_id"
  const ProductUrlColumn := "product_url"
  const PriceColumn := "price"
  const UnitColumn := "unit"
  const CurrencyColumn := "currency"

  /** `columns_to_drop`, in the order the source lists them. */
  const DropList: seq<string> := ["product_name", "product_url", "product_description", "images"]

  /** The columns the final reordering moves to the two ends. */
  const Moved: set<string> := {"product_id", "price", "unit", "currency"}

  function SetOf(cols: seq<string>): set<string>
  {
    set c | c in cols
  }

  predicate Distinct(cols: seq<string>)
  {
    forall i, j :: 0 <= i < j < |cols| ==> cols[i] != cols[j]
  }

  /** Distinct column names, and every row holds exactly one cell per column. */
  predicate WellFormed(t: Table)
  {
    Distinct(t.columns) && forall r :: r in t.rows ==> r.Keys == SetOf(t.columns)
  }

  /** pandas' `df.empty`: no rows or no columns. */
  predicate IsEmpty(t: Table)
  {
    |t.rows| == 0 || |t.columns| == 0
  }

  // ---------------------------------------------------------------------
  // Deduplication by product_url
  // ---------------------------------------------------------------------

  function UrlOf(r: Row): Value
  {
    if ProductUrlColumn in r then r[ProductUrlColumn] else Null
  }

  /** The `product_url` column of `rows`. */
  function Urls(rows: seq<Row>): (u: seq<Value>)
    ensures |u| == |rows|
    ensures forall i :: 0 <= i < |rows| ==> u[i] == UrlOf(rows[i])
  {
    seq(|rows|, i requires 0 <= i < |rows| => UrlOf(rows[i]))
  }

  /**
   * `drop_duplicates(subset=['product_url'], keep='first')`: a row
   * survives iff no earlier row has the same url.
   */
  function Dedup(rows: seq<Row>): seq<Row>
  {
    if rows == [] then []
    else
      var init, last := rows[..|rows| - 1], rows[|rows| - 1];
      if UrlOf(last) in Urls(init) then Dedup(init) else Dedup(init) + [last]
  }

  /** The index of the first occurrence of `u` in `us`. */
  function IndexOf(us: seq<Value>, u: Value): (i: nat)
    requires u in us
    ensures i < |us| && us[i] == u
    ensures forall k :: 0 <= k < i ==> us[k] != u
  {
    if us[0] == u then 0 else 1 + IndexOf(us[1..], u)
  }

  /** The index of the first row whose url is `u`. */
  function FirstIndex(rows: seq<Row>, u: Value): (i: nat)
    requires u in Urls(rows)
    ensures i < |rows| && UrlOf(rows[i]) == u
    ensures forall k :: 0 <= k < i ==> UrlOf(rows[k]) != u
  {
    IndexOf(Urls(rows), u)
  }

  lemma FirstIndexOfPrefix(rows: seq<Row>, n: nat, u: Value)
    requires n <= |rows| && u in Urls(rows[..n])
    ensures u in Urls(rows) && FirstIndex(rows[..n], u) == FirstIndex(rows, u)
  {
    var j :| 0 <= j < n && Urls(rows[..n])[j] == u;
    assert Urls(rows)[j] == u;
    var a, b := FirstIndex(rows[..n], u), FirstIndex(rows, u);
    assert UrlOf(rows[a]) == u;
    assert forall k :: 0 <= k < a ==> UrlOf(rows[k]) != u by {
      assert forall k :: 0 <= k < a ==> rows[..n][k] == rows[k];
    }
  }

  /** The urls that survive Dedup are exactly the urls of the input. */
  lemma {:induction false} DedupUrls(rows: seq<Row>)
    ensures forall u :: u in Urls(Dedup(rows)) <==> u in Urls(rows)
  {
    if rows != [] {
      var n := |rows| - 1;
      var init, last := rows[..n], rows[n];
      DedupUrls(init);
      assert Urls(rows) == Urls(init) + [UrlOf(last)];
      if UrlOf(last) !in Urls(init) {
        assert Urls(Dedup(init) + [last]) == Urls(Dedup(init)) + [UrlOf(last)];
      }
    }
  }

  /** Every survivor is the first row with its url. */
  predicate FirstOfItsUrl(rows: seq<Row>, r: Row)
  {
    UrlOf(r) in Urls(rows) && r == rows[FirstIndex(rows, UrlOf(r))]
  }

  /**
   * Dedup keeps exactly the first row of each url, in input order: each
   * survivor is the first row with its url, and survivors keep the
   * relative order of those first rows (so no url survives twice).
   * `DedupUrls` adds that every url of the input survives.
   */
  lemma {:induction false} DedupFirstWins(rows: seq<Row>)
    ensures forall j :: 0 <= j < |Dedup(rows)| ==> FirstOfItsUrl(rows, Dedup(rows)[j])
    ensures forall j, k :: 0 <= j < k < |Dedup(rows)| ==>
      FirstOfItsUrl(rows, Dedup(rows)[j]) && FirstOfItsUrl(rows, Dedup(rows)[k]) &&
      FirstIndex(rows, UrlOf(Dedup(rows)[j])) < FirstIndex(rows, UrlOf(Dedup(rows)[k]))
  {
    if rows != [] {
      var n := |rows| - 1;
      var init := rows[..n];
      DedupFirstWins(init);
      DedupUrls(init);
      var d0 := Dedup(init);
      forall j | 0 <= j < |d0|
        ensures FirstOfItsUrl(rows, d0[j])
        ensures FirstIndex(init, UrlOf(d0[j])) == FirstIndex(rows, UrlOf(d0[j]))
      {
        FirstIndexOfPrefix(rows, n, UrlOf(d0[j]));
        assert init[FirstIndex(init, UrlOf(d0[j]))] == rows[FirstIndex(init, UrlOf(d0[j]))];
      }
      if UrlOf(rows[n]) !in Urls(init) {
        LastIsFirst(rows);
      }
    }
  }

  /** A last row whose url is new is the first row with that url. */
  lemma LastIsFirst(rows: seq<Row>)
    requires rows != [] && UrlOf(rows[|rows| - 1]) !in Urls(rows[..|rows| - 1])
    ensures UrlOf(rows[|rows| - 1]) in Urls(rows)
    ensures FirstIndex(rows, UrlOf(rows[|rows| - 1])) == |rows| - 1
    ensures FirstOfItsUrl(rows, rows[|rows| - 1])
  {
    var n := |rows| - 1;
    NewUrlNotEarlier(rows);
    assert Urls(rows)[n] == UrlOf(rows[n]);
  }

  lemma NewUrlNotEarlier(rows: seq<Row>)
    requires rows != [] && UrlOf(rows[|rows| - 1]) !in Urls(rows[..|rows| - 1])
    ensures forall k :: 0 <= k < |rows| - 1 ==> UrlOf(rows[k]) != UrlOf(rows[|rows| - 1])
  {
    var n := |rows| - 1;
    var u, us := UrlOf(rows[n]), Urls(rows[..n]);
    forall k | 0 <= k < n ensures UrlOf(rows[k]) != u {
      assert us[k] == UrlOf(rows[k]);
    }
  }

  lemma {:induction false} DedupNonEmpty(rows: seq<Row>)
    ensures |Dedup(rows)| <= |rows|
    ensures rows != [] ==> Dedup(rows) != []
  {
    if rows != [] {
      DedupNonEmpty(rows[..|rows| - 1]);
    }
  }

  /** Every row Dedup keeps is a row of the input. */
  lemma DedupKeepsInputRows(rows: seq<Row>)
    ensures forall r :: r in Dedup(rows) ==> r in rows
  {
    DedupFirstWins(rows);
    forall r | r in Dedup(rows) ensures r in rows {
      var j :| 0 <= j < |Dedup(rows)| && Dedup(rows)[j] == r;
      assert FirstOfItsUrl(rows, r);
    }
  }

  /** The deduplication step, as a pass over the rows with a set of seen urls. */
  method DropDuplicates(rows: seq<Row>) returns (kept: seq<Row>)
    ensures kept == Dedup(rows)
  {
    kept := [];
    var seen: set<Value> := {};
    var i := 0;
    while i < |rows|
      invariant 0 <= i <= |rows|
      invariant kept == Dedup(rows[..i])
      invariant forall u :: u in seen <==> u in Urls(rows[..i])
    {
      var u := UrlOf(rows[i]);
      assert rows[..i + 1][..i] == rows[..i];
      assert Urls(rows[..i + 1]) == Urls(rows[..i]) + [u];
      if u !in seen {
        kept := kept + [rows[i]];
        seen := seen + {u};
      }
      i := i + 1;
    }
    assert rows[..|rows|] == rows;
  }

  // ---------------------------------------------------------------------
  // Column lists
  // ---------------------------------------------------------------------

  /** `cols` without the names in `names`, the others in their order. */
  function Without(cols: seq<string>, names: set<string>): (r: seq<string>)
    ensures forall x :: x in r <==> x in cols && x !in names
    ensures Distinct(cols) ==> Distinct(r)
  {
    if cols == [] then []
    else if cols[0] in names then Without(cols[1..], names)
    else
      var rest := Without(cols[1..], names);
      assert Distinct(cols) ==> cols[0] !in rest;
      [cols[0]] + rest
  }

  /** `list.remove(x)`: the first occurrence of `x` taken out. */
  function RemoveFirst(cols: seq<string>, x: string): (r: seq<string>)
    requires x in cols
    ensures |r| == |cols| - 1
  {
    if cols[0] == x then cols[1..] else [cols[0]] + RemoveFirst(cols[1..], x)
  }

  /** `df[x] = ...`: a column already present keeps its place, a new one is appended. */
  function AddColumn(cols: seq<string>, x: string): (r: seq<string>)
    ensures x in r
    ensures forall y :: y in r <==> y in cols || y == x
    ensures Distinct(cols) ==> Distinct(r)
  {
    if x in cols then cols else cols + [x]
  }

  /** `[c for c in names if c in cols]`. */
  function Present(names: seq<string>, cols: seq<string>): (r: seq<string>)
    ensures forall x :: x in r <==> x in names && x in cols
  {
    if names == [] then []
    else (if names[0] in cols then [names[0]] else []) + Present(names[1..], cols)
  }

  /** On distinct names, `list.remove(x)` is filtering `x` out. */
  lemma {:induction false} RemoveFirstIsWithout(cols: seq<string>, x: string)
    requires Distinct(cols) && x in cols
    ensures RemoveFirst(cols, x) == Without(cols, {x})
  {
    if cols[0] == x {
      assert x !in cols[1..];
      WithoutNothing(cols[1..], {x});
    } else {
      RemoveFirstIsWithout(cols[1..], x);
    }
  }

  lemma {:induction false} WithoutNothing(cols: seq<string>, names: set<string>)
    requires forall x :: x in cols ==> x !in names
    ensures Without(cols, names) == cols
  {
    if cols != [] {
      WithoutNothing(cols[1..], names);
    }
  }

  lemma {:induction false} WithoutTwice(cols: seq<string>, a: set<string>, b: set<string>)
    ensures Without(Without(cols, a), b) == Without(cols, a + b)
  {
    if cols != [] {
      WithoutTwice(cols[1..], a, b);
    }
  }

  /** Filtering depends only on which of the listed names are filtered. */
  lemma {:induction false} WithoutSameOnCols(cols: seq<string>, a: set<string>, b: set<string>)
    requires forall x :: x in cols ==> (x in a <==> x in b)
    ensures Without(cols, a) == Without(cols, b)
  {
    if cols != [] {
      WithoutSameOnCols(cols[1..], a, b);
    }
  }

  lemma {:induction false} WithoutAppend(cols: seq<string>, x: string, names: set<string>)
    requires x in names
    ensures Without(cols + [x], names) == Without(cols, names)
  {
    if cols == [] {
      assert cols + [x] == [x];
    } else {
      assert (cols + [x])[1..] == cols[1..] + [x];
      WithoutAppend(cols[1..], x, names);
    }
  }

  lemma WithoutAddColumn(cols: seq<string>, x: string, names: set<string>)
    requires x in names
    ensures Without(AddColumn(cols, x), names) == Without(cols, names)
  {
    if x !in cols {
      WithoutAppend(cols, x, names);
    }
  }

  /** The columns kept between `product_id` and `price`, in their original order. */
  function KeptColumns(cols: seq<string>): seq<string>
  {
    Without(cols, SetOf(DropList) + Moved)
  }

  /** The column order `clean_data` ends with. */
  function FinalColumns(cols: seq<string>): seq<string>
  {
    [ProductIdColumn] + KeptColumns(cols) + [PriceColumn, UnitColumn, CurrencyColumn]
  }

  /**
   * The final layout: `product_id` first, `price`, `unit`, `currency`
   * last, no name twice, and a column is present iff it is one of those
   * four or an input column that is not dropped.
   */
  lemma FinalLayout(cols: seq<string>)
    requires Distinct(cols)
    ensures var f := FinalColumns(cols);
      |f| >= 4 && f[0] == ProductIdColumn && f[|f| - 3..] == [PriceColumn, UnitColumn, CurrencyColumn]
    ensures Distinct(FinalColumns(cols))
    ensures forall x :: x in FinalColumns(cols) <==> x in Moved || (x in cols && x !in DropList)
  {
    var f := FinalColumns(cols);
    var k := KeptColumns(cols);
    assert f == [ProductIdColumn] + k + [PriceColumn, UnitColumn, CurrencyColumn];
    forall i, j | 0 <= i < j < |f| ensures f[i] != f[j] {
      if 0 < i && j <= |k| {
        assert f[i] == k[i - 1] && f[j] == k[j - 1];
      } else if 0 < i <= |k| {
        assert f[i] == k[i - 1];
        assert f[i] !in Moved;
      } else if i == 0 && j <= |k| {
        assert f[j] == k[j - 1];
      }
    }
  }

  // ---------------------------------------------------------------------
  // Rows
  // ---------------------------------------------------------------------

  /** What `.str.extract` sees in a `price` cell: its text, or nothing for a non-text cell. */
  function PriceText(v: Value): Option<string>
  {
    if v.Text? then Some(v.text) else None
  }

  function AmountCell(a: Option<Decimal>): Value
  {
    if a.Some? then Amount(a.value) else Null
  }

  function TextCell(t: Option<string>): Value
  {
    if t.Some? then Text(t.value) else Null
  }

  /**
   * One row through steps 3 to 5: its new `product_id`, its parsed price
   * cells, and the dropped columns removed.
   */
  function CleanRow(r: Row, id: int, dropped: set<string>): (c: Row)
    requires PriceColumn in r
    requires dropped !! Moved
    ensures c.Keys == (r.Keys + Moved) - dropped
  {
    var p := ParsePrice(PriceText(r[PriceColumn]));
    var withId := r[ProductIdColumn := Int(id)];
    var priced := withId[PriceColumn := AmountCell(p.amount)][UnitColumn := TextCell(p.unit)][CurrencyColumn := TextCell(p.currency)];
    priced - dropped
  }

  /**
   * Row `c` of the cleaned table, numbered `id`, comes from the kept input
   * row `r` of a table with columns `cols`: it has a cell for each final
   * column, its `product_id` is `id`, its `price`, `unit` and `currency`
   * are what `process_price` reads from `r`'s price text, and every other
   * remaining column keeps `r`'s cell.
   */
  predicate CleanedFrom(c: Row, r: Row, id: int, cols: seq<string>)
  {
    c.Keys == SetOf(FinalColumns(cols)) &&
    ProductIdColumn in c && c[ProductIdColumn] == Int(id) &&
    PriceColumn in r && PriceColumn in c && UnitColumn in c && CurrencyColumn in c &&
    (var p := ParsePrice(PriceText(r[PriceColumn]));
     c[PriceColumn] == AmountCell(p.amount) && c[UnitColumn] == TextCell(p.unit) && c[CurrencyColumn] == TextCell(p.currency)) &&
    forall x :: x in KeptColumns(cols) ==> x in r && x in c && c[x] == r[x]
  }

  /** The scrape-only columns and the moved ones are different names. */
  lemma DropListNotMoved()
    ensures forall x :: x in DropList ==> x !in Moved
  {
  }

  /** The columns `clean_data` has once `product_id`, `unit` and `currency` are assigned. */
  function AddedColumns(cols: seq<string>): seq<string>
  {
    AddColumn(AddColumn(AddColumn(cols, ProductIdColumn), UnitColumn), CurrencyColumn)
  }

  lemma CleanRowIsCleaned(r: Row, id: int, cols: seq<string>, dropped: set<string>)
    requires Distinct(cols) && r.Keys == SetOf(cols) && PriceColumn in cols
    requires forall x :: x in dropped <==> x in DropList && x in AddedColumns(cols)
    ensures dropped !! Moved
    ensures CleanedFrom(CleanRow(r, id, dropped), r, id, cols)
  {
    DropListNotMoved();
    CleanedKeys(cols, dropped);
    KeptNotTouched(cols, dropped);
    MovedNamesDiffer();
    var p := ParsePrice(PriceText(r[PriceColumn]));
    SetFourCells(r, ProductIdColumn, Int(id), PriceColumn, AmountCell(p.amount),
      UnitColumn, TextCell(p.unit), CurrencyColumn, TextCell(p.currency), dropped);
  }

  lemma MovedNamesDiffer()
    ensures ProductIdColumn != PriceColumn && ProductIdColumn != UnitColumn && ProductIdColumn != CurrencyColumn
    ensures PriceColumn != UnitColumn && PriceColumn != CurrencyColumn && UnitColumn != CurrencyColumn
    ensures Moved == {ProductIdColumn, PriceColumn, UnitColumn, CurrencyColumn}
  {
    assert ProductIdColumn[2] != PriceColumn[2] && ProductIdColumn[0] != UnitColumn[0] && ProductIdColumn[0] != CurrencyColumn[0];
    assert PriceColumn[0] != UnitColumn[0] && PriceColumn[0] != CurrencyColumn[0] && UnitColumn[0] != CurrencyColumn[0];
  }

  /**
   * Four assignments to distinct keys, then the removal of keys other than
   * those four: the four hold their new values, every other remaining key
   * its old one.
   */
  lemma SetFourCells<K, V>(m: map<K, V>, a: K, va: V, b: K, vb: V, c: K, vc: V, d: K, vd: V, dropped: set<K>)
    requires a != b && a != c && a != d && b != c && b != d && c != d
    requires a !in dropped && b !in dropped && c !in dropped && d !in dropped
    ensures var n := m[a := va][b := vb][c := vc][d := vd] - dropped;
      a in n && n[a] == va && b in n && n[b] == vb && c in n && n[c] == vc && d in n && n[d] == vd &&
      forall x :: x in m && x !in dropped && x != a && x != b && x != c && x != d ==> x in n && n[x] == m[x]
  {
  }

  /** The keys a cleaned row has are exactly the final columns. */
  lemma CleanedKeys(cols: seq<string>, dropped: set<string>)
    requires Distinct(cols) && PriceColumn in cols
    requires forall x :: x in dropped <==> x in DropList && x in AddedColumns(cols)
    ensures (SetOf(cols) + Moved) - dropped == SetOf(FinalColumns(cols))
  {
    DropListNotMoved();
    FinalLayout(cols);
    forall x ensures x in (SetOf(cols) + Moved) - dropped <==> x in FinalColumns(cols) {
    }
  }

  /** A kept column is neither dropped nor one of the four rewritten ones. */
  lemma KeptNotTouched(cols: seq<string>, dropped: set<string>)
    requires forall x :: x in dropped ==> x in DropList
    ensures forall x :: x in KeptColumns(cols) ==> x in cols && x !in Moved && x !in dropped
  {
  }

  /**
   * Taking `product_id`, `price`, `unit` and `currency` out of the column
   * list with four `list.remove` calls and putting them back at the two
   * ends: the other columns stay in their order between them.
   */
  function MoveToEnds(cols: seq<string>): (r: seq<string>)
    requires Distinct(cols) && forall x :: x in Moved ==> x in cols
    ensures r == [ProductIdColumn] + Without(cols, Moved) + [PriceColumn, UnitColumn, CurrencyColumn]
  {
    MovedNamesDiffer();
    MovedInSteps();
    WithoutNothing(cols, {});
    RemoveStep(cols, {}, ProductIdColumn, cols);
    var c1 := RemoveFirst(cols, ProductIdColumn);
    RemoveStep(cols, {ProductIdColumn}, PriceColumn, c1);
    var c2 := RemoveFirst(c1, PriceColumn);
    RemoveStep(cols, {ProductIdColumn, PriceColumn}, UnitColumn, c2);
    var c3 := RemoveFirst(c2, UnitColumn);
    RemoveStep(cols, {ProductIdColumn, PriceColumn, UnitColumn}, CurrencyColumn, c3);
    var c4 := RemoveFirst(c3, CurrencyColumn);
    [ProductIdColumn] + c4 + [PriceColumn, UnitColumn, CurrencyColumn]
  }

  /** The four names, removed one by one, make up `Moved`. */
  lemma MovedInSteps()
    ensures {} + {ProductIdColumn} == {ProductIdColumn}
    ensures {ProductIdColumn} + {PriceColumn} == {ProductIdColumn, PriceColumn}
    ensures {ProductIdColumn, PriceColumn} + {UnitColumn} == {ProductIdColumn, PriceColumn, UnitColumn}
    ensures {ProductIdColumn, PriceColumn, UnitColumn} + {CurrencyColumn} == Moved
  {
  }

  /**
   * One `list.remove(x)` on the distinct names `c`, from which `done` is
   * already filtered: `x` is still there, and removing it filters it out
   * as well.
   */
  lemma RemoveStep(cols: seq<string>, done: set<string>, x: string, c: seq<string>)
    requires Distinct(cols) && x in cols && x !in done && c == Without(cols, done)
    ensures x in c && RemoveFirst(c, x) == Without(cols, done + {x})
  {
    RemoveFirstIsWithout(c, x);
    WithoutTwice(cols, done, {x});
  }

  /** Steps 3 to 5 over the kept rows, numbering them from 1. */
  method CleanRows(kept: seq<Row>, dropped: set<string>) returns (rows: seq<Row>)
    requires forall k :: 0 <= k < |kept| ==> PriceColumn in kept[k]
    requires dropped !! Moved
    ensures |rows| == |kept|
    ensures forall k :: 0 <= k < |kept| ==> rows[k] == CleanRow(kept[k], k + 1, dropped)
  {
    rows := [];
    var i := 0;
    while i < |kept|
      invariant 0 <= i <= |kept|
      invariant |rows| == i
      invariant forall k :: 0 <= k < i ==> rows[k] == CleanRow(kept[k], k + 1, dropped)
    {
      var c := CleanRow(kept[i], i + 1, dropped);
      rows := rows + [c];
      assert rows[i] == c;
      i := i + 1;
    }
  }

  // ---------------------------------------------------------------------
  // clean_data and the save check
  // ---------------------------------------------------------------------

  /**
   * `clean_data`. An empty table comes back unchanged. Otherwise the
   * result has the columns `FinalColumns(t.columns)` and one row per row
   * Dedup keeps, in order, row `i` being `CleanedFrom` the `i`-th kept
   * row with `product_id` `i + 1`.
   *
   * A non-empty table must have `product_url` and `price` columns: without
   * them the deduplication or the `all_cols.remove('price')` call raises.
   */
  method CleanData(t: Table) returns (out: Table)
    requires WellFormed(t)
    requires !IsEmpty(t) ==> ProductUrlColumn in t.columns && PriceColumn in t.columns
    ensures IsEmpty(t) ==> out == t
    ensures IsEmpty(out) <==> IsEmpty(t)
    ensures WellFormed(out)
    ensures !IsEmpty(t) ==> out.columns == FinalColumns(t.columns) && |out.rows| == |Dedup(t.rows)|
    ensures !IsEmpty(t) ==> forall i :: 0 <= i < |out.rows| ==>
      CleanedFrom(out.rows[i], Dedup(t.rows)[i], i + 1, t.columns)
  {
    if IsEmpty(t) {
      return t;
    }
    // 1-2: drop duplicate urls and renumber from 0
    var kept := DropDuplicates(t.rows);
    KeptRows(t);

    // 3-4: `product_id`, then `price` (already present), `unit` and `currency`
    var cols := AddColumn(t.columns, ProductIdColumn);
    cols := AddColumn(AddColumn(cols, UnitColumn), CurrencyColumn);
    assert cols == AddedColumns(t.columns);

    // 5: the scrape-only columns that exist are dropped
    var existing := Present(DropList, cols);
    var dropped := SetOf(existing);
    DropListNotMoved();
    cols := Without(cols, dropped);

    var rows := CleanRows(kept, dropped);
    CleanedRows(t.columns, kept, dropped, rows);

    // the four moved columns go to the two ends
    ColumnsAfterCleaning(t.columns, dropped);
    FinalLayout(t.columns);
    out := Table(MoveToEnds(cols), rows);
  }

  /** The rows Dedup keeps have the input's columns, and there is at least one. */
  lemma KeptRows(t: Table)
    requires WellFormed(t) && !IsEmpty(t)
    ensures Dedup(t.rows) != []
    ensures forall k :: 0 <= k < |Dedup(t.rows)| ==> Dedup(t.rows)[k].Keys == SetOf(t.columns)
  {
    DedupKeepsInputRows(t.rows);
    DedupNonEmpty(t.rows);
    forall k | 0 <= k < |Dedup(t.rows)| ensures Dedup(t.rows)[k].Keys == SetOf(t.columns) {
      assert Dedup(t.rows)[k] in Dedup(t.rows);
    }
  }

  /** Each row `CleanRows` gives is cleaned from its kept row, and so has the final columns. */
  lemma CleanedRows(cols: seq<string>, kept: seq<Row>, dropped: set<string>, rows: seq<Row>)
    requires Distinct(cols) && PriceColumn in cols
    requires forall k :: 0 <= k < |kept| ==> kept[k].Keys == SetOf(cols)
    requires forall x :: x in dropped <==> x in DropList && x in AddedColumns(cols)
    requires dropped !! Moved
    requires forall k :: 0 <= k < |kept| ==> PriceColumn in kept[k]
    requires |rows| == |kept| && forall k :: 0 <= k < |kept| ==> rows[k] == CleanRow(kept[k], k + 1, dropped)
    ensures forall k :: 0 <= k < |rows| ==> CleanedFrom(rows[k], kept[k], k + 1, cols)
    ensures forall r :: r in rows ==> r.Keys == SetOf(FinalColumns(cols))
  {
    forall k | 0 <= k < |rows| ensures CleanedFrom(rows[k], kept[k], k + 1, cols) {
      CleanRowIsCleaned(kept[k], k + 1, cols, dropped);
    }
    forall r | r in rows ensures r.Keys == SetOf(FinalColumns(cols)) {
      var k :| 0 <= k < |rows| && rows[k] == r;
    }
  }

  /** Dropping, then moving the four columns, leaves exactly `KeptColumns` between the ends. */
  lemma ColumnsAfterCleaning(cols: seq<string>, dropped: set<string>)
    requires forall x :: x in dropped <==> x in DropList && x in AddedColumns(cols)
    ensures Without(Without(AddedColumns(cols), dropped), Moved) == KeptColumns(cols)
  {
    var c1 := AddColumn(cols, ProductIdColumn);
    var c2 := AddColumn(c1, UnitColumn);
    var all := SetOf(DropList) + Moved;
    WithoutTwice(AddedColumns(cols), dropped, Moved);
    WithoutSameOnCols(AddedColumns(cols), dropped + Moved, all);
    WithoutAddColumn(c2, CurrencyColumn, all);
    WithoutAddColumn(c1, UnitColumn, all);
    WithoutAddColumn(cols, ProductIdColumn, all);
  }

  /**
   * `save_processed_data`'s guard: an empty table writes no file; any
   * other table writes all its rows (the CSV encoding is not modelled).
   */
  method SaveProcessedData(t: Table) returns (written: Option<seq<Row>>)
    ensures written.None? <==> IsEmpty(t)
    ensures written.Some? ==> written.value == t.rows
  {
    if IsEmpty(t) {
      return None;
    }
    return Some(t.rows);
  }

}
