/** The data frame `normalize_products` builds and the whole-column
    operations applied to it. A frame is a list of column names, in which a
    name may occur more than once, and a list of rows, one cell per column. */
module Frames {
  import opened Wrappers
  import opened Json
  import opened Names
  import Dedup

  type Row = seq<Value>

  datatype Table = Table(columns: seq<string>, rows: seq<Row>)

  /** The shape every frame has: each row holds one cell per column. */
  predicate WellFormed(t: Table) {
    forall i :: 0 <= i < |t.rows| ==> |t.rows[i]| == |t.columns|
  }


  /** How many columns carry the name `name`. */
  function Count(cols: seq<string>, name: string): (n: nat)
    ensures n == 0 <==> name !in cols
    ensures n <= |cols|
  {
    if cols == [] then 0
    else (if cols[0] == name then 1 else 0) + Count(cols[1..], name)
  }

  /** The position of the first column named `name`. */
  function IndexOf(cols: seq<string>, name: string): (j: nat)
    requires name in cols
    ensures j < |cols| && cols[j] == name
    ensures forall k :: 0 <= k < j ==> cols[k] != name
  {
    if cols[0] == name then 0 else 1 + IndexOf(cols[1..], name)
  }

  /** A name that occurs once occurs only at its first position. */
  lemma {:induction false} SoleIndex(cols: seq<string>, name: string, k: nat)
    requires Count(cols, name) == 1 && k < |cols| && cols[k] == name
    ensures k == IndexOf(cols, name)
  {
    if cols[0] != name {
      SoleIndex(cols[1..], name, k - 1);
    }
  }

  lemma {:induction false} CountAppend(a: seq<string>, b: seq<string>, name: string)
    ensures Count(a + b, name) == Count(a, name) + Count(b, name)
  {
    if a != [] {
      assert (a + b)[1..] == a[1..] + b;
      CountAppend(a[1..], b, name);
    } else {
      assert a + b == b;
    }
  }

  lemma {:induction false} CountDistinct(cols: seq<string>, name: string)
    requires Distinct(cols)
    ensures Count(cols, name) <= 1
  {
    if cols != [] {
      CountDistinct(cols[1..], name);
      if cols[0] == name {
        assert name !in cols[1..];
      }
    }
  }

  // ---- Building the frame from the flattened records ------------------------

  /** `acc` followed by the keys of `ks` it does not hold yet, in order of first
      appearance. */
  function AddNew(acc: seq<string>, ks: seq<string>): (r: seq<string>)
    ensures forall k :: k in r <==> k in acc || k in ks
    ensures Distinct(acc) ==> Distinct(r)
    ensures |acc| <= |r| && r[..|acc|] == acc
    decreases |ks|
  {
    if ks == [] then acc
    else
      var acc' := if ks[0] in acc then acc else acc + [ks[0]];
      assert acc'[..|acc|] == acc;
      AddNew(acc', ks[1..])
  }

  /** The columns of `DataFrame(records)`: every key of every record, once,
      in order of first appearance. */
  function UnionKeys(recs: seq<seq<Field>>): (cols: seq<string>)
    ensures Distinct(cols)
    ensures forall k :: k in cols <==> exists i :: 0 <= i < |recs| && k in Keys(recs[i])
  {
    if recs == [] then []
    else
      var front := recs[..|recs| - 1];
      var cols := AddNew(UnionKeys(front), Keys(recs[|recs| - 1]));
      assert forall i :: 0 <= i < |front| ==> front[i] == recs[i];
      cols
  }

  /** The cell a record gives a column: its value, or null when it lacks the key. */
  function Cell(rec: seq<Field>, col: string): Value {
    match Lookup(rec, col)
    case Some(v) => v
    case None => Null
  }

  /** `DataFrame(records)`. */
  function FromRecords(recs: seq<seq<Field>>): (t: Table)
    ensures WellFormed(t) && |t.rows| == |recs| && t.columns == UnionKeys(recs)
    ensures forall i, j :: 0 <= i < |recs| && 0 <= j < |t.columns| ==>
              t.rows[i][j] == Cell(recs[i], t.columns[j])
  {
    var cols := UnionKeys(recs);
    Table(cols, seq(|recs|, i requires 0 <= i < |recs| =>
      seq(|cols|, j requires 0 <= j < |cols| => Cell(recs[i], cols[j]))))
  }

  /** A key a record lacks is null in its row; a key it has holds its value. */
  lemma CellMeaning(rec: seq<Field>, col: string)
    ensures Cell(rec, col) == Null <== col !in Keys(rec)
    ensures col in Keys(rec) ==> Lookup(rec, col) == Some(Cell(rec, col))
  {
    LookupAbsent(rec, col);
  }

  // ---- Canonical column names -----------------------------------------------

  /** `df.columns = [canonical(c) for c in df.columns]`: same cells, every
      name replaced by its canonical form (two names may now coincide). */
  function CanonicaliseColumns(t: Table): (r: Table)
    ensures r.rows == t.rows && |r.columns| == |t.columns|
    ensures forall j :: 0 <= j < |t.columns| ==> r.columns[j] == Canonical(t.columns[j])
    ensures forall j :: 0 <= j < |r.columns| ==> IsCanonical(r.columns[j])
  {
    var cols := seq(|t.columns|, j requires 0 <= j < |t.columns| => Canonical(t.columns[j]));
    forall j | 0 <= j < |cols| ensures IsCanonical(cols[j]) {
      CanonicalIsCanonical(t.columns[j]);
    }
    Table(cols, t.rows)
  }

  // ---- The required columns -------------------------------------------------

  const Required: seq<string> := ["id", "title", "price", "category", "rating_rate", "rating_count"]

  lemma RequiredDistinct()
    ensures Distinct(Required)
  {
  }

  function Nulls(n: nat): (s: seq<Value>)
    ensures |s| == n && forall i :: 0 <= i < n ==> s[i] == Null
  {
    seq(n, _ => Null)
  }

  /** Every row extended by `n` null cells: what `df[col] = None` does to the
      rows once per added column. */
  function NullPad(rows: seq<Row>, n: nat): (r: seq<Row>)
    ensures |r| == |rows| && forall i :: 0 <= i < |rows| ==> r[i] == rows[i] + Nulls(n)
  {
    seq(|rows|, i requires 0 <= i < |rows| => rows[i] + Nulls(n))
  }

  /** The names of `req`, in order, that are not among `cols`. */
  function Missing(req: seq<string>, cols: seq<string>): seq<string> {
    if req == [] then []
    else
      var last := req[|req| - 1];
      Missing(req[..|req| - 1], cols) + (if last in cols then [] else [last])
  }

  /** The missing names are the names of `req` absent from `cols`. */
  lemma {:induction false} MissingMembers(req: seq<string>, cols: seq<string>)
    ensures forall c :: c in Missing(req, cols) <==> c in req && c !in cols
  {
    if req != [] {
      var last := req[|req| - 1];
      var front := req[..|req| - 1];
      assert req == front + [last];
      MissingMembers(front, cols);
    }
  }

  lemma {:induction false} MissingDistinct(req: seq<string>, cols: seq<string>)
    requires Distinct(req)
    ensures Distinct(Missing(req, cols))
  {
    if req != [] {
      var front := req[..|req| - 1];
      assert Distinct(front);
      assert req[|req| - 1] !in front;
      MissingDistinct(front, cols);
      MissingMembers(front, cols);
    }
  }

  /** The frame after the fill loop: each absent required column appended,
      null in every row. */
  function WithRequired(t: Table): (r: Table)
    ensures WellFormed(t) ==> WellFormed(r)
    ensures forall c :: c in Required ==> c in r.columns
    ensures |r.rows| == |t.rows| && |t.columns| <= |r.columns| && r.columns[..|t.columns|] == t.columns
    ensures forall c :: c in r.columns[|t.columns|..] <==> c in Required && c !in t.columns
    ensures forall i :: 0 <= i < |t.rows| ==> |t.rows[i]| <= |r.rows[i]| && r.rows[i][..|t.rows[i]|] == t.rows[i]
    ensures forall i, j :: 0 <= i < |t.rows| && |t.rows[i]| <= j < |r.rows[i]| ==> r.rows[i][j] == Null
  {
    var m := Missing(Required, t.columns);
    MissingMembers(Required, t.columns);
    var r := Table(t.columns + m, NullPad(t.rows, |m|));
    assert r.columns[|t.columns|..] == m;
    r
  }

  /** The frame `normalize_products` works on. Its fields are reassigned as the
      source reassigns `df` and `df.columns`. */
  class Frame {
    var columns: seq<string>
    var rows: seq<Row>

    constructor (t: Table)
      ensures columns == t.columns && rows == t.rows
    {
      columns := t.columns;
      rows := t.rows;
    }

    function Snapshot(): Table
      reads this
    {
      Table(columns, rows)
    }

    /** `df[name] = None`: a new last column, null in every row. */
    method AddNullColumn(name: string)
      modifies this
      ensures columns == old(columns) + [name]
      ensures rows == NullPad(old(rows), 1)
    {
      columns := columns + [name];
      rows := NullPad(rows, 1);
    }

    /** `for col in required: if col not in df.columns: df[col] = None`. */
    method FillRequired()
      modifies this
      ensures Snapshot() == WithRequired(old(Snapshot()))
      ensures forall c :: c in Required ==> c in columns
      ensures WellFormed(old(Snapshot())) ==> WellFormed(Snapshot())
    {
      RequiredDistinct();
      FillColumns(Required);
    }

    /** The loop itself, over the list of names it is given. */
    method FillColumns(req: seq<string>)
      requires Distinct(req)
      modifies this
      ensures columns == old(columns) + Missing(req, old(columns))
      ensures rows == NullPad(old(rows), |Missing(req, old(columns))|)
      ensures forall c :: c in req ==> c in columns
    {
      ghost var cols0, rows0 := columns, rows;
      NullPadZero(rows0);
      for k := 0 to |req|
        invariant columns == cols0 + Missing(req[..k], cols0)
        invariant rows == NullPad(rows0, |Missing(req[..k], cols0)|)
        invariant forall c :: c in req[..k] ==> c in columns
      {
        var col := req[k];
        FillStep(req, cols0, k);
        if col !in columns {
          NullPadStep(rows0, |Missing(req[..k], cols0)|);
          AddNullColumn(col);
        }
      }
      assert req[..|req|] == req;
    }
  }

  lemma NullPadZero(rows: seq<Row>)
    ensures NullPad(rows, 0) == rows
  {
    forall i | 0 <= i < |rows| ensures NullPad(rows, 0)[i] == rows[i] {
      assert Nulls(0) == [];
    }
  }

  lemma NullPadStep(rows: seq<Row>, n: nat)
    ensures NullPad(NullPad(rows, n), 1) == NullPad(rows, n + 1)
  {
    forall i | 0 <= i < |rows| ensures NullPad(NullPad(rows, n), 1)[i] == NullPad(rows, n + 1)[i] {
      assert Nulls(n) + Nulls(1) == Nulls(n + 1);
    }
  }

  /** One turn of the fill loop: the `k`-th required name is among the columns
      so far exactly when it was among the original ones, and the missing names
      grow by it exactly when it was absent. */
  lemma FillStep(req: seq<string>, cols: seq<string>, k: nat)
    requires Distinct(req) && k < |req|
    ensures req[k] in cols + Missing(req[..k], cols) <==> req[k] in cols
    ensures Missing(req[..k + 1], cols)
         == Missing(req[..k], cols) + (if req[k] in cols then [] else [req[k]])
    ensures forall c :: c in req[..k + 1] <==> c in req[..k] || c == req[k]
  {
    MissingMembers(req[..k], cols);
    assert req[..k + 1] == req[..k] + [req[k]];
    assert req[..k + 1][..k] == req[..k];
    assert req[k] !in req[..k];
  }

  // ---- Whole-column transformations -----------------------------------------

  /** The behaviour of the library calls `normalize_products` delegates to:
      `parse` is what `pd.to_numeric(..., errors="coerce")` makes of a
      non-numeric cell (None when it cannot be read as a number), `render` is
      what `astype("string")` makes of a non-text cell, and `vat` is
      `round(x * 1.20, 2)`. */
  datatype Coercions = Coercions(parse: Value -> Option<real>, render: Value -> string, vat: real -> real)

  /** One cell through `pd.to_numeric(..., errors="coerce")`. */
  function ToNumber(c: Coercions, v: Value): Value {
    match v
    case Null => Null
    case Num(x) => Num(x)
    case _ =>
      match c.parse(v)
      case Some(x) => Num(x)
      case None => Null
  }

  /** One cell through `astype("string")`. */
  function ToText(c: Coercions, v: Value): Value {
    match v
    case Null => Null
    case Str(s) => Str(s)
    case _ => Str(c.render(v))
  }

  /** One price through `(price * 1.20).round(2)`. */
  function VatOf(c: Coercions, price: Value): Value {
    if price.Num? then Num(c.vat(price.n)) else Null
  }

  /** Numeric coercion never fails on a cell: the result is a number or null,
      it is null exactly when the cell was null or could not be read, and a
      number stays as it is. */
  lemma ToNumberTotal(c: Coercions, v: Value)
    ensures ToNumber(c, v).Num? || ToNumber(c, v).Null?
    ensures ToNumber(c, v).Null? <==> v.Null? || (!v.Num? && c.parse(v).None?)
    ensures v.Num? ==> ToNumber(c, v) == v
  {
  }

  /** Text coercion preserves nulls both ways and leaves text alone. */
  lemma ToTextNulls(c: Coercions, v: Value)
    ensures ToText(c, v).Null? <==> v.Null?
    ensures ToText(c, v).Null? || ToText(c, v).Str?
    ensures v.Str? ==> ToText(c, v) == v
  {
  }

  /** `f` applied to every cell of every column named `name`: the cell-wise
      part of `pd.to_numeric` and `astype("string")` on one column. */
  function MapColumn(t: Table, name: string, f: Value -> Value): (r: Table)
    requires WellFormed(t)
    ensures WellFormed(r) && r.columns == t.columns && |r.rows| == |t.rows|
    ensures forall i, j :: 0 <= i < |t.rows| && 0 <= j < |t.columns| ==>
              r.rows[i][j] == if t.columns[j] == name then f(t.rows[i][j]) else t.rows[i][j]
  {
    Table(t.columns, seq(|t.rows|, i requires 0 <= i < |t.rows| =>
      seq(|t.columns|, j requires 0 <= j < |t.columns| =>
        if t.columns[j] == name then f(t.rows[i][j]) else t.rows[i][j])))
  }

  /** Every cell of the columns named `name` is a number or null. */
  predicate IsNumericColumn(t: Table, name: string)
    requires WellFormed(t)
  {
    forall i, j :: 0 <= i < |t.rows| && 0 <= j < |t.columns| && t.columns[j] == name ==>
      t.rows[i][j].Num? || t.rows[i][j].Null?
  }

  /** Every cell of the columns named `name` is text or null. */
  predicate IsTextColumn(t: Table, name: string)
    requires WellFormed(t)
  {
    forall i, j :: 0 <= i < |t.rows| && 0 <= j < |t.columns| && t.columns[j] == name ==>
      t.rows[i][j].Str? || t.rows[i][j].Null?
  }

  /** Cells outside the columns named in `names` are the same in `t` and `r`,
      which has the same rows and begins with the columns of `t`. */
  predicate SameOutside(t: Table, r: Table, names: set<string>)
    requires WellFormed(t) && WellFormed(r)
  {
    && |r.rows| == |t.rows|
    && |t.columns| <= |r.columns| && r.columns[..|t.columns|] == t.columns
    && forall i, j :: 0 <= i < |t.rows| && 0 <= j < |t.columns| && t.columns[j] !in names ==>
         r.rows[i][j] == t.rows[i][j]
  }

  /** A stage that leaves the cells outside `names` alone and appends only
      columns not called `name` keeps a numeric or text column `name` as it was. */
  lemma KeepsColumnKind(t: Table, r: Table, names: set<string>, added: seq<string>, name: string)
    requires WellFormed(t) && WellFormed(r) && SameOutside(t, r, names) && name !in names
    requires r.columns == t.columns + added && name !in added
    ensures IsNumericColumn(t, name) ==> IsNumericColumn(r, name)
    ensures IsTextColumn(t, name) ==> IsTextColumn(r, name)
  {
    forall i, j | 0 <= i < |r.rows| && 0 <= j < |r.columns| && r.columns[j] == name
      ensures j < |t.columns| && t.columns[j] == name && r.rows[i][j] == t.rows[i][j]
    {
    }
  }

  /** `df[name] = pd.to_numeric(df[name], errors="coerce")`. When two columns
      share the name, `df[name]` is a frame, which `pd.to_numeric` refuses. */
  function NumericColumn(t: Table, name: string, c: Coercions): (r: Result<Table, Error>)
    requires WellFormed(t)
    ensures r.Success? <==> Count(t.columns, name) == 1
    ensures r.Failure? ==> r.error == if name in t.columns then DuplicateColumn(name) else MissingColumn(name)
    ensures r.Success? ==> WellFormed(r.value) && r.value.columns == t.columns
    ensures r.Success? ==> IsNumericColumn(r.value, name) && SameOutside(t, r.value, {name})
    ensures r.Success? ==> forall i, j :: 0 <= i < |t.rows| && 0 <= j < |t.columns| && t.columns[j] == name ==>
              r.value.rows[i][j] == ToNumber(c, t.rows[i][j])
  {
    if Count(t.columns, name) == 0 then Failure(MissingColumn(name))
    else if Count(t.columns, name) > 1 then Failure(DuplicateColumn(name))
    else
      var r := MapColumn(t, name, v => ToNumber(c, v));
      assert r.columns[..|t.columns|] == t.columns;
      assert IsNumericColumn(r, name) by {
        forall i, j | 0 <= i < |r.rows| && 0 <= j < |r.columns| && r.columns[j] == name
          ensures r.rows[i][j].Num? || r.rows[i][j].Null?
        {
          ToNumberTotal(c, t.rows[i][j]);
        }
      }
      Success(r)
  }

  /** `df[name] = df[name].astype("string")`, which converts every column of
      that name. */
  function TextColumn(t: Table, name: string, c: Coercions): (r: Result<Table, Error>)
    requires WellFormed(t)
    ensures r.Success? <==> name in t.columns
    ensures r.Failure? ==> r.error == MissingColumn(name)
    ensures r.Success? ==> WellFormed(r.value) && r.value.columns == t.columns && SameOutside(t, r.value, {name})
    ensures r.Success? ==> IsTextColumn(r.value, name)
    ensures r.Success? ==> forall i, j :: 0 <= i < |t.rows| && 0 <= j < |t.columns| && t.columns[j] == name ==>
              (r.value.rows[i][j].Null? <==> t.rows[i][j].Null?) &&
              (r.value.rows[i][j].Null? || r.value.rows[i][j].Str?) &&
              (t.rows[i][j].Str? ==> r.value.rows[i][j] == t.rows[i][j])
  {
    if name !in t.columns then Failure(MissingColumn(name))
    else
      var r := MapColumn(t, name, v => ToText(c, v));
      assert r.columns[..|t.columns|] == t.columns;
      Success(r)
  }

  /** `df[name] = values`, where the value of each row is `f` of that row: every
      column already named `name` is overwritten, otherwise a column is added
      at the end. */
  function SetColumn(t: Table, name: string, f: Row -> Value): (r: Table)
    requires WellFormed(t)
    ensures WellFormed(r) && |r.rows| == |t.rows|
    ensures r.columns == if name in t.columns then t.columns else t.columns + [name]
    ensures SameOutside(t, r, {name})
    ensures forall i, j :: 0 <= i < |r.rows| && 0 <= j < |r.columns| && r.columns[j] == name ==>
              r.rows[i][j] == f(t.rows[i])
  {
    if name in t.columns then
      var r := Table(t.columns, seq(|t.rows|, i requires 0 <= i < |t.rows| =>
        seq(|t.columns|, j requires 0 <= j < |t.columns| =>
          if t.columns[j] == name then f(t.rows[i]) else t.rows[i][j])));
      assert r.columns[..|t.columns|] == t.columns;
      r
    else
      var r := Table(t.columns + [name], seq(|t.rows|, i requires 0 <= i < |t.rows| => t.rows[i] + [f(t.rows[i])]));
      assert r.columns[..|t.columns|] == t.columns;
      r
  }

  /** `df["price_with_vat"] = (df["price"] * 1.20).round(2)`. */
  function AddVat(t: Table, c: Coercions): (r: Result<Table, Error>)
    requires WellFormed(t)
    ensures r.Success? <==> Count(t.columns, "price") == 1
    ensures r.Failure? ==> r.error == if "price" in t.columns then DuplicateColumn("price") else MissingColumn("price")
    ensures r.Success? ==> WellFormed(r.value) && SameOutside(t, r.value, {"price_with_vat"})
    ensures r.Success? ==>
              r.value.columns == if "price_with_vat" in t.columns then t.columns else t.columns + ["price_with_vat"]
    ensures r.Success? ==> forall i, j, p ::
              (0 <= i < |t.rows| && 0 <= j < |r.value.columns| && 0 <= p < |t.columns| &&
               r.value.columns[j] == "price_with_vat" && t.columns[p] == "price") ==>
              r.value.rows[i][j] == VatOf(c, t.rows[i][p])
  {
    if Count(t.columns, "price") == 0 then Failure(MissingColumn("price"))
    else if Count(t.columns, "price") > 1 then Failure(DuplicateColumn("price"))
    else
      var p := IndexOf(t.columns, "price");
      var r := SetColumn(t, "price_with_vat", row => if p < |row| then VatOf(c, row[p]) else Null);
      assert forall q :: 0 <= q < |t.columns| && t.columns[q] == "price" ==> q == p by {
        forall q | 0 <= q < |t.columns| && t.columns[q] == "price" ensures q == p {
          SoleIndex(t.columns, "price", q);
        }
      }
      Success(r)
  }

  /** The price with VAT is null exactly when the price is not a number. */
  lemma VatNulls(c: Coercions, price: Value)
    ensures VatOf(c, price).Null? <==> !price.Num?
    ensures VatOf(c, price).Null? || VatOf(c, price).Num?
  {
  }

  // ---- Duplicate ids --------------------------------------------------------

  /** The value an id cell stands for when pandas hashes the id column as
      Python objects: a bool is the number 1 or 0 (`True == 1`,
      `hash(True) == hash(1)`), and any other value stands for itself. */
  function IdValue(v: Value): (r: Value)
    ensures !r.Bool?
  {
    if v.Bool? then Num(if v.b then 1.0 else 0.0) else v
  }

  /** Python's `==` on two id cells: a bool equals the number 1 or 0, a
      number equals a number of the same value (`1 == 1.0`), and any other
      two values are equal when they are the same value. */
  predicate PyEq(v: Value, w: Value) {
    if v.Bool? && w.Bool? then v.b == w.b
    else if v.Bool? && w.Num? then w.n == (if v.b then 1.0 else 0.0)
    else if v.Num? && w.Bool? then v.n == (if w.b then 1.0 else 0.0)
    else v == w
  }

  /** Two id cells stand for the same value exactly when Python finds them
      equal. */
  lemma IdValueEq(v: Value, w: Value)
    ensures IdValue(v) == IdValue(w) <==> PyEq(v, w)
  {
  }

  /** What a row holds in every column named "id", in column order, each cell
      as the value Python compares it by. */
  function IdKey(cols: seq<string>, row: Row): seq<Value> {
    if cols == [] || row == [] then []
    else (if cols[0] == "id" then [IdValue(row[0])] else []) + IdKey(cols[1..], row[1..])
  }

  /** Two rows repeat each other for `subset=["id"]`: Python finds their
      cells equal in every column named "id". */
  predicate SameIds(cols: seq<string>, a: Row, b: Row)
    requires |a| == |cols| && |b| == |cols|
  {
    forall i :: 0 <= i < |cols| && cols[i] == "id" ==> PyEq(a[i], b[i])
  }

  /** A row has one key cell per column named "id". */
  lemma {:induction false} IdKeyLength(cols: seq<string>, row: Row)
    requires |row| == |cols|
    ensures |IdKey(cols, row)| == Count(cols, "id")
  {
    if cols != [] {
      IdKeyLength(cols[1..], row[1..]);
    }
  }

  /** The id keys of two rows agree exactly when the rows repeat each other
      under Python's equality. */
  lemma {:induction false} IdKeySame(cols: seq<string>, a: Row, b: Row)
    requires |a| == |cols| && |b| == |cols|
    ensures IdKey(cols, a) == IdKey(cols, b) <==> SameIds(cols, a, b)
  {
    if cols != [] {
      var ha := if cols[0] == "id" then [IdValue(a[0])] else [];
      var hb := if cols[0] == "id" then [IdValue(b[0])] else [];
      var ta := IdKey(cols[1..], a[1..]);
      var tb := IdKey(cols[1..], b[1..]);
      IdKeySame(cols[1..], a[1..], b[1..]);
      IdValueEq(a[0], b[0]);
      assert IdKey(cols, a) == ha + ta && IdKey(cols, b) == hb + tb;
      SplitEqual(ha, ta, hb, tb);
      ShiftSameIds(cols, a, b);
    }
  }

  /** Two concatenations with first parts of one length agree exactly when
      both parts do. */
  lemma SplitEqual<T>(x: seq<T>, y: seq<T>, u: seq<T>, w: seq<T>)
    requires |x| == |u|
    ensures x + y == u + w <==> x == u && y == w
  {
    if x + y == u + w {
      assert x == (x + y)[..|x|] && u == (u + w)[..|u|];
      assert y == (x + y)[|x|..] && w == (u + w)[|u|..];
    }
  }

  /** Repeating each other splits into the first column and the rest. */
  lemma ShiftSameIds(cols: seq<string>, a: Row, b: Row)
    requires |a| == |cols| && |b| == |cols| && cols != []
    ensures SameIds(cols, a, b) <==>
              (cols[0] == "id" ==> PyEq(a[0], b[0])) && SameIds(cols[1..], a[1..], b[1..])
  {
    if (cols[0] == "id" ==> PyEq(a[0], b[0])) && SameIds(cols[1..], a[1..], b[1..]) {
      forall i | 0 <= i < |cols| && cols[i] == "id" ensures PyEq(a[i], b[i]) {
        if i > 0 {
          assert cols[1..][i - 1] == cols[i] && a[1..][i - 1] == a[i] && b[1..][i - 1] == b[i];
        }
      }
    }
    if SameIds(cols, a, b) {
      forall i | 0 <= i < |cols| - 1 && cols[1..][i] == "id" ensures PyEq(a[1..][i], b[1..][i]) {
        assert cols[1..][i] == cols[i + 1] && a[1..][i] == a[i + 1] && b[1..][i] == b[i + 1];
      }
    }
  }

  /** With a single id column the key is that column's cell. */
  lemma {:induction false} IdKeySingle(cols: seq<string>, row: Row)
    requires |row| == |cols| && Count(cols, "id") == 1
    ensures IdKey(cols, row) == [IdValue(row[IndexOf(cols, "id")])]
  {
    if cols[0] != "id" {
      IdKeySingle(cols[1..], row[1..]);
    } else {
      IdKeyNone(cols[1..], row[1..]);
    }
  }

  lemma {:induction false} IdKeyNone(cols: seq<string>, row: Row)
    requires "id" !in cols
    ensures IdKey(cols, row) == []
  {
    if cols != [] && row != [] {
      IdKeyNone(cols[1..], row[1..]);
    }
  }

  /** The key `drop_duplicates(subset=["id"])` compares rows by. */
  function IdKeyOf(cols: seq<string>): Row -> seq<Value> {
    (row: Row) => IdKey(cols, row)
  }

  /** Row `i` is the first row of `t` with its id, under Python's equality. */
  predicate FirstWithId(t: Table, i: nat)
    requires WellFormed(t) && i < |t.rows|
  {
    forall j :: 0 <= j < i ==> !SameIds(t.columns, t.rows[j], t.rows[i])
  }

  /** `df.drop_duplicates(subset=["id"]).reset_index(drop=True)`. Positions
      are 0 to n - 1 by construction. */
  function DropDuplicateIds(t: Table): (r: Table)
    requires WellFormed(t)
    ensures WellFormed(r) && r.columns == t.columns && |r.rows| <= |t.rows|
    ensures forall k :: 0 <= k < |r.rows| ==> r.rows[k] in t.rows
  {
    var key := IdKeyOf(t.columns);
    Dedup.DropDuplicatesSpec(t.rows, key);
    var rows := Dedup.DropDuplicates(t.rows, key);
    forall k | 0 <= k < |rows| ensures rows[k] in t.rows {
      var i := Dedup.FirstIndex(t.rows, key, key(rows[k]));
    }
    Table(t.columns, rows)
  }

  /** The ids that survive the dedup are pairwise distinct: no two surviving
      rows repeat each other under Python's equality. */
  lemma DropDuplicateIdsDistinct(t: Table)
    requires WellFormed(t)
    ensures var r := DropDuplicateIds(t);
      forall k, l :: 0 <= k < l < |r.rows| ==> IdKey(t.columns, r.rows[k]) != IdKey(t.columns, r.rows[l])
    ensures var r := DropDuplicateIds(t);
      forall k, l :: 0 <= k < l < |r.rows| ==> !SameIds(t.columns, r.rows[k], r.rows[l])
  {
    var key := IdKeyOf(t.columns);
    var rows := DropDuplicateIds(t).rows;
    Dedup.DropDuplicatesSpec(t.rows, key);
    forall k, l | 0 <= k < l < |rows| ensures IdKey(t.columns, rows[k]) != IdKey(t.columns, rows[l]) {
      assert key(rows[k]) != key(rows[l]);
    }
    forall k, l | 0 <= k < l < |rows| ensures !SameIds(t.columns, rows[k], rows[l]) {
      IdKeySame(t.columns, rows[k], rows[l]);
    }
  }

  /** Every id of the input is still present after the dedup: each input row
      is repeated, under Python's equality, by a surviving row. */
  lemma DropDuplicateIdsComplete(t: Table)
    requires WellFormed(t)
    ensures var r := DropDuplicateIds(t);
      forall i :: 0 <= i < |t.rows| ==>
        exists k :: 0 <= k < |r.rows| && IdKey(t.columns, r.rows[k]) == IdKey(t.columns, t.rows[i])
    ensures var r := DropDuplicateIds(t);
      forall i :: 0 <= i < |t.rows| ==> RepeatedBy(t, r, i)
  {
    var key := IdKeyOf(t.columns);
    var rows := DropDuplicateIds(t).rows;
    Dedup.DropDuplicatesSpec(t.rows, key);
    var ks := Dedup.KeysOf(rows, key);
    var ts := Dedup.KeysOf(t.rows, key);
    forall i | 0 <= i < |t.rows|
      ensures exists k :: 0 <= k < |rows| && IdKey(t.columns, rows[k]) == IdKey(t.columns, t.rows[i])
      ensures RepeatedBy(t, DropDuplicateIds(t), i)
    {
      assert ts[i] == key(t.rows[i]);
      assert key(t.rows[i]) in ks;
      var k :| 0 <= k < |rows| && ks[k] == key(t.rows[i]);
      assert key(rows[k]) == IdKey(t.columns, rows[k]);
      IdKeySame(t.columns, rows[k], t.rows[i]);
      assert SameIds(t.columns, rows[k], t.rows[i]);
    }
  }

  /** Row `i` of `t` is repeated by some row of `r`. */
  predicate RepeatedBy(t: Table, r: Table, i: nat)
    requires WellFormed(t) && WellFormed(r) && r.columns == t.columns && i < |t.rows|
  {
    exists k :: 0 <= k < |r.rows| && SameIds(t.columns, r.rows[k], t.rows[i])
  }

  /** `row` is the first row of `t` with its id. */
  predicate FirstRowWithId(t: Table, row: Row)
    requires WellFormed(t)
  {
    exists i :: 0 <= i < |t.rows| && row == t.rows[i] && FirstWithId(t, i)
  }

  /** Each row the dedup keeps is the first row of the input with its id
      (`keep="first"`). */
  lemma DropDuplicateIdsFirst(t: Table)
    requires WellFormed(t)
    ensures var r := DropDuplicateIds(t);
      forall k :: 0 <= k < |r.rows| ==> FirstRowWithId(t, r.rows[k])
  {
    var key := IdKeyOf(t.columns);
    var r := DropDuplicateIds(t);
    Dedup.DropDuplicatesFirst(t.rows, key);
    forall k | 0 <= k < |r.rows| ensures FirstRowWithId(t, r.rows[k]) {
      var i := Dedup.FirstIndex(t.rows, key, key(r.rows[k]));
      assert r.rows[k] == t.rows[i];
      forall j | 0 <= j < i ensures !SameIds(t.columns, t.rows[j], t.rows[i]) {
        assert key(t.rows[j]) != key(t.rows[i]);
        IdKeySame(t.columns, t.rows[j], t.rows[i]);
      }
      assert FirstWithId(t, i);
    }
  }

  /** The rows the dedup keeps appear in the order of their ids' first
      occurrences in the input. */
  lemma DropDuplicateIdsOrder(t: Table)
    requires WellFormed(t)
    ensures var r := DropDuplicateIds(t);
      var key := IdKeyOf(t.columns);
      forall k, l :: 0 <= k < l < |r.rows| ==>
        key(r.rows[k]) in Dedup.KeysOf(t.rows, key) && key(r.rows[l]) in Dedup.KeysOf(t.rows, key) &&
        Dedup.FirstIndex(t.rows, key, key(r.rows[k])) < Dedup.FirstIndex(t.rows, key, key(r.rows[l]))
  {
    Dedup.DropDuplicatesSpec(t.rows, IdKeyOf(t.columns));
  }

  /** The rows of `[{"id": 1, "title": a}, {"id": true, "title": b}]` repeat
      each other, since `True == 1`: only the first survives. */
  lemma BoolIdRepeats(a: string, b: string)
    ensures var t := Table(["id", "title"], [[Num(1.0), Str(a)], [Bool(true), Str(b)]]);
      WellFormed(t) && DropDuplicateIds(t).rows == [[Num(1.0), Str(a)]]
  {
    var t := Table(["id", "title"], [[Num(1.0), Str(a)], [Bool(true), Str(b)]]);
    var key := IdKeyOf(t.columns);
    assert t.columns[1..] == ["title"] && t.columns[1..][1..] == [];
    assert Count(t.columns, "id") == 1 && IndexOf(t.columns, "id") == 0;
    IdKeySingle(t.columns, t.rows[0]);
    IdKeySingle(t.columns, t.rows[1]);
    assert key(t.rows[0]) == [Num(1.0)];
    assert key(t.rows[1]) == [Num(1.0)];
    assert t.rows[1..][1..] == [];
    assert Dedup.Scan(t.rows[1..], key, {[Num(1.0)]}) == [];
    var seen: set<seq<Value>> := {};
    assert seen + {key(t.rows[0])} == {[Num(1.0)]};
    assert Dedup.Scan(t.rows, key, seen) == [t.rows[0]] + Dedup.Scan(t.rows[1..], key, {[Num(1.0)]});
    assert DropDuplicateIds(t).rows == Dedup.DropDuplicates(t.rows, key);
  }

  /** Missing ids compare equal: with one id column, at most one surviving
      row has a null id. */
  lemma DropDuplicateIdsOneNull(t: Table)
    requires WellFormed(t) && Count(t.columns, "id") == 1
    ensures var r := DropDuplicateIds(t); var j := IndexOf(t.columns, "id");
      forall k, l :: 0 <= k < l < |r.rows| && r.rows[k][j] == Null ==> r.rows[l][j] != Null
  {
    var r := DropDuplicateIds(t);
    var j := IndexOf(t.columns, "id");
    DropDuplicateIdsDistinct(t);
    forall k, l | 0 <= k < l < |r.rows| && r.rows[k][j] == Null ensures r.rows[l][j] != Null {
      IdKeySingle(t.columns, r.rows[k]);
      IdKeySingle(t.columns, r.rows[l]);
    }
  }
}
