/** `normalize_products` (pipelines/transform.py): a parsed product payload
    becomes a frame with the six required columns, typed numeric and text
    columns, a derived VAT column and one row per id. */
module Transform {
  import opened Wrappers
  import opened Json
  import opened Names
  import opened Flatten
  import opened Frames
  import Dedup

  const NumericNames: set<string> := {"price", "rating_rate", "rating_count"}
  const TextNames: set<string> := {"title", "category"}

  /** The stages before the dedup, in the order the source runs them. */
  function Typed(payload: Value, c: Coercions): (r: Result<Table, Error>)
    ensures r.Success? ==> WellFormed(r.value)
  {
    var records :- Records(payload);
    Columnwise(Filled(records), c)
  }

  /** The frame once it is flattened and its columns renamed. */
  function Renamed(records: seq<seq<Field>>): (t: Table)
    ensures WellFormed(t) && |t.rows| == |records|
  {
    CanonicaliseColumns(FromRecords(records))
  }

  /** The renamed frame after the fill loop. */
  function Filled(records: seq<seq<Field>>): (t: Table)
    ensures WellFormed(t) && |t.rows| == |records|
    ensures t.columns == Renamed(records).columns + Missing(Required, Renamed(records).columns)
    ensures "price" in t.columns && "rating_rate" in t.columns && "rating_count" in t.columns
    ensures "title" in t.columns && "category" in t.columns
    ensures forall n :: n in Required ==> n in t.columns
  {
    var t := WithRequired(Renamed(records));
    MissingMembers(Required, Renamed(records).columns);
    assert "price" in Required && "rating_rate" in Required && "rating_count" in Required;
    assert "title" in Required && "category" in Required;
    t
  }

  /** The whole-column stages: three numeric conversions, two text
      conversions and the VAT column. */
  function Columnwise(filled: Table, c: Coercions): (r: Result<Table, Error>)
    requires WellFormed(filled)
    ensures r.Success? ==> WellFormed(r.value)
  {
    var t1 :- NumericColumn(filled, "price", c);
    var t2 :- NumericColumn(t1, "rating_rate", c);
    var t3 :- NumericColumn(t2, "rating_count", c);
    TextAndVat(t3, c)
  }

  /** The two text conversions and the VAT column. */
  function TextAndVat(t3: Table, c: Coercions): (r: Result<Table, Error>)
    requires WellFormed(t3)
    ensures r.Success? ==> WellFormed(r.value)
  {
    var t4 :- TextColumn(t3, "title", c);
    var t5 :- TextColumn(t4, "category", c);
    AddVat(t5, c)
  }

  /** The whole of `normalize_products`. */
  function Normalize(payload: Value, c: Coercions): (r: Result<Table, Error>)
    ensures Records(payload).Failure? ==> r.Failure?
    ensures r.Success? ==> Records(payload).Success? && WellFormed(r.value)
  {
    var t :- Typed(payload, c);
    Success(DropDuplicateIds(t))
  }

  /** The frame as `normalize_products` reassigns it: flatten, rename the
      columns in place, run the fill loop on the frame, then the whole-column
      stages. */
  method NormalizeProducts(payload: Value, c: Coercions) returns (r: Result<Table, Error>)
    ensures r == Normalize(payload, c)
  {
    var records :- Records(payload);
    var df := new Frame(FromRecords(records));
    df.columns := CanonicaliseColumns(df.Snapshot()).columns;
    df.FillRequired();
    var t1 :- NumericColumn(df.Snapshot(), "price", c);
    var t2 :- NumericColumn(t1, "rating_rate", c);
    var t3 :- NumericColumn(t2, "rating_count", c);
    var t4 :- TextColumn(t3, "title", c);
    var t5 :- TextColumn(t4, "category", c);
    // price is a single column by now, so the VAT step cannot fail
    var t6 := AddVat(t5, c);
    r := Success(DropDuplicateIds(t6.value));
  }

  // ---- What the output promises ----------------------------------------------

  /** After the fill loop a required name occurs as often as it did before,
      or once if it was absent. */
  lemma FilledCount(names: seq<string>, n: string)
    requires n in Required
    ensures Count(names + Missing(Required, names), n) == if n in names then Count(names, n) else 1
  {
    var m := Missing(Required, names);
    MissingMembers(Required, names);
    RequiredDistinct();
    MissingDistinct(Required, names);
    CountDistinct(m, n);
    CountAppend(names, m, n);
  }

  /** The numeric column that makes the run fail: the first of price,
      rating_rate and rating_count that occurs more than once. */
  function FirstDuplicate(cols: seq<string>): string {
    if Count(cols, "price") > 1 then "price"
    else if Count(cols, "rating_rate") > 1 then "rating_rate"
    else "rating_count"
  }

  /** On a frame holding every required column the column stages fail exactly
      when a numeric name occurs more than once. */
  lemma ColumnwiseOutcome(t: Table, c: Coercions)
    requires WellFormed(t)
    requires "price" in t.columns && "rating_rate" in t.columns && "rating_count" in t.columns
    requires "title" in t.columns && "category" in t.columns
    ensures Columnwise(t, c).Success? <==>
              Count(t.columns, "price") == 1 && Count(t.columns, "rating_rate") == 1 && Count(t.columns, "rating_count") == 1
    ensures Columnwise(t, c).Failure? ==> Columnwise(t, c).error == DuplicateColumn(FirstDuplicate(t.columns))
  {
    var r1 := NumericColumn(t, "price", c);
    if r1.Success? {
      var r2 := NumericColumn(r1.value, "rating_rate", c);
      if r2.Success? {
        var r3 := NumericColumn(r2.value, "rating_count", c);
        if r3.Success? {
          TextAndVatSucceeds(r3.value, c);
        }
      }
    }
  }

  /** With title, category and a single price in place the rest cannot fail. */
  lemma TextAndVatSucceeds(t: Table, c: Coercions)
    requires WellFormed(t) && "title" in t.columns && "category" in t.columns
    requires Count(t.columns, "price") == 1
    ensures TextAndVat(t, c).Success?
  {
    var r4 := TextColumn(t, "title", c);
    var r5 := TextColumn(r4.value, "category", c);
    assert r5.value.columns == t.columns;
  }

  /** After flattening, the column stages fail exactly when a numeric name
      labels more than one renamed column. */
  lemma FilledOutcome(filled: Table, names: seq<string>, c: Coercions)
    requires WellFormed(filled) && filled.columns == names + Missing(Required, names)
    ensures var r := Columnwise(filled, c);
      && (r.Success? <==> Count(names, "price") <= 1 && Count(names, "rating_rate") <= 1 && Count(names, "rating_count") <= 1)
      && (r.Failure? ==> r.error == DuplicateColumn(FirstDuplicate(names)))
  {
    FilledHasRequired(names);
    ColumnwiseOutcome(filled, c);
    FilledCount(names, "price");
    FilledCount(names, "rating_rate");
    FilledCount(names, "rating_count");
  }

  /** The five names the column stages read are there after the fill loop. */
  lemma FilledHasRequired(names: seq<string>)
    ensures var cols := names + Missing(Required, names);
      "price" in cols && "rating_rate" in cols && "rating_count" in cols && "title" in cols && "category" in cols
  {
    MissingMembers(Required, names);
    assert "price" in Required && "rating_rate" in Required && "rating_count" in Required;
    assert "title" in Required && "category" in Required;
  }

  /** When `normalize_products` raises: a payload that is not an object or an
      array of non-arrays is refused; otherwise the run fails exactly when two
      columns end up with the same numeric name after renaming, and the error
      names the first such column. A required column is never reported
      missing, because the fill loop has added it. */
  lemma NormalizeOutcome(payload: Value, c: Coercions)
    ensures Records(payload).Failure? ==> Normalize(payload, c) == Failure(Records(payload).error)
    ensures Records(payload).Success? ==>
              var names := Renamed(Records(payload).value).columns;
              && (Normalize(payload, c).Success? <==>
                    Count(names, "price") <= 1 && Count(names, "rating_rate") <= 1 && Count(names, "rating_count") <= 1)
              && (Normalize(payload, c).Failure? ==> Normalize(payload, c).error == DuplicateColumn(FirstDuplicate(names)))
  {
    if Records(payload).Success? {
      var records := Records(payload).value;
      assert Typed(payload, c) == Columnwise(Filled(records), c);
      FilledOutcome(Filled(records), Renamed(records).columns, c);
    }
  }

  /** The VAT column agrees with the price in every row: null where the price
      is null, the VAT-inclusive price where it is a number. */
  predicate VatConsistent(t: Table, c: Coercions)
    requires WellFormed(t)
  {
    forall i, j, p ::
      (0 <= i < |t.rows| && 0 <= j < |t.columns| && 0 <= p < |t.columns| &&
       t.columns[j] == "price_with_vat" && t.columns[p] == "price") ==>
        (t.rows[i][j].Null? <==> t.rows[i][p].Null?) &&
        (t.rows[i][p].Num? ==> t.rows[i][j] == Num(c.vat(t.rows[i][p].n)))
  }

  /** The cell types the source promises its callers. */
  predicate Curated(t: Table, c: Coercions)
    requires WellFormed(t)
  {
    && IsNumericColumn(t, "price") && IsNumericColumn(t, "rating_rate") && IsNumericColumn(t, "rating_count")
    && IsTextColumn(t, "title") && IsTextColumn(t, "category")
    && VatConsistent(t, c)
  }

  /** The columns in `nums` hold numbers or nulls, those in `texts` text or
      nulls. */
  predicate Kinds(t: Table, nums: set<string>, texts: set<string>)
    requires WellFormed(t)
  {
    && (forall n :: n in nums ==> IsNumericColumn(t, n))
    && (forall n :: n in texts ==> IsTextColumn(t, n))
  }

  /** A numeric conversion adds its column to the numeric ones and keeps the
      kinds of the others. */
  lemma NumericStep(t: Table, name: string, c: Coercions, nums: set<string>, texts: set<string>)
    requires WellFormed(t) && NumericColumn(t, name, c).Success? && name !in texts
    requires Kinds(t, nums, texts)
    ensures var r := NumericColumn(t, name, c).value;
      WellFormed(r) && r.columns == t.columns && |r.rows| == |t.rows| && Kinds(r, nums + {name}, texts)
  {
    var r := NumericColumn(t, name, c).value;
    forall n | n in nums + texts && n != name
      ensures (n in nums ==> IsNumericColumn(r, n)) && (n in texts ==> IsTextColumn(r, n))
    {
      assert r.columns == t.columns + [];
      KeepsColumnKind(t, r, {name}, [], n);
    }
  }

  /** A text conversion adds its column to the text ones and keeps the kinds
      of the others. */
  lemma TextStep(t: Table, name: string, c: Coercions, nums: set<string>, texts: set<string>)
    requires WellFormed(t) && TextColumn(t, name, c).Success? && name !in nums
    requires Kinds(t, nums, texts)
    ensures var r := TextColumn(t, name, c).value;
      WellFormed(r) && r.columns == t.columns && |r.rows| == |t.rows| && Kinds(r, nums, texts + {name})
  {
    var r := TextColumn(t, name, c).value;
    forall n | n in nums + texts && n != name
      ensures (n in nums ==> IsNumericColumn(r, n)) && (n in texts ==> IsTextColumn(r, n))
    {
      assert r.columns == t.columns + [];
      KeepsColumnKind(t, r, {name}, [], n);
    }
  }

  /** The five conversions leave the columns as they were and give every
      numeric and text name its kind. */
  lemma ConversionKinds(t: Table, t1: Table, t2: Table, t3: Table, t4: Table, t5: Table, c: Coercions)
    requires WellFormed(t)
    requires NumericColumn(t, "price", c) == Success(t1)
    requires NumericColumn(t1, "rating_rate", c) == Success(t2)
    requires NumericColumn(t2, "rating_count", c) == Success(t3)
    requires TextColumn(t3, "title", c) == Success(t4)
    requires TextColumn(t4, "category", c) == Success(t5)
    ensures WellFormed(t5) && t5.columns == t.columns && |t5.rows| == |t.rows|
    ensures Kinds(t5, NumericNames, TextNames)
  {
    NumericStep(t, "price", c, {}, {});
    assert {} + {"price"} == {"price"};
    NumericStep(t1, "rating_rate", c, {"price"}, {});
    assert {"price"} + {"rating_rate"} == {"price", "rating_rate"};
    NumericStep(t2, "rating_count", c, {"price", "rating_rate"}, {});
    assert {"price", "rating_rate"} + {"rating_count"} == NumericNames;
    TextStep(t3, "title", c, NumericNames, {});
    assert {} + {"title"} == {"title"};
    TextStep(t4, "category", c, NumericNames, {"title"});
    assert {"title"} + {"category"} == TextNames;
  }

  /** What the column stages produce: the columns are kept, with
      price_with_vat appended when it was absent, and the frame is curated. */
  lemma ColumnwiseShape(t: Table, c: Coercions)
    requires WellFormed(t) && Columnwise(t, c).Success?
    ensures var r := Columnwise(t, c).value;
      && r.columns == (if "price_with_vat" in t.columns then t.columns else t.columns + ["price_with_vat"])
      && |r.rows| == |t.rows|
      && Curated(r, c)
    ensures Count(t.columns, "price") == 1 && Count(t.columns, "rating_rate") == 1 && Count(t.columns, "rating_count") == 1
  {
    var t1 := NumericColumn(t, "price", c).value;
    var t2 := NumericColumn(t1, "rating_rate", c).value;
    var t3 := NumericColumn(t2, "rating_count", c).value;
    var t4 := TextColumn(t3, "title", c).value;
    var t5 := TextColumn(t4, "category", c).value;
    assert Columnwise(t, c) == AddVat(t5, c) by {
      assert NumericColumn(t, "price", c).Success?;
      assert NumericColumn(t1, "rating_rate", c).Success?;
      assert NumericColumn(t2, "rating_count", c).Success?;
      assert TextColumn(t3, "title", c).Success?;
      assert TextColumn(t4, "category", c).Success?;
    }
    ConversionKinds(t, t1, t2, t3, t4, t5, c);
    StageKeepsKinds(t5, AddVat(t5, c).value, c);
  }

  /** The VAT step keeps the kinds of the other columns and makes the VAT
      column agree with the price. */
  lemma StageKeepsKinds(t5: Table, t6: Table, c: Coercions)
    requires WellFormed(t5) && AddVat(t5, c) == Success(t6)
    requires Kinds(t5, NumericNames, TextNames)
    ensures Curated(t6, c)
  {
    assert IsNumericColumn(t5, "price") && IsNumericColumn(t5, "rating_rate") && IsNumericColumn(t5, "rating_count");
    assert IsTextColumn(t5, "title") && IsTextColumn(t5, "category");
    VatKeepsKind(t5, t6, c, "price");
    VatKeepsKind(t5, t6, c, "rating_rate");
    VatKeepsKind(t5, t6, c, "rating_count");
    VatKeepsKind(t5, t6, c, "title");
    VatKeepsKind(t5, t6, c, "category");
    VatAgrees(t5, t6, c);
  }

  /** The VAT step keeps the kind of every other column. */
  lemma VatKeepsKind(t5: Table, t6: Table, c: Coercions, name: string)
    requires WellFormed(t5) && AddVat(t5, c) == Success(t6) && name != "price_with_vat"
    ensures IsNumericColumn(t5, name) ==> IsNumericColumn(t6, name)
    ensures IsTextColumn(t5, name) ==> IsTextColumn(t6, name)
  {
    var added := if "price_with_vat" in t5.columns then [] else ["price_with_vat"];
    assert t6.columns == t5.columns + added;
    KeepsColumnKind(t5, t6, {"price_with_vat"}, added, name);
  }

  /** After the VAT step the VAT column agrees with the price. */
  lemma VatAgrees(t5: Table, t6: Table, c: Coercions)
    requires WellFormed(t5) && AddVat(t5, c) == Success(t6)
    requires IsNumericColumn(t5, "price")
    ensures VatConsistent(t6, c)
  {
    forall i, j, p | 0 <= i < |t6.rows| && 0 <= j < |t6.columns| && 0 <= p < |t6.columns| &&
        t6.columns[j] == "price_with_vat" && t6.columns[p] == "price"
      ensures (t6.rows[i][j].Null? <==> t6.rows[i][p].Null?)
      ensures t6.rows[i][p].Num? ==> t6.rows[i][j] == Num(c.vat(t6.rows[i][p].n))
    {
      OldColumn(t5.columns, t6.columns, p);
      assert t6.rows[i][p] == t5.rows[i][p];
      assert t6.rows[i][j] == VatOf(c, t5.rows[i][p]);
    }
  }

  /** A column other than price_with_vat was there before the VAT step. */
  lemma OldColumn(cols: seq<string>, cols': seq<string>, p: nat)
    requires cols' == (if "price_with_vat" in cols then cols else cols + ["price_with_vat"])
    requires p < |cols'| && cols'[p] != "price_with_vat"
    ensures p < |cols| && cols[p] == cols'[p]
  {
  }

  /** A frame whose rows are some of the rows of a curated frame, under the
      same columns, is curated. */
  lemma CuratedSubset(t: Table, r: Table, c: Coercions)
    requires WellFormed(t) && WellFormed(r) && Curated(t, c)
    requires r.columns == t.columns && forall k :: 0 <= k < |r.rows| ==> r.rows[k] in t.rows
    ensures Curated(r, c)
  {
    SubsetKeepsKind(t, r, "price");
    SubsetKeepsKind(t, r, "rating_rate");
    SubsetKeepsKind(t, r, "rating_count");
    SubsetKeepsKind(t, r, "title");
    SubsetKeepsKind(t, r, "category");
    SubsetKeepsVat(t, r, c);
  }

  /** Keeping some of the rows keeps the VAT column consistent. */
  lemma SubsetKeepsVat(t: Table, r: Table, c: Coercions)
    requires WellFormed(t) && WellFormed(r) && VatConsistent(t, c)
    requires r.columns == t.columns && forall k :: 0 <= k < |r.rows| ==> r.rows[k] in t.rows
    ensures VatConsistent(r, c)
  {
    forall k, j, p | 0 <= k < |r.rows| && 0 <= j < |r.columns| && 0 <= p < |r.columns| &&
        r.columns[j] == "price_with_vat" && r.columns[p] == "price"
      ensures (r.rows[k][j].Null? <==> r.rows[k][p].Null?)
      ensures r.rows[k][p].Num? ==> r.rows[k][j] == Num(c.vat(r.rows[k][p].n))
    {
      var i := RowIndex(t, r, k);
      assert t.rows[i][j] == r.rows[k][j] && t.rows[i][p] == r.rows[k][p];
    }
  }

  /** Where a row of `r` sits in `t`. */
  ghost function RowIndex(t: Table, r: Table, k: nat): (i: nat)
    requires k < |r.rows| && r.rows[k] in t.rows
    ensures i < |t.rows| && r.rows[k] == t.rows[i]
  {
    var i :| 0 <= i < |t.rows| && r.rows[k] == t.rows[i];
    i
  }

  /** Keeping some of the rows keeps the kind of a column. */
  lemma SubsetKeepsKind(t: Table, r: Table, name: string)
    requires WellFormed(t) && WellFormed(r)
    requires r.columns == t.columns && forall k :: 0 <= k < |r.rows| ==> r.rows[k] in t.rows
    ensures IsNumericColumn(t, name) ==> IsNumericColumn(r, name)
    ensures IsTextColumn(t, name) ==> IsTextColumn(r, name)
  {
    forall k, j | 0 <= k < |r.rows| && 0 <= j < |r.columns| && r.columns[j] == name
      ensures r.rows[k][j] == t.rows[RowIndex(t, r, k)][j]
    {
    }
  }

  /** What a successful run returns: a well-formed frame that starts with the
      renamed columns, then the required ones that were absent, then
      price_with_vat unless a column already had that name; each numeric name
      labels exactly one column; the cells are curated; no two rows share an
      id; and there are no more rows than records. */
  lemma NormalizeShape(payload: Value, c: Coercions)
    requires Normalize(payload, c).Success?
    ensures Records(payload).Success?
    ensures var t := Normalize(payload, c).value;
      var names := Renamed(Records(payload).value).columns;
      var filled := names + Missing(Required, names);
      && WellFormed(t)
      && t.columns == (if "price_with_vat" in filled then filled else filled + ["price_with_vat"])
      && (forall n :: n in Required ==> n in t.columns)
      && "price_with_vat" in t.columns
      && Count(t.columns, "price") == 1 && Count(t.columns, "rating_rate") == 1 && Count(t.columns, "rating_count") == 1
      && Curated(t, c)
      && (forall k, l :: 0 <= k < l < |t.rows| ==> IdKey(t.columns, t.rows[k]) != IdKey(t.columns, t.rows[l]))
      && |t.rows| <= |Records(payload).value|
  {
    var records := Records(payload).value;
    assert Typed(payload, c) == Columnwise(Filled(records), c);
    FilledShape(Filled(records), c);
  }

  /** The shape of a successful run, stated on the filled frame. */
  lemma FilledShape(filled: Table, c: Coercions)
    requires WellFormed(filled) && Columnwise(filled, c).Success?
    ensures var t := DropDuplicateIds(Columnwise(filled, c).value);
      && WellFormed(t)
      && t.columns == (if "price_with_vat" in filled.columns then filled.columns else filled.columns + ["price_with_vat"])
      && "price_with_vat" in t.columns
      && Count(t.columns, "price") == 1 && Count(t.columns, "rating_rate") == 1 && Count(t.columns, "rating_count") == 1
      && Curated(t, c)
      && (forall k, l :: 0 <= k < l < |t.rows| ==> IdKey(t.columns, t.rows[k]) != IdKey(t.columns, t.rows[l]))
      && |t.rows| <= |filled.rows|
  {
    ColumnwiseShape(filled, c);
    DedupShape(filled.columns, Columnwise(filled, c).value, c);
  }

  /** What the dedup keeps of the typed frame. */
  lemma DedupShape(cols: seq<string>, t6: Table, c: Coercions)
    requires WellFormed(t6) && Curated(t6, c)
    requires t6.columns == (if "price_with_vat" in cols then cols else cols + ["price_with_vat"])
    requires Count(cols, "price") == 1 && Count(cols, "rating_rate") == 1 && Count(cols, "rating_count") == 1
    ensures var t := DropDuplicateIds(t6);
      && WellFormed(t) && t.columns == t6.columns && "price_with_vat" in t.columns
      && Count(t.columns, "price") == 1 && Count(t.columns, "rating_rate") == 1 && Count(t.columns, "rating_count") == 1
      && Curated(t, c)
      && (forall k, l :: 0 <= k < l < |t.rows| ==> IdKey(t.columns, t.rows[k]) != IdKey(t.columns, t.rows[l]))
      && |t.rows| <= |t6.rows|
  {
    var t := DropDuplicateIds(t6);
    CuratedSubset(t6, t, c);
    DropDuplicateIdsDistinct(t6);
    VatKeepsCount(cols, t.columns, "price");
    VatKeepsCount(cols, t.columns, "rating_rate");
    VatKeepsCount(cols, t.columns, "rating_count");
  }

  /** Adding the VAT column leaves the count of every other name alone. */
  lemma VatKeepsCount(cols: seq<string>, cols': seq<string>, n: string)
    requires cols' == (if "price_with_vat" in cols then cols else cols + ["price_with_vat"])
    requires n != "price_with_vat"
    ensures Count(cols', n) == Count(cols, n)
  {
    if "price_with_vat" !in cols {
      CountAppend(cols, ["price_with_vat"], n);
      assert Count(["price_with_vat"], n) == 0;
    }
  }

  /** Every key of every record names a column of the renamed frame, under
      its canonical name. */
  lemma RecordKeyRenamed(records: seq<seq<Field>>, k: nat, key: string)
    requires k < |records| && key in Keys(records[k])
    ensures Canonical(key) in Renamed(records).columns
  {
    var cols := UnionKeys(records);
    assert key in cols;
    var j :| 0 <= j < |cols| && cols[j] == key;
    assert Renamed(records).columns[j] == Canonical(key);
  }

  /** A product of an array payload whose `rating` object holds a scalar
      `rate` and a scalar `count` puts the columns `rating_rate` and
      `rating_count` in the frame before the fill loop runs. */
  lemma NestedRatingColumns(payload: Value, i: nat, rating: seq<Field>, rate: Value, count: Value)
    requires payload.Arr? && i < |payload.items| && payload.items[i].Obj?
    requires forall k :: 0 <= k < |payload.items| ==> !payload.items[k].Arr?
    requires Lookup(AsDict(payload.items[i].fields), "rating") == Some(Obj(rating))
    requires Lookup(AsDict(rating), "rate") == Some(rate) && !rate.Obj?
    requires Lookup(AsDict(rating), "count") == Some(count) && !count.Obj?
    ensures Records(payload).Success?
    ensures "rating_rate" in Renamed(Records(payload).value).columns
    ensures "rating_count" in Renamed(Records(payload).value).columns
  {
    ArrayRecord(payload, i);
    var records := Records(payload).value;
    var fields := payload.items[i].fields;
    NestedMemberFlattened(fields, "rating", rating, "rate", rate);
    NestedMemberFlattened(fields, "rating", rating, "count", count);
    RatingKeys();
    RatingRateName();
    RatingCountName();
    RecordKeyRenamed(records, i, "rating.rate");
    RecordKeyRenamed(records, i, "rating.count");
  }
}
