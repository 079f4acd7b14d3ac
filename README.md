# fake-store-pipeline: `normalize_products` in Dafny

`normalize_products` is the transform stage of the fake-store pipeline. It
reads the raw product payload, a JSON array of product objects. It turns the
payload into one flat table with a fixed set of columns:

1. Nested objects are flattened into `.`-joined column names (`rating.rate`).
2. Every column name is stripped, lower-cased, and has spaces and dots
   replaced by `_`.
3. Each of the six required columns (`id`, `title`, `price`, `category`,
   `rating_rate`, `rating_count`) that is absent is added, null in every
   row.
4. The three numeric columns are coerced to numbers. A bad value becomes
   null.
5. `title` and `category` are cast to text.
6. `price_with_vat` is derived from `price`.
7. Rows with a repeated `id` are dropped, keeping the first, and the rows
   are re-numbered from zero.

The model starts from the parsed JSON value, in `json.dfy`. A JSON object
is an association list that is read as the dictionary Python builds from
it: a key sits at its first position and takes its last value.

The project has these modules:

- `flatten.dfy` models `pd.json_normalize`.
- `names.dfy` models the column-name list comprehension.
- `table.dfy` models the data frame and its whole-column operations. The
  frame is a list of column names, where a name may occur twice, plus a
  list of rows. The fill loop is a `Frame` class whose method mutates the
  frame's columns and rows in place.
- `dedup.dfy` models the generic first-occurrence filter behind
  `drop_duplicates`.
- `transform.dfy` models the whole function. It has a method that runs the
  stages in order on a `Frame`, and a function `Normalize` that specifies
  that method. The theorems about a run are stated on `Normalize`.

Canonicalisation can give two source columns the same name. An example is
a nested `rating.rate` next to a top-level `rating_rate`. Pandas keeps both
columns, and so does the model. This has four consequences, all modelled:

- `pd.to_numeric` on a duplicated numeric name gets a frame instead of a
  column and raises.
- `astype("string")` converts every column of a duplicated text name.
- `price_with_vat` overwrites every column already named so, or is
  appended.
- `drop_duplicates(subset=["id"])` compares rows by the tuple of all `id`
  columns. Each cell is compared as Python compares it, so an id `true`
  repeats an id `1`.

`NormalizeOutcome` states exactly when the modelled run fails.
`NormalizeShape` states what a successful modelled run returns.

Two behaviours of the code are worth stating on their own:

- A top-level JSON object is accepted: `json_normalize` makes it a
  one-row table. The model refuses only a top-level scalar and an array
  holding an array; the second is a choice of the model, described under
  "Left out".
- Numeric coercion can raise, even though a bad cell never makes it
  raise: it raises when two renamed columns share a numeric name, as
  described above.

## Model

| member | source | states |
|---|---|---|
| Json.AsDict | pipelines/transform.py:11 | the dictionary `json.loads` makes of an object has unique keys and holds only members of the object |
| Json.AsDictLookup | pipelines/transform.py:11 | a key of the dictionary maps to the last value given for it in the object; the dictionary has exactly the object's keys |
| Json.PutAll | pipelines/transform.py:11 | putting a list of members into a dictionary: keys stay unique, each key maps to its last value in the list or else to its old value, the key set is the union, no foreign member appears |
| Json.PutFacts | pipelines/transform.py:11 | assigning one key: keys stay unique, the key maps to the new value, every other key keeps its value, an existing key keeps its position and a new one is appended |
| Json.Put | pipelines/transform.py:11 | `d[k] = v`; its contract is stated by PutFacts |
| Json.Lookup | pipelines/transform.py:11 | `d.get(k)`; specified by LookupAbsent and LookupFound |
| Json.LookupAbsent | pipelines/transform.py:11 | a lookup finds nothing exactly when the key is absent |
| Json.LookupFound | pipelines/transform.py:11 | a value a lookup finds is the value of a member with that key |
| Json.UniqueMember | pipelines/transform.py:11 | in a dictionary two members with the same key are the same member |
| Json.LastValueOf | pipelines/transform.py:11 | when every member with a key has the same value, that is the key's last value |
| Json.LastValueAbsent | pipelines/transform.py:11 | a key no member has gets no value |
| Json.LastValueUnique | pipelines/transform.py:11 | in a dictionary the last value of a key is the value of its member |
| Flatten.Join | pipelines/transform.py:14 | a nested key is `prefix.key`, and so extends its prefix |
| Flatten.Leaves | pipelines/transform.py:14 | every listed leaf is a non-object value at a key extending the prefix, and is, with that key and value, a leaf of the input reached along its path of member keys |
| Flatten.MemberLeaves | pipelines/transform.py:14 | every listed leaf is a non-object value at a key extending the prefix, and is a leaf, with its key and value, of one of the members |
| Flatten.LeavesComplete | pipelines/transform.py:14 | conversely, every leaf of the input along a path of member keys is listed |
| Flatten.LeavesUnder | pipelines/transform.py:14 | leaves under a longer key are under its prefix |
| Flatten.FlattenRecord | pipelines/transform.py:14 | a flattened record is a dictionary with no object values; its keys are exactly those of the top-level scalars and of the nested leaves, and each entry is one of those |
| Flatten.FlattenRecordSound | pipelines/transform.py:13-14 | every column of a flattened record is, with its value, a leaf of the record along a path of member keys: no column or value is made up |
| Flatten.FlattenRecordComplete | pipelines/transform.py:13-14 | every leaf of the record along a path of member keys is a column of the flattened record |
| Flatten.RecordOf | pipelines/transform.py:14 | an object element of the payload array becomes its flattened record, a scalar element an empty record |
| Flatten.Records | pipelines/transform.py:14 | the model refuses exactly a scalar payload and an array holding an array; an object payload gives the one record of that object; an array gives the record of each element, in order; every record is flat with unique keys |
| Flatten.MemberLeavesInclude | pipelines/transform.py:14 | every leaf of a nested member is among the leaves of its parent object |
| Flatten.NestedMemberFlattened | pipelines/transform.py:13-14 | a scalar member `key` of an object member `outer` of a record becomes the flat key `outer.key` |
| Flatten.LeafOfNestedMember | pipelines/transform.py:13-14 | a scalar member `key` of an object member `outer` is the leaf `(outer.key, value)` |
| Flatten.NestedMemberValue | pipelines/transform.py:13-14 | the flattened record maps `outer.key` to that member's value, unless another leaf gives the same key another value |
| Flatten.TopMemberKept | pipelines/transform.py:13-14 | a top-level non-object member keeps its value in the flattened record, unless a nested leaf has the same key |
| Flatten.ArrayRecord | pipelines/transform.py:14 | the record of an object element of an array payload is that object flattened |
| Flatten.RatingKeys | pipelines/transform.py:14 | the nested rating members get the flat keys `rating.rate` and `rating.count` |
| Frames.UnionKeys | pipelines/transform.py:14 | the frame's columns are distinct and are exactly the keys found in some record |
| Frames.FromRecords | pipelines/transform.py:14 | one row per record and one column per key; a cell holds the record's value for its column, or null when the record lacks that key |
| Frames.CellMeaning | pipelines/transform.py:14 | a cell is null when its record lacks the key, and otherwise is the looked-up value |
| Names.StripLeft | pipelines/transform.py:18 | `lstrip` leaves a suffix of the name that starts with no whitespace, and every character it removes is whitespace |
| Names.StripRight | pipelines/transform.py:18 | `rstrip` leaves a prefix of the name that ends with no whitespace, and every character it removes is whitespace |
| Names.Strip | pipelines/transform.py:18 | `strip` returns a slice of the name with no whitespace at either end, and every character outside the slice is whitespace |
| Names.StripSlice | pipelines/transform.py:18 | cutting whitespace from both ends leaves a slice with only whitespace outside it |
| Names.StripShorter | pipelines/transform.py:18 | stripping never lengthens a name |
| Names.LowerChar | pipelines/transform.py:18 | a lower-cased character is no capital; a capital becomes its own small letter (`A` to `a`, ..., `Z` to `z`), anything else is kept |
| Names.Lower | pipelines/transform.py:18 | `lower()` keeps the length, leaves no capital letter, turns each capital into its own small letter and keeps every other character |
| Names.Underscore | pipelines/transform.py:18 | the two replacements keep the length, leave no space or dot, turn each space and dot into `_`, and keep every other character |
| Names.Canonical | pipelines/transform.py:17-19 | the name a column gets; specified by CanonicalIsCanonical, CanonicalFixed and CanonicalIdempotent |
| Names.CanonicalIsCanonical | pipelines/transform.py:16-19 | every canonical name contains no space, no dot and no upper-case letter, has no surrounding whitespace, and is no longer than the source name |
| Names.StrippedCanonical | pipelines/transform.py:18 | a name with no whitespace at its ends is canonical after lower-casing and the replacements |
| Names.StagesCanonical | pipelines/transform.py:18 | the per-character effects of lower-casing and the replacements make a stripped name canonical |
| Names.EndCanonical | pipelines/transform.py:18 | a non-whitespace end character stays non-whitespace through lower-casing and the replacements |
| Names.CanonicalFixed | pipelines/transform.py:16-19 | a name that is already canonical is left unchanged |
| Names.CanonicalIdempotent | pipelines/transform.py:16-19 | canonicalising twice is canonicalising once; a name is left unchanged exactly when it is canonical |
| Names.CanonicalJoin | pipelines/transform.py:13-19 | the flat key `outer.inner` of two canonical words becomes `outer_inner` |
| Names.LowerWordCanonical | pipelines/transform.py:16-19 | a word of lower-case letters is canonical |
| Names.RatingWords | pipelines/transform.py:16-19 | `rating`, `rate` and `count` are canonical |
| Names.RatingRateName | pipelines/transform.py:13-19 | `rating.rate` becomes `rating_rate` |
| Names.RatingCountName | pipelines/transform.py:13-19 | `rating.count` becomes `rating_count` |
| Frames.CanonicaliseColumns | pipelines/transform.py:17-19 | renaming keeps the rows and the number of columns, and replaces each name by its canonical form (which may duplicate another) |
| Transform.RecordKeyRenamed | pipelines/transform.py:14-19 | every key of every record appears, under its canonical name, among the renamed columns |
| Transform.NestedRatingColumns | pipelines/transform.py:13-19 | a product whose `rating` object holds scalar `rate` and `count` gives the renamed frame the columns `rating_rate` and `rating_count` |
| Transform.Renamed | pipelines/transform.py:14-19 | the renamed frame is well-formed, with one row per record |
| Frames.MissingMembers | pipelines/transform.py:22-25 | a name is added by the fill loop exactly when it is required and absent |
| Frames.MissingDistinct | pipelines/transform.py:22-25 | the fill loop never adds a name twice |
| Frames.Missing | pipelines/transform.py:22-25 | the names the fill loop adds, in loop order; specified by MissingMembers and MissingDistinct |
| Frames.RequiredDistinct | pipelines/transform.py:22 | the six required names are distinct |
| Frames.WithRequired | pipelines/transform.py:21-25 | after the fill loop every required name is a column; old columns, old cells and the row count are unchanged; the appended columns are exactly the absent required names, null in every row |
| Frames.Frame.AddNullColumn | pipelines/transform.py:25 | the frame gains a last column of that name, null in every row |
| Frames.Frame.FillColumns | pipelines/transform.py:23-25 | the loop appends, in order, each listed name that is absent, null in every row, and leaves every listed name a column (loop invariant: the names already processed are present) |
| Frames.Frame.FillRequired | pipelines/transform.py:21-25 | the frame after the loop is `WithRequired` of the frame before it, and so holds every required name |
| Frames.FillStep | pipelines/transform.py:23-25 | one turn of the loop adds the current name exactly when it was absent from the original columns |
| Transform.Filled | pipelines/transform.py:14-25 | the filled frame is the renamed columns followed by the missing required ones, holds all six required names, and has one row per record |
| Transform.FilledHasRequired | pipelines/transform.py:21-25 | the five names the typing stages read are columns after the fill loop |
| Transform.FilledCount | pipelines/transform.py:21-25 | after the fill loop a required name occurs as often as before, or exactly once if it was absent |
| Frames.ToNumberTotal | pipelines/transform.py:27-30 | numeric coercion never fails on a cell: the result is a number or null, it is null exactly when the cell was null or unreadable, and a number is kept |
| Frames.ToNumber | pipelines/transform.py:28-30 | one cell through `pd.to_numeric(errors="coerce")`; specified by ToNumberTotal |
| Frames.NumericColumn | pipelines/transform.py:28-30 | coercion succeeds exactly when the name labels exactly one column, and otherwise reports it duplicated or missing; it keeps the columns and every cell outside that column, and leaves in that column the coerced cells, all numbers or nulls |
| Frames.ToTextNulls | pipelines/transform.py:31-32 | the text cast keeps nulls null and makes nothing else null; its result is text or null; text is kept |
| Frames.ToText | pipelines/transform.py:31-32 | one cell through `astype("string")`; specified by ToTextNulls |
| Frames.TextColumn | pipelines/transform.py:31-32 | the cast succeeds exactly when the name is a column; it converts every column of that name to text or null and changes nothing else |
| Frames.SetColumn | pipelines/transform.py:35 | assigning a derived column overwrites every column of that name, or appends one; no other cell changes |
| Frames.AddVat | pipelines/transform.py:34-35 | the VAT column is derived when `price` labels exactly one column; each of its cells is the VAT of that row's price; no other column changes |
| Frames.VatNulls | pipelines/transform.py:35 | the VAT of a price is null exactly when the price is not a number |
| Frames.VatOf | pipelines/transform.py:35 | one price through the VAT formula; specified by VatNulls |
| Frames.KeepsColumnKind | pipelines/transform.py:28-35 | a stage that changes only other columns keeps a column numeric or text |
| Transform.ColumnwiseOutcome | pipelines/transform.py:27-35 | with the required columns present, the typing stages succeed exactly when price, rating_rate and rating_count each label one column; otherwise the error names the first duplicated one |
| Transform.Columnwise | pipelines/transform.py:28-35 | the three numeric conversions, the two text casts and the VAT column return a well-formed frame; ColumnwiseOutcome and ColumnwiseShape state when they succeed and what they return |
| Transform.TextAndVatSucceeds | pipelines/transform.py:31-35 | with title, category and a single price present, the text casts and the VAT column cannot fail |
| Transform.TextAndVat | pipelines/transform.py:31-35 | the two text casts and the VAT column return a well-formed frame; TextAndVatSucceeds states when they succeed |
| Transform.FilledOutcome | pipelines/transform.py:21-35 | after the fill loop, the typing stages succeed exactly when no numeric name labels more than one renamed column; otherwise the error names the first such name |
| Transform.ConversionKinds | pipelines/transform.py:27-32 | after the five conversions, the numeric columns hold numbers or nulls and the text columns text or nulls; the columns and the row count are unchanged |
| Transform.NumericStep | pipelines/transform.py:28-30 | one numeric conversion makes its column numeric and keeps the kinds of the other columns |
| Transform.TextStep | pipelines/transform.py:31-32 | one text cast makes its column text and keeps the kinds of the other columns |
| Transform.VatKeepsKind | pipelines/transform.py:35 | deriving the VAT column keeps the kind of every other column |
| Transform.VatAgrees | pipelines/transform.py:35 | in every row the VAT cell is null exactly when the price is null, and is the VAT of a numeric price |
| Transform.StageKeepsKinds | pipelines/transform.py:27-35 | after the VAT column is derived, the frame is curated: numeric columns, text columns and a VAT column that agrees with the price |
| Transform.ColumnwiseShape | pipelines/transform.py:27-35 | a successful typing run keeps the rows, adds price_with_vat when it was absent, leaves each numeric name on one column, and curates the cells |
| Transform.VatKeepsCount | pipelines/transform.py:35 | deriving the VAT column leaves the count of every other name unchanged |
| Dedup.FirstIndex | pipelines/transform.py:38 | the first position at which a key occurs |
| Dedup.Scan | pipelines/transform.py:38 | the first-occurrence filter; specified by ScanKeys, ScanDistinct, ScanFirst and ScanOrder |
| Dedup.DropDuplicates | pipelines/transform.py:37-38 | `drop_duplicates(keep="first")`; specified by DropDuplicatesSpec |
| Dedup.ScanKeys | pipelines/transform.py:38 | the filter keeps no more rows than it is given, and keeps exactly the keys that were not seen before |
| Dedup.ScanDistinct | pipelines/transform.py:38 | the kept rows have pairwise distinct keys |
| Dedup.ScanFirst | pipelines/transform.py:38 | every kept row is the first row with its key |
| Dedup.ScanOrder | pipelines/transform.py:38 | the kept rows appear in the order of their keys' first occurrences |
| Dedup.DropDuplicatesSpec | pipelines/transform.py:37-38 | `keep="first"`: no key twice, no more rows, every input key still present, each survivor the first row with its key, survivors in first-occurrence order |
| Dedup.DropDuplicatesFirst | pipelines/transform.py:38 | each survivor is the first row with its key |
| Frames.IdKeySingle | pipelines/transform.py:38 | with one `id` column a row's dedup key is its id cell, as Python compares it |
| Frames.IdKeyNone | pipelines/transform.py:38 | with no `id` column every row has the same, empty, key |
| Frames.IdValue | pipelines/transform.py:38 | the value an id cell is hashed as: never a bool, since a bool counts as the number 1 or 0 |
| Frames.IdValueEq | pipelines/transform.py:38 | two id cells are hashed as the same value exactly when Python's `==` finds them equal (`True == 1`, `1 == 1.0`) |
| Frames.IdKeyLength | pipelines/transform.py:38 | a row's key has one cell per `id` column |
| Frames.IdKeySame | pipelines/transform.py:38 | two rows have the same key exactly when Python finds their cells equal in every `id` column |
| Frames.IdKey | pipelines/transform.py:38 | the key `subset=["id"]` compares rows by: the tuple of the row's `id` cells, each as Python compares it; specified by IdKeySame, IdKeySingle and IdKeyNone |
| Frames.DropDuplicateIds | pipelines/transform.py:37-38 | the dedup keeps the columns, keeps at most as many rows, and returns only input rows, numbered 0 to n−1 |
| Frames.DropDuplicateIdsDistinct | pipelines/transform.py:38 | no two surviving rows share an id under Python's equality |
| Frames.DropDuplicateIdsComplete | pipelines/transform.py:38 | every input row has a surviving row with an equal id under Python's equality |
| Frames.DropDuplicateIdsFirst | pipelines/transform.py:38 | each surviving row is an input row that no earlier input row equals in its ids under Python's equality |
| Frames.DropDuplicateIdsOrder | pipelines/transform.py:38 | the surviving rows keep the order of their ids' first occurrences |
| Frames.BoolIdRepeats | pipelines/transform.py:38 | of two rows with ids `1` and `true` only the first survives |
| Frames.DropDuplicateIdsOneNull | pipelines/transform.py:38 | missing ids count as one value: at most one surviving row has a null id |
| Transform.CuratedSubset | pipelines/transform.py:37-38 | selecting input rows keeps the frame curated |
| Transform.DedupShape | pipelines/transform.py:37-38 | the dedup keeps the column layout and the curated cells, leaves no id twice and no more rows |
| Transform.Typed | pipelines/transform.py:11-35 | every frame the typing stages return is well-formed |
| Transform.Normalize | pipelines/transform.py:5-41 | the whole of `normalize_products`: a refused payload makes it fail, and a result is a well-formed frame of a usable payload; NormalizeOutcome and NormalizeShape state the rest |
| Transform.NormalizeProducts | pipelines/transform.py:5-41 | running the stages in place on a frame returns what `Normalize` specifies |
| Transform.NormalizeOutcome | pipelines/transform.py:11-38 | an unusable payload is refused with its error; otherwise the run fails exactly when a numeric name labels two renamed columns and reports the first such name; a required column is never reported missing |
| Transform.FilledShape | pipelines/transform.py:21-38 | the shape of a successful run, stated on the filled frame |
| Transform.NormalizeShape | pipelines/transform.py:11-41 | a successful run returns a well-formed frame. Its columns are the renamed ones, then the absent required ones, then price_with_vat unless present. Each numeric name labels one column. The numeric columns hold numbers or nulls and the text columns text or nulls. The VAT column agrees with the price. No id occurs twice. There are no more rows than records |

## Left out

- pipelines/extract.py is network, file and clock I/O, and is not part of this model.
- pipelines/load.py writes files through pandas, and is not part of this model.
- flows.py and main.py are orchestration and printing, and are not part of this model.
- Reading the raw file and decoding its text with `json.loads`: the model starts from the parsed value.
- The grammar of `pd.to_numeric` is the parameter `Coercions.parse`.
- How `astype("string")` renders a non-text value is the parameter `Coercions.render`.
- The float64 arithmetic and rounding of `(price * 1.20).round(2)` is the parameter `Coercions.vat`.
- Names.Lower: lower-cases ASCII letters only; Unicode case mapping is not modelled.
- pandas dtypes are not modelled: a cell is a JSON value, and NaN, None and `pd.NA` are all the one value `Null`.
- DropDuplicateIdsOneNull: the model counts every null id as one value. pandas does so within a numeric id column, but in an object column None (an explicit JSON `null`) and NaN (a missing `id` key) are kept apart. Which of the two a cell holds depends on dtype inference, which is not modelled.
- Frames.IdKey: an id that is a JSON array is a Python list, which pandas cannot hash, so `drop_duplicates` raises `TypeError`. The model does not fail there: it compares such ids cell by cell as values.
- The index labels the frame carries are not modelled: rows are a sequence, so the positions after `reset_index(drop=True)` are 0 to n−1 by construction.
- Flatten.Records: an array element that is itself an array is refused with `NestedArrayRow`. pandas builds a frame from such rows, with integer column labels. Line 18's `c.strip()` then raises on a non-empty inner array. The payload `[[]]` gives one row with no columns, and that run goes on to succeed. The model refuses both.
- Frames.UnionKeys: column order is first appearance across records, which is not proved to match pandas' own ordering of unioned keys. Only which columns exist is stated.
- Lines 28-32 reassign whole columns. They are modelled on table values, one function per stage, rather than as in-place updates of the `Frame`. Only the fill loop mutates the frame.
- A numeric conversion on a duplicated column name raises in pandas. The exception type and message are not modelled: the error is `DuplicateColumn(name)`.
