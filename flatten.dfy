/** `pd.json_normalize(payload)` with its default arguments (no record path, no
    meta, no level limit), which pandas answers with its simple normaliser: a
    record keeps its top-level non-object members first and then every leaf of
    its nested objects, depth first, under the `.`-joined path of keys; an empty
    nested object contributes nothing. */
module Flatten {
  import opened Wrappers
  import opened Json

  /** `key` starts with `prefix`. */
  predicate Under(prefix: string, key: string) {
    |prefix| <= |key| && key[..|prefix|] == prefix
  }

  lemma UnderTrans(a: string, b: string, c: string)
    requires Under(a, b) && Under(b, c)
    ensures Under(a, c)
  {
    assert c[..|a|] == c[..|b|][..|a|];
  }

  /** The key of a member `k` reached under `prefix`: the member's own key at
      the top, `prefix.k` below it. */
  function Join(prefix: string, k: string): (key: string)
    ensures prefix == "" ==> key == k
    ensures prefix != "" ==> key == prefix + "." + k
    ensures Under(prefix, key)
  {
    if prefix == "" then k else
      assert (prefix + "." + k)[..|prefix|] == prefix;
      prefix + "." + k
  }

  /** `x` is a leaf of `v` reached under `prefix`, at the flat key `key`: a
      value that is not an object is its own leaf, at `prefix`; the leaves of
      an object are those of its members (as the dictionary `json.loads` made
      of it), each reached under its joined key. This says which leaves there
      are, and not in which order they are visited. */
  ghost predicate PathLeaf(prefix: string, v: Value, key: string, x: Value)
    decreases v
  {
    match v
    case Obj(fs) => exists m :: m in AsDict(fs) && PathLeaf(Join(prefix, m.0), m.1, key, x)
    case _ => key == prefix && x == v
  }

  /** `x` is a leaf, at `key`, of one of the members `ds` reached under
      `prefix`. */
  ghost predicate MemberPath(prefix: string, ds: seq<Field>, key: string, x: Value) {
    exists m :: m in ds && PathLeaf(Join(prefix, m.0), m.1, key, x)
  }

  /** The leaves of `v` reached under `prefix`, in depth-first order. Each
      nested object is first read as the dictionary `json.loads` made of it.
      Every leaf is a non-object value, at a key that extends `prefix`, and
      is a leaf of `v` at that key. */
  function Leaves(prefix: string, v: Value): (ls: seq<Field>)
    ensures forall p :: p in ls ==> !p.1.Obj? && Under(prefix, p.0)
    ensures forall p :: p in ls ==> PathLeaf(prefix, v, p.0, p.1)
    decreases v, 1
  {
    match v
    case Obj(fs) => MemberLeaves(prefix, v, AsDict(fs))
    case _ => [(prefix, v)]
  }

  /** The leaves of the members `ds` of the object `parent`. */
  function MemberLeaves(prefix: string, parent: Value, ds: seq<Field>): (ls: seq<Field>)
    requires parent.Obj? && forall p :: p in ds ==> p in parent.fields
    ensures forall p :: p in ls ==> !p.1.Obj? && Under(prefix, p.0)
    ensures forall p :: p in ls ==> MemberPath(prefix, ds, p.0, p.1)
    decreases parent, 0, |ds|
  {
    if ds == [] then []
    else
      assert ds[0] in parent.fields;
      var key := Join(prefix, ds[0].0);
      var first := Leaves(key, ds[0].1);
      LeavesUnder(prefix, key, first);
      first + MemberLeaves(prefix, parent, ds[1..])
  }

  /** Every leaf of `v` is among the leaves `Leaves` lists. */
  lemma {:induction false} LeavesComplete(prefix: string, v: Value, key: string, x: Value)
    requires PathLeaf(prefix, v, key, x)
    ensures (key, x) in Leaves(prefix, v)
    decreases v
  {
    match v
    case Obj(fs) =>
      var m :| m in AsDict(fs) && PathLeaf(Join(prefix, m.0), m.1, key, x);
      assert m in fs;
      LeavesComplete(Join(prefix, m.0), m.1, key, x);
      MemberLeavesInclude(prefix, v, AsDict(fs), m, (key, x));
    case _ =>
  }

  /** Leaves under a key that extends `prefix` are under `prefix`. */
  lemma LeavesUnder(prefix: string, key: string, ls: seq<Field>)
    requires Under(prefix, key) && forall p :: p in ls ==> Under(key, p.0)
    ensures forall p :: p in ls ==> Under(prefix, p.0)
  {
    forall p | p in ls ensures Under(prefix, p.0) {
      UnderTrans(prefix, key, p.0);
    }
  }

  function Scalars(d: seq<Field>): (r: seq<Field>)
    ensures forall p :: p in r <==> p in d && !p.1.Obj?
  {
    if d == [] then []
    else (if d[0].1.Obj? then [] else [d[0]]) + Scalars(d[1..])
  }

  function Objects(d: seq<Field>): (r: seq<Field>)
    ensures forall p :: p in r <==> p in d && p.1.Obj?
  {
    if d == [] then []
    else (if d[0].1.Obj? then [d[0]] else []) + Objects(d[1..])
  }

  /** One flattened record: `{**top, **nested}` where `top` holds the
      top-level members that are not objects and `nested` the leaves of those
      that are. The result is a dictionary none of whose values is an object;
      its keys are those of the two parts, and each of its entries comes from
      one of them. */
  function FlattenRecord(fields: seq<Field>): (rec: seq<Field>)
    ensures UniqueKeys(rec)
    ensures forall p :: p in rec ==> !p.1.Obj?
    ensures forall p :: p in rec ==>
              p in Scalars(AsDict(fields)) || p in MemberLeaves("", Obj(fields), Objects(AsDict(fields)))
    ensures forall k :: k in Keys(rec) <==>
              k in Keys(Scalars(AsDict(fields))) || k in Keys(MemberLeaves("", Obj(fields), Objects(AsDict(fields))))
  {
    var d := AsDict(fields);
    var top := PutAll([], Scalars(d));
    var nested := PutAll([], MemberLeaves("", Obj(fields), Objects(d)));
    PutAll(top, nested)
  }

  /** The record an element of the top-level array becomes: an object is
      flattened, any other scalar gives an empty record. */
  function RecordOf(v: Value): (rec: seq<Field>)
    ensures v.Obj? ==> rec == FlattenRecord(v.fields)
    ensures !v.Obj? ==> rec == []
  {
    if v.Obj? then FlattenRecord(v.fields) else []
  }

  /** The records json_normalize builds from the payload: a single object is
      one record; an array gives one record per element; a top-level scalar is
      refused. */
  function Records(payload: Value): (r: Result<seq<seq<Field>>, Error>)
    ensures r.Failure? <==> !payload.Obj? && !(payload.Arr? && forall i :: 0 <= i < |payload.items| ==> !payload.items[i].Arr?)
    ensures r.Success? && payload.Arr? ==> |r.value| == |payload.items|
    ensures r.Success? && payload.Obj? ==> r.value == [FlattenRecord(payload.fields)]
    ensures r.Success? && payload.Arr? ==>
              forall i :: 0 <= i < |payload.items| ==> r.value[i] == RecordOf(payload.items[i])
    ensures r.Success? ==> forall i :: 0 <= i < |r.value| ==>
              UniqueKeys(r.value[i]) && (forall p :: p in r.value[i] ==> !p.1.Obj?)
  {
    match payload
    case Obj(fs) => Success([FlattenRecord(fs)])
    case Arr(items) =>
      if exists i :: 0 <= i < |items| && items[i].Arr? then Failure(NestedArrayRow)
      else Success(seq(|items|, i requires 0 <= i < |items| => RecordOf(items[i])))
    case _ => Failure(NotArrayShaped)
  }

  /** The leaves of a member are among the leaves of the members. */
  lemma {:induction false} MemberLeavesInclude(prefix: string, parent: Value, ds: seq<Field>, p: Field, q: Field)
    requires parent.Obj? && forall p :: p in ds ==> p in parent.fields
    requires p in ds && q in Leaves(Join(prefix, p.0), p.1)
    ensures q in MemberLeaves(prefix, parent, ds)
  {
    if ds[0] != p {
      MemberLeavesInclude(prefix, parent, ds[1..], p, q);
    }
  }

  /** Every column of a flattened record is, with its value, a leaf of the
      record reached from the top: `json_normalize` makes up no column and no
      value. */
  lemma FlattenRecordSound(fields: seq<Field>)
    ensures forall p :: p in FlattenRecord(fields) ==> PathLeaf("", Obj(fields), p.0, p.1)
  {
    var d := AsDict(fields);
    forall p | p in FlattenRecord(fields) ensures PathLeaf("", Obj(fields), p.0, p.1) {
      if p in Scalars(d) {
        TopJoin(p.0);
        assert PathLeaf(Join("", p.0), p.1, p.0, p.1);
      } else {
        assert MemberPath("", Objects(d), p.0, p.1);
        var m :| m in Objects(d) && PathLeaf(Join("", m.0), m.1, p.0, p.1);
        assert m in d;
      }
    }
  }

  /** Every leaf of a record reached from the top is a column of its
      flattened record. */
  lemma FlattenRecordComplete(fields: seq<Field>, key: string, x: Value)
    requires PathLeaf("", Obj(fields), key, x)
    ensures key in Keys(FlattenRecord(fields))
  {
    var d := AsDict(fields);
    var m :| m in d && PathLeaf(Join("", m.0), m.1, key, x);
    assert Join("", m.0) == m.0;
    if m.1.Obj? {
      LeavesComplete(m.0, m.1, key, x);
      MemberLeavesInclude("", Obj(fields), Objects(d), m, (key, x));
      KeyOfMember(MemberLeaves("", Obj(fields), Objects(d)), (key, x));
    } else {
      KeyOfMember(Scalars(d), m);
    }
  }

  /** A non-object member `inner` of an object member `outer` of a record
      becomes the flat column `outer.inner`. */
  lemma NestedMemberFlattened(fields: seq<Field>, outer: string, inner: seq<Field>, key: string, x: Value)
    requires Lookup(AsDict(fields), outer) == Some(Obj(inner))
    requires Lookup(AsDict(inner), key) == Some(x) && !x.Obj?
    ensures Join(outer, key) in Keys(FlattenRecord(fields))
  {
    LeafOfNestedMember(fields, outer, inner, key, x);
    KeyOfMember(MemberLeaves("", Obj(fields), Objects(AsDict(fields))), (Join(outer, key), x));
  }

  /** The record of an object element of an array payload is that object,
      flattened. */
  lemma ArrayRecord(payload: Value, i: nat)
    requires payload.Arr? && i < |payload.items| && payload.items[i].Obj?
    requires forall k :: 0 <= k < |payload.items| ==> !payload.items[k].Arr?
    ensures Records(payload).Success? && |Records(payload).value| == |payload.items|
    ensures Records(payload).value[i] == FlattenRecord(payload.items[i].fields)
  {
  }

  /** A top-level member that is not an object keeps its value in the
      flattened record, unless a nested leaf takes over its key. */
  lemma TopMemberKept(fields: seq<Field>, k: string, v: Value)
    requires Lookup(AsDict(fields), k) == Some(v) && !v.Obj?
    requires k !in Keys(MemberLeaves("", Obj(fields), Objects(AsDict(fields))))
    ensures Lookup(FlattenRecord(fields), k) == Some(v)
  {
    var d := AsDict(fields);
    var leaves := MemberLeaves("", Obj(fields), Objects(d));
    var nested := PutAll([], leaves);
    var scalars := Scalars(d);
    LastValueAbsent(nested, k);
    LookupFound(d, k, v);
    forall q | q in scalars && q.0 == k ensures q.1 == v {
      UniqueMember(d, q, (k, v));
    }
    LastValueOf(scalars, k, v);
  }

  /** A non-object member `key` of an object member `outer` of a record keeps
      its value under the flat key `outer.key`, unless another leaf gives
      that key a different value. */
  lemma NestedMemberValue(fields: seq<Field>, outer: string, inner: seq<Field>, key: string, x: Value)
    requires Lookup(AsDict(fields), outer) == Some(Obj(inner))
    requires Lookup(AsDict(inner), key) == Some(x) && !x.Obj?
    requires forall q :: q in MemberLeaves("", Obj(fields), Objects(AsDict(fields))) && q.0 == Join(outer, key) ==> q.1 == x
    ensures Lookup(FlattenRecord(fields), Join(outer, key)) == Some(x)
  {
    var d := AsDict(fields);
    var leaves := MemberLeaves("", Obj(fields), Objects(d));
    var nested := PutAll([], leaves);
    var k := Join(outer, key);
    LeafOfNestedMember(fields, outer, inner, key, x);
    LastValueOf(leaves, k, x);
    LookupFound(nested, k, x);
    LastValueUnique(nested, k, x);
  }

  /** The leaf a nested member gives. */
  lemma LeafOfNestedMember(fields: seq<Field>, outer: string, inner: seq<Field>, key: string, x: Value)
    requires Lookup(AsDict(fields), outer) == Some(Obj(inner))
    requires Lookup(AsDict(inner), key) == Some(x) && !x.Obj?
    ensures (Join(outer, key), x) in MemberLeaves("", Obj(fields), Objects(AsDict(fields)))
  {
    var d := AsDict(fields);
    LookupFound(d, outer, Obj(inner));
    LookupFound(AsDict(inner), key, x);
    var leaf := (Join(outer, key), x);
    ScalarLeaf(Join(outer, key), x);
    MemberLeavesInclude(outer, Obj(inner), AsDict(inner), (key, x), leaf);
    TopJoin(outer);
    MemberLeavesInclude("", Obj(fields), Objects(d), (outer, Obj(inner)), leaf);
  }

  /** A value that is not an object is its own one leaf. */
  lemma ScalarLeaf(prefix: string, x: Value)
    requires !x.Obj?
    ensures (prefix, x) in Leaves(prefix, x)
  {
    assert Leaves(prefix, x) == [(prefix, x)];
  }

  /** At the top a member keeps its own key. */
  lemma TopJoin(k: string)
    ensures Join("", k) == k
  {
  }

  /** The flat keys of a product's nested rating members. */
  lemma RatingKeys()
    ensures Join("rating", "rate") == "rating.rate"
    ensures Join("rating", "count") == "rating.count"
  {
    assert "rating" + "." + "rate" == "rating.rate";
    assert "rating" + "." + "count" == "rating.count";
  }
}
