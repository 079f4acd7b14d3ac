/** Parsed JSON values, and the dictionary semantics that Python gives a JSON
    object once it is loaded: keys are unique, a repeated key keeps the
    position of its first occurrence and the value of its last, and new keys are
    appended in insertion order. */
module Json {
  import opened Wrappers

  /** A JSON value as `json.loads` returns it. An object is kept as the list of
      its members in document order; `AsDict` turns it into a dictionary. */
  datatype Value =
    | Null
    | Bool(b: bool)
    | Num(n: real)
    | Str(s: string)
    | Arr(items: seq<Value>)
    | Obj(fields: seq<Field>)

  type Field = (string, Value)

  /** Why `normalize_products` can fail on an already-parsed payload. */
  datatype Error =
    | NotArrayShaped           // json_normalize refuses a top-level scalar
    | NestedArrayRow           // an array element that is itself an array: the model refuses it
    | MissingColumn(name: string)    // df[name] on a frame without that column
    | DuplicateColumn(name: string)  // pd.to_numeric handed a frame of same-named columns

  /** The keys of an association list, in order. */
  function Keys(d: seq<Field>): (ks: seq<string>)
    ensures |ks| == |d|
    ensures forall i :: 0 <= i < |d| ==> ks[i] == d[i].0
  {
    seq(|d|, i requires 0 <= i < |d| => d[i].0)
  }

  /** No name occurs twice. */
  predicate Distinct(names: seq<string>) {
    forall i, j :: 0 <= i < j < |names| ==> names[i] != names[j]
  }

  /** A dictionary: no key occurs twice. */
  predicate UniqueKeys(d: seq<Field>) {
    Distinct(Keys(d))
  }

  /** `d.get(k)`: the value at the first entry with key `k`. */
  function Lookup(d: seq<Field>, k: string): Option<Value> {
    if d == [] then None
    else if d[0].0 == k then Some(d[0].1)
    else Lookup(d[1..], k)
  }

  /** `d[k] = v` on a dictionary: an existing key is updated where it stands, a
      new key goes at the end. */
  function Put(d: seq<Field>, k: string, v: Value): seq<Field> {
    if d == [] then [(k, v)]
    else if d[0].0 == k then [(k, v)] + d[1..]
    else [d[0]] + Put(d[1..], k, v)
  }

  /** What an assignment does to a dictionary: the key now holds the new value,
      no other key changes, uniqueness is kept, and the key order is that of
      insertion. */
  lemma PutFacts(d: seq<Field>, k: string, v: Value)
    ensures UniqueKeys(d) ==> UniqueKeys(Put(d, k, v))
    ensures Lookup(Put(d, k, v), k) == Some(v)
    ensures forall k' :: k' != k ==> Lookup(Put(d, k, v), k') == Lookup(d, k')
    ensures k in Keys(d) ==> Keys(Put(d, k, v)) == Keys(d)
    ensures k !in Keys(d) ==> Keys(Put(d, k, v)) == Keys(d) + [k]
    ensures forall p :: p in Put(d, k, v) ==> p in d || p == (k, v)
  {
    PutKeys(d, k, v);
    if UniqueKeys(d) { PutUnique(d, k, v); }
    PutLookup(d, k, v);
    PutMembers(d, k, v);
  }

  lemma {:induction false} PutKeys(d: seq<Field>, k: string, v: Value)
    ensures k in Keys(d) ==> Keys(Put(d, k, v)) == Keys(d)
    ensures k !in Keys(d) ==> Keys(Put(d, k, v)) == Keys(d) + [k]
  {
    if d == [] {
    } else if d[0].0 == k {
      KeysCons((k, v), d[1..]);
      KeysCons(d[0], d[1..]);
      assert d == [d[0]] + d[1..];
    } else {
      var rest := Put(d[1..], k, v);
      PutKeys(d[1..], k, v);
      KeysCons(d[0], rest);
      KeysCons(d[0], d[1..]);
      assert d == [d[0]] + d[1..];
      assert k in Keys(d) <==> k in Keys(d[1..]);
      if k !in Keys(d) {
        assert [d[0].0] + (Keys(d[1..]) + [k]) == [d[0].0] + Keys(d[1..]) + [k];
      }
    }
  }

  lemma KeysCons(h: Field, t: seq<Field>)
    ensures Keys([h] + t) == [h.0] + Keys(t)
  {
  }

  lemma UniqueByKeys(d: seq<Field>, d': seq<Field>)
    requires Keys(d') == Keys(d) || exists k :: k !in Keys(d) && Keys(d') == Keys(d) + [k]
    requires UniqueKeys(d)
    ensures UniqueKeys(d')
  {
    if Keys(d') != Keys(d) {
      var k :| k !in Keys(d) && Keys(d') == Keys(d) + [k];
      forall i, j | 0 <= i < j < |d'| ensures d'[i].0 != d'[j].0 {
        assert Keys(d')[i] == d'[i].0 && Keys(d')[j] == d'[j].0;
        if j == |d| {
          assert Keys(d')[i] == Keys(d)[i];
        } else {
          assert Keys(d')[i] == Keys(d)[i] && Keys(d')[j] == Keys(d)[j];
        }
      }
    } else {
      forall i, j | 0 <= i < j < |d'| ensures d'[i].0 != d'[j].0 {
        assert Keys(d')[i] == d'[i].0 && Keys(d')[j] == d'[j].0;
      }
    }
  }

  lemma PutUnique(d: seq<Field>, k: string, v: Value)
    requires UniqueKeys(d)
    ensures UniqueKeys(Put(d, k, v))
  {
    PutKeys(d, k, v);
    UniqueByKeys(d, Put(d, k, v));
  }

  lemma {:induction false} PutLookup(d: seq<Field>, k: string, v: Value)
    ensures Lookup(Put(d, k, v), k) == Some(v)
    ensures forall k' :: k' != k ==> Lookup(Put(d, k, v), k') == Lookup(d, k')
  {
    if d == [] {
    } else if d[0].0 == k {
      assert ([(k, v)] + d[1..])[1..] == d[1..];
    } else {
      var rest := Put(d[1..], k, v);
      PutLookup(d[1..], k, v);
      assert ([d[0]] + rest)[1..] == rest;
    }
  }

  lemma {:induction false} PutMembers(d: seq<Field>, k: string, v: Value)
    ensures forall p :: p in Put(d, k, v) ==> p in d || p == (k, v)
  {
    if d != [] && d[0].0 != k {
      PutMembers(d[1..], k, v);
    }
  }

  /** The last value the members in `items` give key `k`, if any. */
  function LastValue(items: seq<Field>, k: string): Option<Value> {
    if items == [] then None
    else if items[|items| - 1].0 == k then Some(items[|items| - 1].1)
    else LastValue(items[..|items| - 1], k)
  }

  /** Assigns the members of `items` one after another into `acc`. */
  function PutAll(acc: seq<Field>, items: seq<Field>): (d: seq<Field>)
    ensures UniqueKeys(acc) ==> UniqueKeys(d)
    ensures forall k :: Lookup(d, k) == (if LastValue(items, k).Some? then LastValue(items, k) else Lookup(acc, k))
    ensures forall k :: k in Keys(d) <==> k in Keys(acc) || k in Keys(items)
    ensures forall p :: p in d ==> p in acc || p in items
    decreases |items|
  {
    if items == [] then acc
    else
      var last := items[|items| - 1];
      var front := items[..|items| - 1];
      assert items == front + [last];
      assert Keys(items) == Keys(front) + [last.0];
      PutFacts(PutAll(acc, front), last.0, last.1);
      Put(PutAll(acc, front), last.0, last.1)
  }

  /** `dict(pairs)`: the dictionary `json.loads` builds from an object's members. */
  function AsDict(fields: seq<Field>): (d: seq<Field>)
    ensures UniqueKeys(d)
    ensures forall p :: p in d ==> p in fields
  {
    PutAll([], fields)
  }

  /** A key of the dictionary holds the last value the document gave it. */
  lemma AsDictLookup(fields: seq<Field>, k: string)
    ensures Lookup(AsDict(fields), k) == LastValue(fields, k)
    ensures k in Keys(AsDict(fields)) <==> k in Keys(fields)
  {
  }

  lemma {:induction false} LookupFound(d: seq<Field>, k: string, v: Value)
    requires Lookup(d, k) == Some(v)
    ensures (k, v) in d
  {
    if d[0].0 != k {
      LookupFound(d[1..], k, v);
    }
  }

  lemma KeyOfMember(d: seq<Field>, p: Field)
    requires p in d
    ensures p.0 in Keys(d)
  {
    var i :| 0 <= i < |d| && d[i] == p;
    assert Keys(d)[i] == p.0;
  }

  /** `d.get(k)` is None exactly when `k` is not a key of `d`. */
  lemma {:induction false} LookupAbsent(d: seq<Field>, k: string)
    ensures Lookup(d, k).None? <==> k !in Keys(d)
  {
    if d != [] {
      LookupAbsent(d[1..], k);
      assert Keys(d) == [d[0].0] + Keys(d[1..]);
    }
  }

  /** In a dictionary a key occurs in one member only. */
  lemma UniqueMember(d: seq<Field>, p: Field, q: Field)
    requires UniqueKeys(d) && p in d && q in d && p.0 == q.0
    ensures p == q
  {
    var i :| 0 <= i < |d| && d[i] == p;
    var j :| 0 <= j < |d| && d[j] == q;
    assert i == j;
  }

  /** The last value given to `k` is `v` when every member with key `k` has
      value `v` and there is one. */
  lemma {:induction false} LastValueOf(items: seq<Field>, k: string, v: Value)
    requires (k, v) in items
    requires forall q :: q in items && q.0 == k ==> q.1 == v
    ensures LastValue(items, k) == Some(v)
  {
    var last := items[|items| - 1];
    if last.0 != k {
      var front := items[..|items| - 1];
      assert items == front + [last];
      LastValueOf(front, k, v);
    }
  }

  /** A key that no member has is given no value. */
  lemma {:induction false} LastValueAbsent(items: seq<Field>, k: string)
    requires k !in Keys(items)
    ensures LastValue(items, k) == None
  {
    if items != [] {
      var front := items[..|items| - 1];
      assert Keys(items)[|items| - 1] == items[|items| - 1].0;
      assert Keys(front) == Keys(items)[..|items| - 1];
      LastValueAbsent(front, k);
    }
  }

  /** In a dictionary the last value of a key is the value of its member. */
  lemma LastValueUnique(d: seq<Field>, k: string, v: Value)
    requires UniqueKeys(d) && (k, v) in d
    ensures LastValue(d, k) == Some(v)
  {
    forall q | q in d && q.0 == k ensures q.1 == v {
      UniqueMember(d, q, (k, v));
    }
    LastValueOf(d, k, v);
  }
}
