/** `drop_duplicates(subset=...)` with its default `keep="first"`: of all the
    rows that share a key only the first, in row order, survives, and the
    survivors keep their relative order. */
module Dedup {

  /** The key of every row, in row order: the values `drop_duplicates`
      hashes to decide which rows repeat an earlier one. */
  function KeysOf<R, K>(rows: seq<R>, key: R -> K): (ks: seq<K>)
    ensures |ks| == |rows|
    ensures forall i :: 0 <= i < |rows| ==> ks[i] == key(rows[i])
  {
    seq(|rows|, i requires 0 <= i < |rows| => key(rows[i]))
  }

  /** The position of the first row whose key is `k`. */
  function FirstIndex<R, K(==)>(rows: seq<R>, key: R -> K, k: K): (i: nat)
    requires k in KeysOf(rows, key)
    ensures i < |rows| && key(rows[i]) == k
    ensures forall j :: 0 <= j < i ==> key(rows[j]) != k
  {
    if key(rows[0]) == k then 0
    else
      assert KeysOf(rows, key) == [key(rows[0])] + KeysOf(rows[1..], key);
      1 + FirstIndex(rows[1..], key, k)
  }

  /** The filter itself: walk the rows once, remembering the keys already
      seen, and keep a row only when its key is new. */
  function Scan<R, K(==)>(rows: seq<R>, key: R -> K, seen: set<K>): seq<R>
  {
    if rows == [] then []
    else if key(rows[0]) in seen then Scan(rows[1..], key, seen)
    else [rows[0]] + Scan(rows[1..], key, seen + {key(rows[0])})
  }

  function DropDuplicates<R, K(==)>(rows: seq<R>, key: R -> K): seq<R> {
    Scan(rows, key, {})
  }

  lemma {:induction false} ScanKeys<R, K>(rows: seq<R>, key: R -> K, seen: set<K>)
    ensures |Scan(rows, key, seen)| <= |rows|
    ensures forall k :: k in KeysOf(Scan(rows, key, seen), key) <==> k in KeysOf(rows, key) && k !in seen
  {
    if rows != [] {
      var k0 := key(rows[0]);
      KeysOfCons(rows, key);
      if k0 in seen {
        ScanKeys(rows[1..], key, seen);
      } else {
        var rest := Scan(rows[1..], key, seen + {k0});
        ScanKeys(rows[1..], key, seen + {k0});
        KeysOfCons([rows[0]] + rest, key);
        assert ([rows[0]] + rest)[1..] == rest;
      }
    }
  }

  /** The keys of a non-empty sequence: the first row's, then the rest's. */
  lemma KeysOfCons<R, K>(rows: seq<R>, key: R -> K)
    requires rows != []
    ensures KeysOf(rows, key) == [key(rows[0])] + KeysOf(rows[1..], key)
  {
  }

  lemma {:induction false} ScanDistinct<R, K>(rows: seq<R>, key: R -> K, seen: set<K>)
    ensures forall i, j :: 0 <= i < j < |Scan(rows, key, seen)| ==>
              key(Scan(rows, key, seen)[i]) != key(Scan(rows, key, seen)[j])
  {
    if rows != [] {
      var k0 := key(rows[0]);
      if k0 in seen {
        ScanDistinct(rows[1..], key, seen);
      } else {
        var rest := Scan(rows[1..], key, seen + {k0});
        ScanDistinct(rows[1..], key, seen + {k0});
        ScanKeys(rows[1..], key, seen + {k0});
        var out := [rows[0]] + rest;
        forall i, j | 0 <= i < j < |out| ensures key(out[i]) != key(out[j]) {
          assert out[j] == rest[j - 1];
          assert KeysOf(rest, key)[j - 1] == key(rest[j - 1]);
          if i > 0 { assert out[i] == rest[i - 1]; }
        }
      }
    }
  }

  /** Past a first row with another key, the first position of `k` moves up
      by one. */
  lemma FirstIndexTail<R, K>(rows: seq<R>, key: R -> K, k: K)
    requires rows != [] && key(rows[0]) != k && k in KeysOf(rows[1..], key)
    ensures k in KeysOf(rows, key)
    ensures FirstIndex(rows, key, k) == 1 + FirstIndex(rows[1..], key, k)
  {
    assert KeysOf(rows, key) == [key(rows[0])] + KeysOf(rows[1..], key);
  }

  lemma {:induction false} ScanFirst<R, K>(rows: seq<R>, key: R -> K, seen: set<K>)
    ensures forall i :: 0 <= i < |Scan(rows, key, seen)| ==>
              var out := Scan(rows, key, seen);
              key(out[i]) in KeysOf(rows, key) && key(out[i]) !in seen &&
              out[i] == rows[FirstIndex(rows, key, key(out[i]))]
  {
    if rows != [] {
      var k0 := key(rows[0]);
      var tail := rows[1..];
      var s' := if k0 in seen then seen else seen + {k0};
      ScanFirst(tail, key, s');
      var rest := Scan(tail, key, s');
      var out := Scan(rows, key, seen);
      forall i | 0 <= i < |rest|
        ensures key(rest[i]) in KeysOf(rows, key)
        ensures FirstIndex(rows, key, key(rest[i])) == 1 + FirstIndex(tail, key, key(rest[i]))
      {
        FirstIndexTail(rows, key, key(rest[i]));
      }
      if k0 !in seen {
        assert out == [rows[0]] + rest;
        assert KeysOf(rows, key)[0] == k0;
        forall i | 0 <= i < |out|
          ensures key(out[i]) in KeysOf(rows, key) && key(out[i]) !in seen
          ensures out[i] == rows[FirstIndex(rows, key, key(out[i]))]
        {
          if i > 0 { assert out[i] == rest[i - 1]; }
        }
      }
    }
  }

  /** The rows kept from the tail sit one position further down in the whole
      sequence, and none of them has the key of the first row when that row
      was kept. */
  lemma ScanTail<R, K>(rows: seq<R>, key: R -> K, seen: set<K>, rest: seq<R>)
    requires rows != []
    requires rest == Scan(rows[1..], key, if key(rows[0]) in seen then seen else seen + {key(rows[0])})
    ensures forall i :: 0 <= i < |rest| ==>
              key(rest[i]) != key(rows[0]) && key(rest[i]) in KeysOf(rows, key) &&
              FirstIndex(rows, key, key(rest[i])) == 1 + FirstIndex(rows[1..], key, key(rest[i]))
  {
    var k0 := key(rows[0]);
    var s' := if k0 in seen then seen else seen + {k0};
    ScanFirst(rows[1..], key, s');
    forall i | 0 <= i < |rest|
      ensures key(rest[i]) != k0 && key(rest[i]) in KeysOf(rows, key)
      ensures FirstIndex(rows, key, key(rest[i])) == 1 + FirstIndex(rows[1..], key, key(rest[i]))
    {
      if k0 in seen {
        // a row whose key was seen is never kept, and k0 was seen
      }
      FirstIndexTail(rows, key, key(rest[i]));
    }
  }

  /** Rows in increasing order of first position (in `rows`). */
  predicate InFirstOrder<R, K(==)>(rows: seq<R>, key: R -> K, out: seq<R>) {
    forall i, j :: 0 <= i < j < |out| ==>
      key(out[i]) in KeysOf(rows, key) && key(out[j]) in KeysOf(rows, key) &&
      FirstIndex(rows, key, key(out[i])) < FirstIndex(rows, key, key(out[j]))
  }

  /** Rows of the tail, each one position further down in the whole. */
  predicate ShiftedByOne<R, K(==)>(rows: seq<R>, key: R -> K, rest: seq<R>)
    requires rows != []
  {
    forall i :: 0 <= i < |rest| ==>
      key(rest[i]) != key(rows[0]) && key(rest[i]) in KeysOf(rows, key) &&
      key(rest[i]) in KeysOf(rows[1..], key) &&
      FirstIndex(rows, key, key(rest[i])) == 1 + FirstIndex(rows[1..], key, key(rest[i]))
  }

  /** Ordered rows of the tail stay ordered in the whole. */
  lemma OrderShift<R, K>(rows: seq<R>, key: R -> K, rest: seq<R>)
    requires rows != [] && ShiftedByOne(rows, key, rest) && InFirstOrder(rows[1..], key, rest)
    ensures InFirstOrder(rows, key, rest)
  {
    forall i, j | 0 <= i < j < |rest|
      ensures key(rest[i]) in KeysOf(rows, key) && key(rest[j]) in KeysOf(rows, key)
      ensures FirstIndex(rows, key, key(rest[i])) < FirstIndex(rows, key, key(rest[j]))
    {
      assert FirstIndex(rows[1..], key, key(rest[i])) < FirstIndex(rows[1..], key, key(rest[j]));
    }
  }

  /** Rows whose keys first occur after the first row. */
  predicate BehindFirst<R, K(==)>(rows: seq<R>, key: R -> K, rest: seq<R>) {
    forall i :: 0 <= i < |rest| ==>
      key(rest[i]) in KeysOf(rows, key) && 0 < FirstIndex(rows, key, key(rest[i]))
  }

  lemma ShiftedBehind<R, K>(rows: seq<R>, key: R -> K, rest: seq<R>)
    requires rows != [] && ShiftedByOne(rows, key, rest)
    ensures BehindFirst(rows, key, rest)
  {
  }

  /** ... and stay ordered behind the first row. */
  lemma OrderCons<R, K>(rows: seq<R>, key: R -> K, rest: seq<R>)
    requires rows != [] && BehindFirst(rows, key, rest) && InFirstOrder(rows, key, rest)
    ensures InFirstOrder(rows, key, [rows[0]] + rest)
  {
    var out := [rows[0]] + rest;
    FirstRowFirst(rows, key);
    forall i, j | 0 <= i < j < |out|
      ensures key(out[i]) in KeysOf(rows, key) && key(out[j]) in KeysOf(rows, key)
      ensures FirstIndex(rows, key, key(out[i])) < FirstIndex(rows, key, key(out[j]))
    {
      assert out[j] == rest[j - 1];
      if i == 0 {
        assert out[i] == rows[0];
      } else {
        assert out[i] == rest[i - 1];
      }
    }
  }

  /** The first row is where its own key first occurs. */
  lemma FirstRowFirst<R, K>(rows: seq<R>, key: R -> K)
    requires rows != []
    ensures key(rows[0]) in KeysOf(rows, key) && FirstIndex(rows, key, key(rows[0])) == 0
  {
    assert KeysOf(rows, key)[0] == key(rows[0]);
  }

  lemma {:induction false} ScanOrder<R, K>(rows: seq<R>, key: R -> K, seen: set<K>)
    ensures InFirstOrder(rows, key, Scan(rows, key, seen))
  {
    if rows != [] {
      var k0 := key(rows[0]);
      var s' := if k0 in seen then seen else seen + {k0};
      ScanOrder(rows[1..], key, s');
      var rest := Scan(rows[1..], key, s');
      ScanTail(rows, key, seen, rest);
      ScanFirst(rows[1..], key, s');
      assert ShiftedByOne(rows, key, rest);
      OrderShift(rows, key, rest);
      if k0 !in seen {
        ShiftedBehind(rows, key, rest);
        OrderCons(rows, key, rest);
      }
    }
  }

  /** Each survivor is the first row with its key. */
  lemma DropDuplicatesFirst<R, K>(rows: seq<R>, key: R -> K)
    ensures var out := DropDuplicates(rows, key);
      forall i :: 0 <= i < |out| ==>
        key(out[i]) in KeysOf(rows, key) && out[i] == rows[FirstIndex(rows, key, key(out[i]))]
  {
    ScanFirst(rows, key, {});
  }

  /** What survives: no key twice; at most as many rows as before; every key
      of the input still present; each survivor is the first row with its
      key; and survivors appear in the order of their first occurrences. */
  lemma DropDuplicatesSpec<R, K>(rows: seq<R>, key: R -> K)
    ensures var out := DropDuplicates(rows, key);
      && |out| <= |rows|
      && (forall i, j :: 0 <= i < j < |out| ==> key(out[i]) != key(out[j]))
      && (forall k :: k in KeysOf(out, key) <==> k in KeysOf(rows, key))
      && (forall i :: 0 <= i < |out| ==>
            key(out[i]) in KeysOf(rows, key) && out[i] == rows[FirstIndex(rows, key, key(out[i]))])
      && InFirstOrder(rows, key, out)
  {
    ScanKeys(rows, key, {});
    ScanDistinct(rows, key, {});
    ScanFirst(rows, key, {});
    ScanOrder(rows, key, {});
  }
}
