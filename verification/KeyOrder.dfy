/** Byte-wise string order, and the one sorted list of the keys of a map whatever order the map is ranged over in. */
module KeyOrder {
  import opened Bytes

  /** Go's `<=` on strings. */
  predicate AtMost(a: Bytes, b: Bytes) {
    a == [] || (b != [] && (a[0] < b[0] || (a[0] == b[0] && AtMost(a[1..], b[1..]))))
  }

  /** The two agree up to position k, and there `a` has the smaller byte. */
  ghost predicate LessAt(a: Bytes, b: Bytes, k: int) {
    0 <= k < |a| && k < |b| && a[..k] == b[..k] && a[k] < b[k]
  }

  lemma LessAtHead(a: Bytes, b: Bytes)
    ensures forall k :: LessAt(a, b, k) && k > 0 ==> a[0] == b[0]
  {
    forall k | LessAt(a, b, k) && k > 0
      ensures a[0] == b[0]
    {
      assert a[..k][0] == b[..k][0];
    }
  }

  lemma LessAtCons(x: byte, a: Bytes, b: Bytes, k: int)
    requires LessAt(a, b, k)
    ensures LessAt([x] + a, [x] + b, k + 1)
  {
    assert ([x] + a)[..k + 1] == [x] + a[..k] && ([x] + b)[..k + 1] == [x] + b[..k];
  }

  lemma LessAtTail(a: Bytes, b: Bytes, k: int)
    requires LessAt(a, b, k) && a[0] == b[0]
    ensures LessAt(a[1..], b[1..], k - 1)
  {
    assert a[1..][..k - 1] == a[..k][1..] && b[1..][..k - 1] == b[..k][1..];
  }

  /** The order itself: a prefix comes first, and otherwise the smaller byte where the two first differ decides. */
  lemma {:induction false} AtMostIff(a: Bytes, b: Bytes)
    ensures AtMost(a, b) <==> a <= b || exists k :: LessAt(a, b, k)
  {
    if a != [] && b != [] && a[0] == b[0] {
      AtMostIff(a[1..], b[1..]);
      assert a == [a[0]] + a[1..] && b == [b[0]] + b[1..];
      if k :| LessAt(a, b, k) { LessAtTail(a, b, k); }
      if k :| LessAt(a[1..], b[1..], k) { LessAtCons(a[0], a[1..], b[1..], k); }
    } else if a != [] && b != [] {
      LessAtHead(a, b);
      assert a[0] < b[0] ==> LessAt(a, b, 0);
    }
  }

  lemma {:induction false} Total(a: Bytes, b: Bytes)
    ensures AtMost(a, b) || AtMost(b, a)
  {
    if a != [] && b != [] && a[0] == b[0] { Total(a[1..], b[1..]); }
  }

  lemma {:induction false} Antisymmetric(a: Bytes, b: Bytes)
    requires AtMost(a, b) && AtMost(b, a)
    ensures a == b
  {
    if a != [] && b != [] {
      assert a == [a[0]] + a[1..] && b == [b[0]] + b[1..];
      Antisymmetric(a[1..], b[1..]);
    }
  }

  lemma {:induction false} Transitive(a: Bytes, b: Bytes, c: Bytes)
    requires AtMost(a, b) && AtMost(b, c)
    ensures AtMost(a, c)
  {
    if a != [] && a[0] == b[0] == c[0] { Transitive(a[1..], b[1..], c[1..]); }
  }

  ghost predicate Sorted(s: seq<Bytes>) {
    forall i, j :: 0 <= i < j < |s| ==> AtMost(s[i], s[j])
  }

  function Insert(x: Bytes, s: seq<Bytes>): seq<Bytes> {
    if s == [] then [x] else if AtMost(x, s[0]) then [x] + s else [s[0]] + Insert(x, s[1..])
  }

  /** Stands for `sort.Strings`; by `SortedUnique` it does not matter how it sorts. */
  function Sort(s: seq<Bytes>): seq<Bytes> {
    if s == [] then [] else Insert(s[0], Sort(s[1..]))
  }

  lemma {:induction false} InsertSorts(x: Bytes, s: seq<Bytes>)
    requires Sorted(s)
    ensures Sorted(Insert(x, s)) && multiset(Insert(x, s)) == multiset(s) + multiset{x}
  {
    if s == [] {
    } else if AtMost(x, s[0]) {
      forall j | 0 <= j < |s|
        ensures AtMost(x, s[j])
      {
        if j > 0 { Transitive(x, s[0], s[j]); }
      }
    } else {
      Total(x, s[0]);
      InsertSorts(x, s[1..]);
      assert s == [s[0]] + s[1..];
      var rest := Insert(x, s[1..]);
      forall j | 0 <= j < |rest|
        ensures AtMost(s[0], rest[j])
      {
        assert rest[j] in multiset(rest);
        assert rest[j] == x || rest[j] in s[1..];
      }
    }
  }

  lemma {:induction false} SortSorts(s: seq<Bytes>)
    ensures Sorted(Sort(s)) && multiset(Sort(s)) == multiset(s)
  {
    if s != [] {
      SortSorts(s[1..]);
      InsertSorts(s[0], Sort(s[1..]));
      assert s == [s[0]] + s[1..];
    }
  }

  lemma SortedHead(a: seq<Bytes>, x: Bytes)
    requires Sorted(a) && a != [] && x in multiset(a)
    ensures AtMost(a[0], x)
  {
    var i :| 0 <= i < |a| && a[i] == x;
    if i == 0 { Total(x, x); }
  }

  lemma TailMultiset(a: seq<Bytes>)
    requires a != []
    ensures multiset(a[1..]) == multiset(a) - multiset{a[0]}
  {
    assert a == [a[0]] + a[1..];
  }

  lemma SameHead(a: seq<Bytes>, b: seq<Bytes>)
    requires Sorted(a) && Sorted(b) && multiset(a) == multiset(b) && a != []
    ensures b != [] && a[0] == b[0]
  {
    assert a[0] in multiset(a);
    assert b != [];
    assert b[0] in multiset(b);
    SortedHead(a, b[0]);
    SortedHead(b, a[0]);
    Antisymmetric(a[0], b[0]);
  }

  /** There is one way to sort. */
  lemma {:induction false} SortedUnique(a: seq<Bytes>, b: seq<Bytes>)
    requires Sorted(a) && Sorted(b) && multiset(a) == multiset(b)
    ensures a == b
  {
    if a == [] {
      assert |a| == |multiset(a)| && |b| == |multiset(b)|;
    } else {
      SameHead(a, b);
      TailMultiset(a);
      TailMultiset(b);
      SortedUnique(a[1..], b[1..]);
      assert a == [a[0]] + a[1..] && b == [b[0]] + b[1..];
    }
  }

  ghost predicate ListsInOrder(s: seq<Bytes>, keys: set<Bytes>) {
    Sorted(s) && multiset(s) == multiset(keys)
  }

  lemma {:induction false} SomeOrder(keys: set<Bytes>) returns (s: seq<Bytes>)
    ensures multiset(s) == multiset(keys)
  {
    if keys == {} {
      s := [];
    } else {
      var k :| k in keys;
      var rest := SomeOrder(keys - {k});
      s := [k] + rest;
      assert keys == (keys - {k}) + {k};
    }
  }

  lemma InOrderExists(keys: set<Bytes>)
    ensures exists s :: ListsInOrder(s, keys)
  {
    var s := SomeOrder(keys);
    SortSorts(s);
    assert ListsInOrder(Sort(s), keys);
  }

  /** The keys in order. */
  ghost function InOrder(keys: set<Bytes>): (s: seq<Bytes>)
    ensures ListsInOrder(s, keys)
  {
    InOrderExists(keys);
    var s :| ListsInOrder(s, keys);
    s
  }

  lemma OrderedKeys(keys: set<Bytes>)
    ensures forall i :: 0 <= i < |InOrder(keys)| ==> InOrder(keys)[i] in keys
  {
    forall i | 0 <= i < |InOrder(keys)|
      ensures InOrder(keys)[i] in keys
    {
      assert InOrder(keys)[i] in multiset(InOrder(keys));
    }
  }

  lemma InOrderOne(key: Bytes)
    ensures InOrder({key}) == [key]
  {
    assert multiset([key]) == multiset({key});
    SortedUnique(InOrder({key}), [key]);
  }

  /** One more key ranged over. */
  lemma RangeOn(keys: set<Bytes>, rest: set<Bytes>, order: seq<Bytes>, k: Bytes)
    requires rest <= keys && k in rest && multiset(order) == multiset(keys - rest)
    ensures multiset(order + [k]) == multiset(keys - (rest - {k}))
  {
    var done := keys - rest;
    assert keys - (rest - {k}) == done + {k} && k !in done;
    assert multiset(done + {k}) == multiset(done) + multiset{k};
  }

  /** Ranges over the keys in an order the map chooses, then sorts: the result is the same for every such order. */
  method SortedKeys(keys: set<Bytes>) returns (s: seq<Bytes>)
    ensures s == InOrder(keys)
  {
    var collected, rest := [], keys;
    while rest != {}
      invariant rest <= keys && multiset(collected) == multiset(keys - rest)
      decreases |rest|
    {
      var k :| k in rest;
      RangeOn(keys, rest, collected, k);
      collected := collected + [k];
      rest := rest - {k};
    }
    assert keys - {} == keys;
    s := Sort(collected);
    SortSorts(collected);
    SortedUnique(s, InOrder(keys));
  }
}
