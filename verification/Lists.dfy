/** Lists, orders and sorting shared by every model: what the source does with
    `Vec`, `BTreeSet`, `BTreeMap` and the standard library's sort. */
module Lists {

  datatype Option<+T> = None | Some(value: T)

  datatype Result<+T, +E> = Ok(value: T) | Err(error: E)

  /** Largest `u64`; generation counters are advanced with `checked_add`. */
  const U64_MAX: nat := 0xFFFF_FFFF_FFFF_FFFF

  ghost predicate Distinct<T(!new)>(xs: seq<T>) {
    forall i, j :: 0 <= i < j < |xs| ==> xs[i] != xs[j]
  }

  function Elements<T(==)>(xs: seq<T>): set<T> {
    set x | x in xs
  }

  lemma HeadIsMember<T>(xs: seq<T>)
    ensures xs != [] ==> xs[0] in xs
  {
  }

  /** A duplicate-free list has as many entries as its set of elements. */
  lemma {:induction false} DistinctCardinality<T(!new)>(xs: seq<T>)
    requires Distinct(xs)
    ensures |Elements(xs)| == |xs|
  {
    if xs == [] {
      assert Elements(xs) == {};
    } else {
      var init, last := xs[..|xs| - 1], xs[|xs| - 1];
      DistinctCardinality(init);
      assert xs == init + [last];
      assert Elements(xs) == Elements(init) + {last};
    }
  }

  // Orders ---------------------------------------------------------------

  ghost predicate TotalPreorder<T(!new)>(leq: (T, T) -> bool) {
    && (forall x, y :: leq(x, y) || leq(y, x))
    && (forall x, y, z :: leq(x, y) && leq(y, z) ==> leq(x, z))
  }

  ghost predicate TotalOrder<T(!new)>(leq: (T, T) -> bool) {
    && TotalPreorder(leq)
    && (forall x, y :: leq(x, y) && leq(y, x) ==> x == y)
  }

  ghost predicate AntisymmetricOn<T(!new)>(leq: (T, T) -> bool, xs: seq<T>) {
    forall x, y :: x in xs && y in xs && leq(x, y) && leq(y, x) ==> x == y
  }

  ghost predicate Sorted<T(!new)>(leq: (T, T) -> bool, xs: seq<T>) {
    forall i, j :: 0 <= i < j < |xs| ==> leq(xs[i], xs[j])
  }

  function Insert<T>(leq: (T, T) -> bool, x: T, xs: seq<T>): (r: seq<T>)
    ensures multiset(r) == multiset(xs) + multiset{x}
  {
    if xs == [] then [x]
    else if leq(x, xs[0]) then [x] + xs
    else
      assert xs == [xs[0]] + xs[1..];
      [xs[0]] + Insert(leq, x, xs[1..])
  }

  /** The library sort: a stable sort by `leq`. */
  function Sort<T>(leq: (T, T) -> bool, xs: seq<T>): (r: seq<T>)
    ensures multiset(r) == multiset(xs)
    ensures |r| == |xs|
  {
    if xs == [] then []
    else
      assert xs == [xs[0]] + xs[1..];
      var r := Insert(leq, xs[0], Sort(leq, xs[1..]));
      assert |multiset(r)| == |r| && |multiset(xs)| == |xs|;
      r
  }

  lemma SameElements<T>(xs: seq<T>, ys: seq<T>)
    requires multiset(xs) == multiset(ys)
    ensures |xs| == |ys|
    ensures forall x :: x in xs <==> x in ys
  {
    assert |multiset(xs)| == |xs| && |multiset(ys)| == |ys|;
    forall x ensures x in xs <==> x in ys {
      assert x in multiset(xs) <==> x in xs;
      assert x in multiset(ys) <==> x in ys;
    }
  }

  lemma {:induction false} InsertSorted<T(!new)>(leq: (T, T) -> bool, x: T, xs: seq<T>)
    requires TotalPreorder(leq) && Sorted(leq, xs)
    ensures Sorted(leq, Insert(leq, x, xs))
  {
    if xs != [] && !leq(x, xs[0]) {
      var rest := Insert(leq, x, xs[1..]);
      InsertSorted(leq, x, xs[1..]);
      forall k | 0 <= k < |rest| ensures leq(xs[0], rest[k]) {
        assert rest[k] in multiset(rest);
        assert rest[k] == x || rest[k] in xs[1..];
      }
    }
  }

  lemma {:induction false} SortSorted<T(!new)>(leq: (T, T) -> bool, xs: seq<T>)
    requires TotalPreorder(leq)
    ensures Sorted(leq, Sort(leq, xs))
  {
    if xs != [] {
      SortSorted(leq, xs[1..]);
      InsertSorted(leq, xs[0], Sort(leq, xs[1..]));
    }
  }

  lemma SortedHeads<T(!new)>(leq: (T, T) -> bool, xs: seq<T>, ys: seq<T>)
    requires TotalPreorder(leq) && AntisymmetricOn(leq, xs)
    requires Sorted(leq, xs) && Sorted(leq, ys) && xs != []
    requires multiset(xs) == multiset(ys)
    ensures ys != [] && xs[0] == ys[0]
  {
    SameElements(xs, ys);
    assert xs[0] in ys && ys[0] in xs;
    assert leq(xs[0], ys[0]) && leq(ys[0], xs[0]);
  }

  lemma WithoutHead<T>(xs: seq<T>)
    requires xs != []
    ensures multiset(xs[1..]) == multiset(xs) - multiset{xs[0]}
  {
    assert [xs[0]] + xs[1..] == xs;
  }

  /** A bag of elements has one sorted arrangement only. */
  lemma {:induction false} SortedDetermined<T(!new)>(leq: (T, T) -> bool, xs: seq<T>, ys: seq<T>)
    requires TotalPreorder(leq) && AntisymmetricOn(leq, xs)
    requires Sorted(leq, xs) && Sorted(leq, ys)
    requires multiset(xs) == multiset(ys)
    ensures xs == ys
  {
    hide TotalPreorder;
    SameElements(xs, ys);
    if xs != [] {
      SortedHeads(leq, xs, ys);
      WithoutHead(xs);
      WithoutHead(ys);
      SortedDetermined(leq, xs[1..], ys[1..]);
      assert [xs[0]] + xs[1..] == [ys[0]] + ys[1..];
    }
  }

  /** Sorting forgets the order its input came in, and nothing else. */
  lemma SortCanonical<T(!new)>(leq: (T, T) -> bool, xs: seq<T>, ys: seq<T>)
    requires TotalPreorder(leq) && AntisymmetricOn(leq, xs)
    ensures Sort(leq, xs) == Sort(leq, ys) <==> multiset(xs) == multiset(ys)
  {
    SortSorted(leq, xs);
    SortSorted(leq, ys);
    if multiset(xs) == multiset(ys) {
      SameElements(xs, Sort(leq, xs));
      SortedDetermined(leq, Sort(leq, xs), Sort(leq, ys));
    }
  }

  lemma {:induction false} DistinctIsMultiset<T(!new)>(xs: seq<T>)
    ensures Distinct(xs) <==> forall x :: multiset(xs)[x] <= 1
  {
    if xs != [] {
      var init, last := xs[..|xs| - 1], xs[|xs| - 1];
      DistinctIsMultiset(init);
      assert xs == init + [last];
      assert multiset(xs) == multiset(init) + multiset{last};
      assert Distinct(xs) <==> Distinct(init) && last !in init by {
        if !Distinct(xs) {
          var i, j :| 0 <= i < j < |xs| && xs[i] == xs[j];
          assert j == |xs| - 1 || init[i] == init[j];
        }
        if last in init {
          var i :| 0 <= i < |init| && init[i] == last;
          assert xs[i] == xs[|xs| - 1];
        }
        if !Distinct(init) {
          var i, j :| 0 <= i < j < |init| && init[i] == init[j];
          assert xs[i] == xs[j];
        }
      }
      assert last in init <==> last in multiset(init);
      if forall x :: multiset(xs)[x] <= 1 {
        assert multiset(xs)[last] == multiset(init)[last] + 1;
        forall x ensures multiset(init)[x] <= 1 {
          assert multiset(xs)[x] >= multiset(init)[x];
        }
      }
    }
  }

  /** Rearranging a list keeps it free of duplicates. */
  lemma DistinctPermutes<T(!new)>(xs: seq<T>, ys: seq<T>)
    requires multiset(xs) == multiset(ys)
    ensures Distinct(xs) <==> Distinct(ys)
  {
    DistinctIsMultiset(xs);
    DistinctIsMultiset(ys);
    SameElements(xs, ys);
  }

  /** Duplicate-free lists hold the same entries exactly when they hold the same set. */
  lemma DistinctSameSet<T(!new)>(xs: seq<T>, ys: seq<T>)
    requires Distinct(xs) && Distinct(ys)
    ensures multiset(xs) == multiset(ys) <==> Elements(xs) == Elements(ys)
  {
    if multiset(xs) == multiset(ys) {
      SameElements(xs, ys);
      assert forall x :: x in Elements(xs) <==> x in Elements(ys);
    }
    if Elements(xs) == Elements(ys) {
      DistinctIsMultiset(xs);
      DistinctIsMultiset(ys);
      forall x ensures multiset(xs)[x] == multiset(ys)[x] {
        assert x in xs <==> x in Elements(xs);
        assert x in ys <==> x in Elements(ys);
        assert x in xs <==> x in ys;
      }
    }
  }

  // Mapping --------------------------------------------------------------

  function Map<T, U>(f: T -> U, xs: seq<T>): (r: seq<U>)
    ensures |r| == |xs|
    ensures forall i :: 0 <= i < |xs| ==> r[i] == f(xs[i])
  {
    seq(|xs|, i requires 0 <= i < |xs| => f(xs[i]))
  }

  lemma MapRemoves<T, U>(f: T -> U, xs: seq<T>, j: nat)
    requires j < |xs|
    ensures multiset(Map(f, xs)) == multiset(Map(f, xs[..j] + xs[j + 1..])) + multiset{f(xs[j])}
    ensures multiset(xs) == multiset(xs[..j] + xs[j + 1..]) + multiset{xs[j]}
  {
    var rest := xs[..j] + xs[j + 1..];
    assert xs == xs[..j] + [xs[j]] + xs[j + 1..];
    assert Map(f, xs) == Map(f, xs)[..j] + [f(xs[j])] + Map(f, xs)[j + 1..];
    assert Map(f, rest) == Map(f, xs)[..j] + Map(f, xs)[j + 1..];
  }

  /** Mapping a rearranged list rearranges the mapped list. */
  lemma {:induction false} MapPermutes<T, U>(f: T -> U, xs: seq<T>, ys: seq<T>)
    requires multiset(xs) == multiset(ys)
    ensures multiset(Map(f, xs)) == multiset(Map(f, ys))
  {
    hide Map;
    assert |multiset(xs)| == |xs| && |multiset(ys)| == |ys|;
    if xs != [] {
      assert xs[0] in multiset(ys);
      var j: nat :| j < |ys| && ys[j] == xs[0];
      var front, rest := xs[..0] + xs[1..], ys[..j] + ys[j + 1..];
      MapRemoves(f, xs, 0);
      MapRemoves(f, ys, j);
      assert multiset(front) == multiset(rest) by {
        assert multiset(front) == multiset(xs) - multiset{xs[0]};
        assert multiset(rest) == multiset(ys) - multiset{ys[j]};
      }
      MapPermutes(f, front, rest);
    }
  }

  // Strings --------------------------------------------------------------

  /** Rust's `str` order: lexicographic by code point. */
  predicate StringLe(a: string, b: string) {
    a == [] || (b != [] && (a[0] < b[0] || (a[0] == b[0] && StringLe(a[1..], b[1..]))))
  }

  lemma {:induction false} StringLeTotal(a: string, b: string)
    ensures StringLe(a, b) || StringLe(b, a)
    ensures StringLe(a, b) && StringLe(b, a) ==> a == b
  {
    if a != [] && b != [] && a[0] == b[0] {
      StringLeTotal(a[1..], b[1..]);
      assert a == [a[0]] + a[1..] && b == [b[0]] + b[1..];
    }
  }

  lemma {:induction false} StringLeTransitive(a: string, b: string, c: string)
    requires StringLe(a, b) && StringLe(b, c)
    ensures StringLe(a, c)
  {
    if a != [] && a[0] == b[0] == c[0] {
      StringLeTransitive(a[1..], b[1..], c[1..]);
    }
  }

  /** The pieces of a text between separators. */
  function Split(s: string, separator: char): (r: seq<string>)
    ensures r != []
  {
    if s == [] then [""]
    else
      var rest := Split(s[1..], separator);
      if s[0] == separator then [""] + rest else [[s[0]] + rest[0]] + rest[1..]
  }

  /** Unicode's White_Space property, which Rust's `str::trim` removes. */
  predicate WhiteSpace(c: char) {
    || '\U{09}' <= c <= '\U{0D}' || c == ' ' || c == '\U{85}' || c == '\U{A0}' || c == '\U{1680}'
    || '\U{2000}' <= c <= '\U{200A}' || c == '\U{2028}' || c == '\U{2029}' || c == '\U{202F}'
    || c == '\U{205F}' || c == '\U{3000}'
  }

  /** `value.trim().is_empty()` */
  predicate Blank(s: string) {
    forall i :: 0 <= i < |s| ==> WhiteSpace(s[i])
  }
}
