/** Lists of ids: their members, their prefixes, and sorting by code points. */
module Sequences {
  predicate NoDuplicates(q: seq<string>) {
    forall i, j | 0 <= i < j < |q| :: q[i] != q[j]
  }

  ghost function Members(q: seq<string>): set<string> {
    set x | x in q
  }

  lemma {:induction false} DistinctKeysCount(q: seq<string>, keys: set<string>)
    requires NoDuplicates(q) && forall x :: x in q <==> x in keys
    ensures |keys| == |q|
  {
    if q != [] {
      var init, last := q[..|q| - 1], q[|q| - 1];
      assert q == init + [last];
      DistinctKeysCount(init, keys - {last});
    } else {
      assert keys == {};
    }
  }

  /** The ids before position i. */
  ghost function Prefix(ids: seq<string>, i: nat): set<string>
    requires i <= |ids|
  {
    set j | 0 <= j < i :: ids[j]
  }

  lemma PrefixGrows(ids: seq<string>, i: nat)
    requires i < |ids|
    ensures Prefix(ids, i + 1) == Prefix(ids, i) + {ids[i]} && (NoDuplicates(ids) ==> ids[i] !in Prefix(ids, i))
    ensures ids[..i + 1][..i] == ids[..i] && ids[..i + 1][i] == ids[i]
  {
  }

  lemma PrefixIsAll(ids: seq<string>, keys: set<string>)
    requires forall k :: k in ids <==> k in keys
    ensures Prefix(ids, |ids|) == keys == Members(ids) && ids[..|ids|] == ids
  {
  }

  /** The elements of a are those of b at these positions. */
  ghost predicate Embedded<T>(a: seq<T>, b: seq<T>, at: seq<nat>) {
    && |at| == |a| && (forall i, j | 0 <= i < j < |at| :: at[i] < at[j])
    && forall i | 0 <= i < |at| :: at[i] < |b| && b[at[i]] == a[i]
  }

  /** a is b with some elements left out. */
  ghost predicate Subsequence<T>(a: seq<T>, b: seq<T>) {
    exists at: seq<nat> :: Embedded(a, b, at)
  }

  lemma EmptyEmbeds<T>()
    ensures Subsequence<T>([], [])
  {
    assert Embedded<T>([], [], []);
  }

  lemma SubsequenceGrows<T>(a: seq<T>, b: seq<T>, x: T, keep: bool)
    requires Subsequence(a, b)
    ensures Subsequence(a + if keep then [x] else [], b + [x])
  {
    var at: seq<nat> :| Embedded(a, b, at);
    var more: seq<nat> := at + if keep then [|b|] else [];
    assert Embedded(a + if keep then [x] else [], b + [x], more);
  }

  // ---- sorted(...) of a set of strings ----

  /** Strings are compared code point by code point, and a proper prefix is smaller. */
  predicate Less(a: string, b: string) {
    b != [] && (a == [] || a[0] < b[0] || (a[0] == b[0] && Less(a[1..], b[1..])))
  }

  lemma {:induction false} LessIsTotal(a: string, b: string)
    ensures a != b ==> Less(a, b) || Less(b, a)
  {
    if a != [] && b != [] && a[0] == b[0] {
      LessIsTotal(a[1..], b[1..]);
      assert a == [a[0]] + a[1..] && b == [b[0]] + b[1..];
    }
  }

  lemma {:induction false} LessIsTransitive(a: string, b: string, c: string)
    requires Less(a, b) && Less(b, c)
    ensures Less(a, c)
  {
    if a != [] && a[0] == b[0] && b[0] == c[0] {
      LessIsTransitive(a[1..], b[1..], c[1..]);
    }
  }

  lemma {:induction false} LessIsStrict(a: string)
    ensures !Less(a, a)
  {
    if a != [] {
      LessIsStrict(a[1..]);
    }
  }

  ghost predicate Sorted(q: seq<string>) {
    forall i, j | 0 <= i < j < |q| :: Less(q[i], q[j])
  }

  lemma SortedIsDistinct(q: seq<string>)
    requires Sorted(q)
    ensures NoDuplicates(q)
  {
    forall i, j | 0 <= i < j < |q|
      ensures q[i] != q[j]
    {
      LessIsStrict(q[i]);
    }
  }

  lemma HasMember(q: seq<string>)
    ensures q != [] <==> Members(q) != {}
  {
    if q != [] {
      assert q[0] in Members(q);
    }
  }

  lemma FirstIsSame(p: seq<string>, q: seq<string>)
    requires Sorted(p) && Sorted(q) && Members(p) == Members(q) && p != [] && q != []
    ensures p[0] == q[0]
  {
    assert p[0] in Members(q) && q[0] in Members(p);
    var i :| 0 <= i < |q| && q[i] == p[0];
    var j :| 0 <= j < |p| && p[j] == q[0];
    if i > 0 && j > 0 {
      LessIsTransitive(p[0], p[j], p[0]);
      LessIsStrict(p[0]);
    }
  }

  lemma RestIsSame(p: seq<string>, q: seq<string>)
    requires Sorted(p) && Sorted(q) && Members(p) == Members(q) && p != [] && q != [] && p[0] == q[0]
    ensures Members(p[1..]) == Members(q[1..])
  {
    SortedIsDistinct(p);
    SortedIsDistinct(q);
    assert Members(p[1..]) == Members(p) - {p[0]} by { assert p == [p[0]] + p[1..]; }
    assert Members(q[1..]) == Members(q) - {q[0]} by { assert q == [q[0]] + q[1..]; }
  }

  /** A set has one sorted list only. */
  lemma {:induction false} SortedIsUnique(p: seq<string>, q: seq<string>)
    requires Sorted(p) && Sorted(q) && Members(p) == Members(q)
    ensures p == q
    decreases |p|
  {
    HasMember(p);
    HasMember(q);
    if p == [] {
    } else {
      FirstIsSame(p, q);
      RestIsSame(p, q);
      SortedIsUnique(p[1..], q[1..]);
      assert p == [p[0]] + p[1..] && q == [q[0]] + q[1..];
    }
  }

  lemma InsertedIsSorted(q: seq<string>, x: string, i: nat)
    requires Sorted(q) && x !in q && i <= |q| && (forall j | 0 <= j < i :: Less(q[j], x))
    requires (i < |q| ==> !Less(q[i], x))
    ensures Sorted(q[..i] + [x] + q[i..])
  {
    forall j | i <= j < |q|
      ensures Less(x, q[j])
    {
      LessIsTotal(x, q[i]);
      if j > i {
        LessIsTransitive(x, q[i], q[j]);
      }
    }
  }

  method Insert(q: seq<string>, x: string) returns (r: seq<string>)
    requires Sorted(q) && x !in q
    ensures Sorted(r) && Members(r) == Members(q) + {x}
  {
    var i := 0;
    while i < |q| && Less(q[i], x)
      invariant 0 <= i <= |q| && forall j | 0 <= j < i :: Less(q[j], x)
    {
      i := i + 1;
    }
    r := q[..i] + [x] + q[i..];
    InsertedIsSorted(q, x, i);
    assert q == q[..i] + q[i..];
  }

  /** sorted(s) */
  method SortedList(s: set<string>) returns (r: seq<string>)
    ensures Sorted(r) && Members(r) == s
  {
    r := [];
    var todo := s;
    while todo != {}
      invariant todo <= s && Sorted(r) && Members(r) == s - todo
      decreases todo
    {
      var x :| x in todo;
      assert x !in Members(r);
      r := Insert(r, x);
      todo := todo - {x};
    }
  }
}
