/** Python's `sorted` on strings and on records with a string key: code point order, stable. */
module Ordering {

  predicate LexLe(a: string, b: string) {
    a == [] || (b != [] && (a[0] < b[0] || (a[0] == b[0] && LexLe(a[1..], b[1..]))))
  }

  lemma {:induction false} LexTotal(a: string, b: string)
    ensures LexLe(a, b) || LexLe(b, a)
  {
    if a != [] && b != [] && a[0] == b[0] {
      LexTotal(a[1..], b[1..]);
    }
  }

  lemma {:induction false} LexAntisymmetric(a: string, b: string)
    requires LexLe(a, b) && LexLe(b, a)
    ensures a == b
  {
    if a != [] && b != [] {
      LexAntisymmetric(a[1..], b[1..]);
      assert a == [a[0]] + a[1..] && b == [b[0]] + b[1..];
    }
  }

  lemma {:induction false} LexTransitive(a: string, b: string, c: string)
    requires LexLe(a, b) && LexLe(b, c)
    ensures LexLe(a, c)
  {
    if a != [] && a[0] == b[0] && b[0] == c[0] {
      LexTransitive(a[1..], b[1..], c[1..]);
    }
  }

  predicate SortedBy<T>(s: seq<T>, key: T -> string) {
    forall i, j | 0 <= i < j < |s| :: LexLe(key(s[i]), key(s[j]))
  }

  function Insert<T>(x: T, s: seq<T>, key: T -> string): seq<T> {
    if s == [] || LexLe(key(x), key(s[0])) then [x] + s else [s[0]] + Insert(x, s[1..], key)
  }

  /** Insertion from the right keeps elements with equal keys in their original order. */
  function Sort<T>(s: seq<T>, key: T -> string): seq<T> {
    if s == [] then [] else Insert(s[0], Sort(s[1..], key), key)
  }

  lemma {:induction false} InsertSorts<T>(x: T, s: seq<T>, key: T -> string)
    requires SortedBy(s, key)
    ensures SortedBy(Insert(x, s, key), key)
    ensures multiset(Insert(x, s, key)) == multiset(s) + multiset{x}
  {
    if s == [] {
    } else if LexLe(key(x), key(s[0])) {
      hide LexLe;
      forall j | 0 <= j < |s| ensures LexLe(key(x), key(s[j])) {
        if j > 0 {
          LexTransitive(key(x), key(s[0]), key(s[j]));
        }
      }
    } else {
      hide LexLe;
      var rest := Insert(x, s[1..], key);
      InsertSorts(x, s[1..], key);
      assert s == [s[0]] + s[1..];
      LexTotal(key(x), key(s[0]));
      forall j | 0 <= j < |rest| ensures LexLe(key(s[0]), key(rest[j])) {
        assert rest[j] in multiset(rest);
        assert rest[j] == x || rest[j] in s[1..];
      }
    }
  }

  lemma {:induction false} SortSorts<T>(s: seq<T>, key: T -> string)
    ensures SortedBy(Sort(s, key), key) && multiset(Sort(s, key)) == multiset(s)
  {
    if s != [] {
      SortSorts(s[1..], key);
      InsertSorts(s[0], Sort(s[1..], key), key);
      assert s == [s[0]] + s[1..];
    }
  }

  lemma SortMembers<T>(s: seq<T>, key: T -> string)
    ensures |Sort(s, key)| == |s| && forall x :: x in Sort(s, key) <==> x in s
  {
    SortSorts(s, key);
    assert |multiset(Sort(s, key))| == |multiset(s)|;
    forall x ensures x in Sort(s, key) <==> x in s {
      assert x in multiset(Sort(s, key)) <==> x in multiset(s);
    }
  }

  /** The key tells the elements apart. */
  ghost predicate Keyed<T>(s: seq<T>, key: T -> string) {
    forall x, y :: x in s && y in s && key(x) == key(y) ==> x == y
  }

  lemma KeyedSubset<T>(a: seq<T>, b: seq<T>, key: T -> string)
    requires Keyed(a, key) && forall x :: x in b ==> x in a
    ensures Keyed(b, key)
  {
  }

  lemma KeyedSame<T>(a: seq<T>, b: seq<T>, key: T -> string)
    requires Keyed(a, key) && multiset(a) == multiset(b)
    ensures Keyed(b, key)
  {
    forall x | x in b ensures x in a {
      assert x in multiset(b);
    }
  }

  lemma MultisetTail<T>(a: seq<T>, b: seq<T>)
    requires a != [] && b != [] && a[0] == b[0] && multiset(a) == multiset(b)
    ensures multiset(a[1..]) == multiset(b[1..])
  {
    assert a == [a[0]] + a[1..] && b == [b[0]] + b[1..];
    assert multiset(a[1..]) == multiset(a) - multiset{a[0]} == multiset(b[1..]);
  }

  lemma SameMultiset<T>(a: seq<T>, b: seq<T>)
    requires multiset(a) == multiset(b)
    ensures |a| == |b| && (a != [] ==> a[0] in b && b[0] in a)
  {
    assert |multiset(a)| == |multiset(b)|;
    if a != [] {
      assert b[0] in multiset(b) && a[0] in multiset(a);
    }
  }

  lemma SameHead<T>(a: seq<T>, b: seq<T>, key: T -> string)
    requires SortedBy(a, key) && SortedBy(b, key) && multiset(a) == multiset(b) && Keyed(a, key) && a != []
    ensures b != [] && a[0] == b[0]
    ensures multiset(a[1..]) == multiset(b[1..])
  {
    hide SortedBy, LexLe;
    SameMultiset(a, b);
    HeadLeast(a, b[0], key);
    HeadLeast(b, a[0], key);
    LexAntisymmetric(key(a[0]), key(b[0]));
    MultisetTail(a, b);
  }

  lemma {:induction false} SortedUnique<T>(a: seq<T>, b: seq<T>, key: T -> string)
    requires SortedBy(a, key) && SortedBy(b, key) && multiset(a) == multiset(b) && Keyed(a, key)
    ensures a == b
  {
    hide Keyed, LexLe;
    if a == [] {
      assert |multiset(b)| == 0;
    } else {
      SameHead(a, b, key);
      KeyedSubset(a, a[1..], key);
      SortedUnique(a[1..], b[1..], key);
      assert a == [a[0]] + a[1..] && b == [b[0]] + b[1..];
    }
  }

  lemma HeadLeast<T>(s: seq<T>, x: T, key: T -> string)
    requires SortedBy(s, key) && x in s
    ensures LexLe(key(s[0]), key(x))
  {
    LexTotal(key(x), key(x));
  }

  /** Sorting forgets the input order, as long as keys tell the elements apart. */
  lemma SortIgnoresOrder<T>(a: seq<T>, b: seq<T>, key: T -> string)
    requires multiset(a) == multiset(b) && Keyed(a, key)
    ensures Sort(a, key) == Sort(b, key)
  {
    hide Keyed, SortedBy, Sort;
    SortSorts(a, key);
    SortSorts(b, key);
    KeyedSame(a, Sort(a, key), key);
    SortedUnique(Sort(a, key), Sort(b, key), key);
  }
}
