/** Small vocabulary shared by the other modules: option and result types, the
    model of Go's time values, and total orders with a sorting method. */
module Common {

  datatype Option<+T> = None | Some(value: T)

  datatype Result<+T, +E> = Ok(value: T) | Err(error: E)

  /** A point in time, in nanoseconds since the Unix epoch. */
  type Time = int

  /** Go's zero time, 1 January of year 1. It lies outside the int64 nanosecond range. */
  const ZERO_TIME: Time := -62135596800 * 1_000_000_000

  const TWO_TO_THE_32 := 0x1_0000_0000
  const TWO_TO_THE_63 := 0x8000_0000_0000_0000
  const TWO_TO_THE_64 := 0x1_0000_0000_0000_0000

  // ----- orders -----

  ghost predicate StrictOrder<T(!new)>(less: (T, T) -> bool)
  {
    && (forall a :: !less(a, a))
    && (forall a, b, c :: less(a, b) && less(b, c) ==> less(a, c))
    && (forall a, b :: a != b ==> less(a, b) || less(b, a))
  }

  /** Lexicographic order; a proper prefix is smaller. */
  predicate Lex<T(==)>(a: seq<T>, b: seq<T>, less: (T, T) -> bool)
  {
    if b == [] then false
    else if a == [] then true
    else if a[0] != b[0] then less(a[0], b[0])
    else Lex(a[1..], b[1..], less)
  }

  lemma {:induction false} LexIrreflexive<T(!new)>(a: seq<T>, less: (T, T) -> bool)
    ensures !Lex(a, a, less)
  {
    if a != [] { LexIrreflexive(a[1..], less); }
  }

  lemma {:induction false} LexTransitive<T(!new)>(a: seq<T>, b: seq<T>, c: seq<T>, less: (T, T) -> bool)
    requires StrictOrder(less) && Lex(a, b, less) && Lex(b, c, less)
    ensures Lex(a, c, less)
  {
    if a != [] {
      if a[0] == b[0] && b[0] == c[0] {
        LexTransitive(a[1..], b[1..], c[1..], less);
      } else {
        assert a[0] != b[0] ==> less(a[0], b[0]);
        assert b[0] != c[0] ==> less(b[0], c[0]);
      }
    }
  }

  lemma {:induction false} LexConnected<T(!new)>(a: seq<T>, b: seq<T>, less: (T, T) -> bool)
    requires StrictOrder(less) && a != b
    ensures Lex(a, b, less) || Lex(b, a, less)
  {
    if a != [] && b != [] && a[0] == b[0] {
      assert a == [a[0]] + a[1..] && b == [b[0]] + b[1..];
      LexConnected(a[1..], b[1..], less);
    }
  }

  lemma LexIsStrict<T(!new)>(less: (T, T) -> bool)
    requires StrictOrder(less)
    ensures forall a :: !Lex(a, a, less)
    ensures forall a, b, c :: Lex(a, b, less) && Lex(b, c, less) ==> Lex(a, c, less)
    ensures forall a, b :: a != b ==> Lex(a, b, less) || Lex(b, a, less)
  {
    forall a ensures !Lex(a, a, less) { LexIrreflexive(a, less); }
    forall a, b, c | Lex(a, b, less) && Lex(b, c, less) ensures Lex(a, c, less) { LexTransitive(a, b, c, less); }
    forall a, b | a != b ensures Lex(a, b, less) || Lex(b, a, less) { LexConnected(a, b, less); }
  }

  predicate CharLess(a: char, b: char)
  {
    a < b
  }

  /** Go compares strings byte by byte. */
  predicate StringLess(a: string, b: string)
  {
    Lex(a, b, CharLess)
  }

  lemma StringLessIsStrict()
    ensures StrictOrder(StringLess)
  {
    assert StrictOrder(CharLess);
    LexIsStrict(CharLess);
  }

  // ----- ordered sequences -----

  ghost predicate Increasing<T>(s: seq<T>, less: (T, T) -> bool)
  {
    forall i, j :: 0 <= i < j < |s| ==> less(s[i], s[j])
  }

  /** Never reflexive, and transitive. */
  ghost predicate StrictPartialOrder<T(!new)>(less: (T, T) -> bool)
  {
    && (forall a :: !less(a, a))
    && (forall a, b, c :: less(a, b) && less(b, c) ==> less(a, c))
  }

  /** Any two entries can be told apart by the order, so no element is listed twice. */
  ghost predicate Comparable<T>(s: seq<T>, less: (T, T) -> bool)
  {
    forall i, j :: 0 <= i < j < |s| ==> less(s[i], s[j]) || less(s[j], s[i])
  }

  /** Puts x before the first element that is larger. */
  function Insert<T>(s: seq<T>, x: T, less: (T, T) -> bool): seq<T>
  {
    if s == [] then [x]
    else if less(x, s[0]) then [x] + s
    else [s[0]] + Insert(s[1..], x, less)
  }

  lemma {:induction false} InsertElements<T>(s: seq<T>, x: T, less: (T, T) -> bool)
    ensures forall y :: y in Insert(s, x, less) <==> y == x || y in s
  {
    if s != [] && !less(x, s[0]) {
      assert s == [s[0]] + s[1..];
      InsertElements(s[1..], x, less);
    }
  }

  lemma {:induction false} InsertKeepsIncreasing<T(!new)>(s: seq<T>, x: T, less: (T, T) -> bool)
    requires StrictPartialOrder(less) && Increasing(s, less)
    requires forall i :: 0 <= i < |s| ==> less(x, s[i]) || less(s[i], x)
    ensures Increasing(Insert(s, x, less), less)
  {
    if s != [] && !less(x, s[0]) {
      assert s == [s[0]] + s[1..];
      var rest := Insert(s[1..], x, less);
      InsertKeepsIncreasing(s[1..], x, less);
      InsertElements(s[1..], x, less);
      assert less(s[0], x);
      forall j | 0 <= j < |rest| ensures less(s[0], rest[j]) {
        assert rest[j] in rest;
      }
    }
  }

  /** Stands for sort.Slice on a slice whose order leaves no ties. */
  method Sort<T(!new)>(s: seq<T>, less: (T, T) -> bool) returns (r: seq<T>)
    requires StrictPartialOrder(less) && Comparable(s, less)
    ensures Increasing(r, less)
    ensures forall x :: x in r <==> x in s
  {
    r := [];
    for i := 0 to |s|
      invariant Increasing(r, less)
      invariant forall x :: x in r <==> x in s[..i]
    {
      InsertElements(r, s[i], less);
      forall j | 0 <= j < |r| ensures less(s[i], r[j]) || less(r[j], s[i]) {
        assert r[j] in s[..i];
      }
      InsertKeepsIncreasing(r, s[i], less);
      assert s[..i + 1] == s[..i] + [s[i]];
      r := Insert(r, s[i], less);
    }
    assert s[..|s|] == s;
  }

  /** A sorted list is determined by what is on it. */
  lemma {:induction false} SameElementsSameList<T(!new)>(a: seq<T>, b: seq<T>, less: (T, T) -> bool)
    requires StrictPartialOrder(less) && Increasing(a, less) && Increasing(b, less)
    requires forall x :: x in a <==> x in b
    ensures a == b
  {
    assert |b| > 0 ==> b[0] in b;
    if a != [] {
      assert a[0] in b && b[0] in a;
      var i :| 0 <= i < |b| && b[i] == a[0];
      var j :| 0 <= j < |a| && a[j] == b[0];
      assert i == 0;
      assert a == [a[0]] + a[1..] && b == [b[0]] + b[1..];
      forall x ensures x in a[1..] <==> x in b[1..] {
        assert x in a[1..] ==> x in b && x != a[0];
        assert x in b[1..] ==> x in a && x != b[0];
      }
      SameElementsSameList(a[1..], b[1..], less);
    }
  }

  // ----- filtering -----

  function Filter<T(!new)>(s: seq<T>, p: T -> bool): (r: seq<T>)
    ensures forall x :: x in r <==> x in s && p(x)
  {
    if s == [] then []
    else
      var n := |s| - 1;
      assert s == s[..n] + [s[n]];
      Filter(s[..n], p) + (if p(s[n]) then [s[n]] else [])
  }
}
