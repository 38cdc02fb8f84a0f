/** Small datatypes and ordered-collection helpers shared by every model. */
module Common {

  datatype Option<+T> = None | Some(value: T)

  datatype Result<+T, +E> = Ok(value: T) | Err(error: E)

  ghost predicate NoDuplicates<T(!new)>(s: seq<T>) {
    forall i, j :: 0 <= i < j < |s| ==> s[i] != s[j]
  }

  /** Keeps the first occurrence of every value, in order. */
  function Dedupe<T(==,!new)>(s: seq<T>): (r: seq<T>)
    ensures forall x :: x in r <==> x in s
    ensures forall i, j :: 0 <= i < j < |r| ==> r[i] != r[j]
    ensures |s| > 0 ==> |r| > 0 && r[0] == s[0]
  {
    if s == [] then []
    else
      var d := Dedupe(s[..|s| - 1]);
      assert s == s[..|s| - 1] + [s[|s| - 1]];
      if s[|s| - 1] in d then d else d + [s[|s| - 1]]
  }

  /** `at` gives for each entry of `r` its place in `s`, in increasing order. */
  ghost predicate Places<T(!new)>(s: seq<T>, r: seq<T>, at: seq<nat>) {
    && |at| == |r|
    && (forall i :: 0 <= i < |at| ==> at[i] < |s| && s[at[i]] == r[i])
    && (forall i, j :: 0 <= i < j < |at| ==> at[i] < at[j])
  }

  lemma PlacesExtend<T(!new)>(s: seq<T>, r: seq<T>, at: seq<nat>, x: T)
    requires Places(s, r, at)
    ensures Places(s + [x], r, at) && Places(s + [x], r + [x], at + [|s|])
  {
  }

  /** Deduplication keeps first occurrences in order. */
  lemma {:induction false} DedupeKeepsOrder<T(!new)>(s: seq<T>) returns (at: seq<nat>)
    ensures Places(s, Dedupe(s), at)
    ensures forall i :: 0 <= i < |at| ==> Dedupe(s)[i] !in s[..at[i]]
  {
    hide Places;
    if s == [] {
      at := [];
      NoPlaces(s);
    } else {
      var n := |s| - 1;
      var earlier := DedupeKeepsOrder(s[..n]);
      assert s == s[..n] + [s[n]];
      PlacesExtend(s[..n], Dedupe(s[..n]), earlier, s[n]);
      at := if s[n] in Dedupe(s[..n]) then earlier else earlier + [n];
      forall i | 0 <= i < |at| ensures Dedupe(s)[i] !in s[..at[i]] {
        PlacesBound(s[..n], Dedupe(s[..n]), earlier);
        if i < |earlier| {
          assert s[..n][..earlier[i]] == s[..earlier[i]];
        }
      }
    }
  }

  lemma NoPlaces<T(!new)>(s: seq<T>)
    ensures Places(s, [], [])
  {
  }

  lemma PlacesBound<T(!new)>(s: seq<T>, r: seq<T>, at: seq<nat>)
    requires Places(s, r, at)
    ensures |at| == |r| && forall i :: 0 <= i < |at| ==> at[i] < |s|
  {
  }

  // ---------------------------------------------------------------- sorting

  ghost predicate TotalOrder<T(!new)>(le: (T, T) -> bool) {
    && (forall x, y :: le(x, y) || le(y, x))
    && (forall x, y :: le(x, y) && le(y, x) ==> x == y)
    && (forall x, y, z :: le(x, y) && le(y, z) ==> le(x, z))
  }

  ghost predicate StrictlySorted<T(!new)>(s: seq<T>, le: (T, T) -> bool) {
    forall i, j :: 0 <= i < j < |s| ==> le(s[i], s[j]) && s[i] != s[j]
  }

  function Insert<T(==,!new)>(x: T, s: seq<T>, le: (T, T) -> bool): (r: seq<T>)
    ensures forall y :: y in r <==> y == x || y in s
    ensures |r| == |s| + 1
  {
    if s == [] then [x]
    else if le(x, s[0]) then [x] + s
    else
      assert s == [s[0]] + s[1..];
      [s[0]] + Insert(x, s[1..], le)
  }

  /** Insertion sort: Python's `sorted` on a list without repeated keys. */
  function Sort<T(==,!new)>(s: seq<T>, le: (T, T) -> bool): (r: seq<T>)
    ensures forall y :: y in r <==> y in s
    ensures |r| == |s|
  {
    if s == [] then []
    else
      assert s == [s[0]] + s[1..];
      Insert(s[0], Sort(s[1..], le), le)
  }

  lemma {:induction false} InsertKeepsSorted<T(!new)>(x: T, s: seq<T>, le: (T, T) -> bool)
    requires TotalOrder(le) && StrictlySorted(s, le) && x !in s
    ensures StrictlySorted(Insert(x, s, le), le)
  {
    if s != [] && !le(x, s[0]) {
      InsertKeepsSorted(x, s[1..], le);
      var t := Insert(x, s[1..], le);
      forall j | 0 <= j < |t| ensures le(s[0], t[j]) && s[0] != t[j] {
        assert t[j] in t;
        if t[j] != x {
          var k :| 0 <= k < |s[1..]| && s[1..][k] == t[j];
          assert s[k + 1] == t[j];
        }
      }
    } else if s != [] {
      forall j | 0 <= j < |s| ensures le(x, s[j]) && x != s[j] {
        assert s[j] in s;
      }
    }
  }

  lemma {:induction false} SortIsStrict<T(!new)>(s: seq<T>, le: (T, T) -> bool)
    requires TotalOrder(le) && NoDuplicates(s)
    ensures StrictlySorted(Sort(s, le), le)
  {
    if s != [] {
      SortIsStrict(s[1..], le);
      assert s[0] !in s[1..];
      InsertKeepsSorted(s[0], Sort(s[1..], le), le);
    }
  }

  /** A strictly sorted sequence is determined by its elements. */
  lemma {:induction false} StrictlySortedIsUnique<T(!new)>(a: seq<T>, b: seq<T>, le: (T, T) -> bool)
    requires TotalOrder(le) && StrictlySorted(a, le) && StrictlySorted(b, le)
    requires forall x :: x in a <==> x in b
    ensures a == b
  {
    assert |a| > 0 ==> a[0] in b;
    assert |b| > 0 ==> b[0] in a;
    if a != [] {
      assert le(a[0], b[0]) && le(b[0], a[0]);
      forall x ensures x in a[1..] <==> x in b[1..] {
        if x in a[1..] { assert x in a && x != a[0]; }
        if x in b[1..] { assert x in b && x != b[0]; }
      }
      StrictlySortedIsUnique(a[1..], b[1..], le);
      assert a == [a[0]] + a[1..] && b == [b[0]] + b[1..];
    }
  }

  predicate IntLe(x: int, y: int) { x <= y }

  /** Python's string order: code point by code point, a prefix first. */
  predicate StrLe(a: string, b: string) {
    a == [] || (b != [] && (a[0] < b[0] || (a[0] == b[0] && StrLe(a[1..], b[1..]))))
  }

  lemma StrLeTotal(a: string, b: string)
    ensures StrLe(a, b) || StrLe(b, a)
    ensures StrLe(a, b) && StrLe(b, a) ==> a == b
  {
    if a != [] && b != [] && a[0] == b[0] {
      StrLeTotal(a[1..], b[1..]);
      assert a == [a[0]] + a[1..] && b == [b[0]] + b[1..];
    }
  }

  lemma StrLeTransitive(a: string, b: string, c: string)
    requires StrLe(a, b) && StrLe(b, c)
    ensures StrLe(a, c)
  {
    if a != [] && a[0] == b[0] && b[0] == c[0] {
      StrLeTransitive(a[1..], b[1..], c[1..]);
    }
  }

  lemma StringOrder()
    ensures TotalOrder(StrLe)
  {
    forall a: string, b: string ensures (StrLe(a, b) || StrLe(b, a)) && (StrLe(a, b) && StrLe(b, a) ==> a == b) {
      StrLeTotal(a, b);
    }
    forall a: string, b: string, c: string | StrLe(a, b) && StrLe(b, c) ensures StrLe(a, c) {
      StrLeTransitive(a, b, c);
    }
  }
}
