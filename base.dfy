/**
 Small building blocks shared by the model: optional values, the outcome of
 JavaScript code that may throw, and the handful of array and string
 operations (`indexOf`, `filter`, `toLowerCase`, `includes`) the source
 relies on.
 */
module Base {

  /** A value that may be absent (`undefined`, `null`, a nil pointer). */
  datatype Option<+T> = None | Some(value: T)

  /** The result of JavaScript code that either returns a value or throws a
      TypeError (a property read on `undefined` or `null`). */
  datatype Outcome<+T> = Done(value: T) | Thrown

  /** `Array.prototype.indexOf` (and `findIndex` with `===`): the first index
      holding `x`, or -1 when there is none. */
  function IndexOf<T(==)>(s: seq<T>, x: T): (i: int)
    ensures -1 <= i < |s|
    ensures i == -1 <==> x !in s
    ensures 0 <= i ==> s[i] == x && x !in s[..i]
  {
    if |s| == 0 then -1
    else if s[0] == x then 0
    else
      var j := IndexOf(s[1..], x);
      assert s[1..][..if j < 0 then 0 else j] == s[1..1 + (if j < 0 then 0 else j)];
      if j == -1 then -1 else j + 1
  }

  /** `indexOf` is the first position holding `x`. */
  lemma IndexOfIs<T>(s: seq<T>, x: T, k: int)
    requires 0 <= k < |s| && s[k] == x
    requires forall j :: 0 <= j < k ==> s[j] != x
    ensures IndexOf(s, x) == k
  {
  }

  /** JavaScript's `a % 4` on integers: the remainder truncates toward zero,
      so it takes the sign of the dividend (Dafny's own `%` never goes
      negative). Every remainder in the source is by 4. */
  function JsRem4(a: int): (r: int)
    ensures -4 < r < 4
    ensures 0 <= a ==> r == a % 4
    ensures a < 0 ==> r <= 0 && (r == 0 || r == a % 4 - 4)
  {
    if a >= 0 then a % 4 else -((-a) % 4)
  }

  /** In a week grid laid out three shifts to a day, row `d * 3 + s` is day
      `d` and shift `s`. */
  lemma RowOfDayShift(d: int, s: int)
    requires 0 <= s < 3
    ensures (d * 3 + s) / 3 == d && (d * 3 + s) % 3 == s
  {
  }

  /** `Array.prototype.map`: `f` applied to every element, in order. */
  function MapSeq<T, U>(s: seq<T>, f: T -> U): (r: seq<U>)
    ensures |r| == |s| && forall i :: 0 <= i < |s| ==> r[i] == f(s[i])
  {
    seq(|s|, i requires 0 <= i < |s| => f(s[i]))
  }

  /** `Array.prototype.filter`. */
  function Filter<T>(s: seq<T>, keep: T -> bool): (r: seq<T>)
    ensures |r| <= |s|
  {
    if s == [] then []
    else if keep(s[0]) then [s[0]] + Filter(s[1..], keep)
    else Filter(s[1..], keep)
  }

  /** `sub` is `s` with some elements dropped and the others in their order. */
  ghost predicate IsSubsequence<T>(sub: seq<T>, s: seq<T>)
    decreases |s|
  {
    if s == [] then sub == []
    else
      || (sub != [] && sub[0] == s[0] && IsSubsequence(sub[1..], s[1..]))
      || IsSubsequence(sub, s[1..])
  }

  /** `filter` keeps a subsequence of its input. */
  lemma {:induction false} FilterIsSubsequence<T>(s: seq<T>, keep: T -> bool)
    ensures IsSubsequence(Filter(s, keep), s)
    decreases |s|
  {
    if s != [] {
      FilterIsSubsequence(s[1..], keep);
      if keep(s[0]) {
        assert ([s[0]] + Filter(s[1..], keep))[1..] == Filter(s[1..], keep);
      }
    }
  }

  /** An element is kept exactly when it is in the input and passes the test. */
  lemma {:induction false} FilterMembership<T>(s: seq<T>, keep: T -> bool, x: T)
    ensures x in Filter(s, keep) <==> x in s && keep(x)
    decreases |s|
  {
    if s != [] {
      FilterMembership(s[1..], keep, x);
      assert s == [s[0]] + s[1..];
    }
  }

  /** Nothing is dropped when every element passes. */
  lemma {:induction false} FilterKeepsAll<T>(s: seq<T>, keep: T -> bool)
    requires forall i :: 0 <= i < |s| ==> keep(s[i])
    ensures Filter(s, keep) == s
    decreases |s|
  {
    if s != [] {
      FilterKeepsAll(s[1..], keep);
      assert s == [s[0]] + s[1..];
    }
  }

  /** `i` is the first position of `s` whose element passes `p`. */
  predicate FirstPassing<T>(s: seq<T>, p: T -> bool, i: int)
  {
    0 <= i < |s| && p(s[i]) && forall j :: 0 <= j < i ==> !p(s[j])
  }

  /** `Array.prototype.find`: the first element passing the test, if any. */
  function Find<T>(s: seq<T>, p: T -> bool): (r: Option<T>)
    ensures r.None? <==> forall i :: 0 <= i < |s| ==> !p(s[i])
    ensures r.Some? ==> exists i :: FirstPassing(s, p, i) && s[i] == r.value
    decreases |s|
  {
    if s == [] then None
    else if p(s[0]) then
      assert FirstPassing(s, p, 0);
      Some(s[0])
    else
      var r := Find(s[1..], p);
      assert r.Some? ==> exists i :: FirstPassing(s, p, i) && s[i] == r.value by {
        if r.Some? {
          var i :| FirstPassing(s[1..], p, i) && s[1..][i] == r.value;
          forall j | 0 <= j < i + 1 ensures !p(s[j]) {
            if j > 0 { assert s[j] == s[1..][j - 1]; }
          }
          assert FirstPassing(s, p, i + 1);
        }
      }
      r
  }

  /** Finding in a filtered list is finding the first element that passes
      both tests. */
  lemma {:induction false} FindInFilter<T>(s: seq<T>, keep: T -> bool, p: T -> bool, i: int)
    requires 0 <= i < |s| && keep(s[i]) && p(s[i])
    requires forall j :: 0 <= j < i ==> !(keep(s[j]) && p(s[j]))
    ensures Find(Filter(s, keep), p) == Some(s[i])
    decreases |s|
  {
    if i > 0 {
      FindInFilter(s[1..], keep, p, i - 1);
    }
  }

  /** ... and nothing is found when no element passes both. */
  lemma {:induction false} FindInFilterNone<T>(s: seq<T>, keep: T -> bool, p: T -> bool)
    requires forall j :: 0 <= j < |s| ==> !(keep(s[j]) && p(s[j]))
    ensures Find(Filter(s, keep), p) == None
    decreases |s|
  {
    if s != [] {
      FindInFilterNone(s[1..], keep, p);
    }
  }

  /** `Array.prototype.some`. */
  function Any<T>(s: seq<T>, p: T -> bool): (b: bool)
    ensures b <==> exists i :: 0 <= i < |s| && p(s[i])
    decreases |s|
  {
    if s == [] then false
    else if p(s[0]) then true
    else
      var b := Any(s[1..], p);
      assert b <==> exists i :: 0 <= i < |s| && p(s[i]) by {
        if b {
          var i :| 0 <= i < |s[1..]| && p(s[1..][i]);
          assert p(s[i + 1]);
        } else {
          forall i | 0 <= i < |s| ensures !p(s[i]) {
            if i > 0 { assert s[i] == s[1..][i - 1]; }
          }
        }
      }
      b
  }

  /** Everything is dropped when no element passes. */
  lemma {:induction false} FilterKeepsNone<T>(s: seq<T>, keep: T -> bool)
    requires forall i :: 0 <= i < |s| ==> !keep(s[i])
    ensures Filter(s, keep) == []
    decreases |s|
  {
    if s != [] {
      FilterKeepsNone(s[1..], keep);
    }
  }

  /** `String.prototype.toLowerCase` on the ASCII letters. */
  function LowerChar(c: char): (l: char)
    ensures !('A' <= l <= 'Z')
    ensures 'a' <= c <= 'z' || 'A' <= c <= 'Z' <==> 'a' <= l <= 'z'
  {
    if 'A' <= c <= 'Z' then (c as int + 32) as char else c
  }

  function Lower(s: string): (r: string)
    ensures |r| == |s|
    ensures forall i :: 0 <= i < |s| ==> r[i] == LowerChar(s[i])
  {
    seq(|s|, i requires 0 <= i < |s| => LowerChar(s[i]))
  }

  lemma LowerIdempotent(s: string)
    ensures Lower(Lower(s)) == Lower(s)
  {
  }

  /** `String.prototype.includes`: `needle` occurs in `hay` at some position. */
  predicate Includes(hay: string, needle: string)
  {
    exists i | 0 <= i <= |hay| - |needle| :: OccursAt(hay, needle, i)
  }

  predicate OccursAt(hay: string, needle: string, i: int)
  {
    0 <= i <= |hay| - |needle| && hay[i..i + |needle|] == needle
  }

  /** Every string includes the empty string. */
  lemma IncludesEmpty(hay: string)
    ensures Includes(hay, "")
  {
    assert OccursAt(hay, "", 0);
  }
}
