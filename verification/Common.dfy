/** Small vocabulary shared by the models: optional values and counting over sequences. */
module Common {

  datatype Option<+T> = None | Some(value: T)

  function Min(x: int, y: int): int {
    if x <= y then x else y
  }

  function Max(x: int, y: int): int {
    if x <= y then y else x
  }

  /** The number of elements of `s` that satisfy `p`. */
  function Count<T>(s: seq<T>, p: T -> bool): nat {
    if s == [] then 0 else Count(s[..|s| - 1], p) + if p(s[|s| - 1]) then 1 else 0
  }

  lemma CountAppend<T>(s: seq<T>, x: T, p: T -> bool)
    ensures Count(s + [x], p) == Count(s, p) + if p(x) then 1 else 0
  {
    assert (s + [x])[..|s|] == s;
  }

  /** The same count, by position: what a loop has counted before index `n`. */
  function CountBefore<T>(s: seq<T>, n: nat, p: T -> bool): nat
    requires n <= |s|
  {
    if n == 0 then 0 else CountBefore(s, n - 1, p) + if p(s[n - 1]) then 1 else 0
  }

  lemma {:induction false} CountBeforeIsCount<T>(s: seq<T>, n: nat, p: T -> bool)
    requires n <= |s|
    ensures CountBefore(s, n, p) == Count(s[..n], p)
    ensures n == |s| ==> CountBefore(s, n, p) == Count(s, p)
  {
    if n > 0 {
      CountBeforeIsCount(s, n - 1, p);
      assert s[..n][..n - 1] == s[..n - 1];
    }
    assert n == |s| ==> s[..n] == s;
  }

  lemma {:induction false} CountUpdate<T>(s: seq<T>, i: nat, x: T, p: T -> bool)
    requires i < |s|
    ensures Count(s[i := x], p) + (if p(s[i]) then 1 else 0) == Count(s, p) + if p(x) then 1 else 0
  {
    var n := |s| - 1;
    if i == n {
      assert s[i := x][..n] == s[..n];
    } else {
      assert s[i := x][..n] == s[..n][i := x];
      CountUpdate(s[..n], i, x, p);
    }
  }

  /** Counting around a position. */
  lemma {:induction false} CountAround<T>(s: seq<T>, i: nat, p: T -> bool)
    requires i < |s|
    ensures Count(s, p) == Count(s[..i], p) + (if p(s[i]) then 1 else 0) + Count(s[i + 1..], p)
  {
    var n := |s| - 1;
    if i < n {
      CountAround(s[..n], i, p);
      assert s[..n][..i] == s[..i] && s[..n][i + 1..] == s[i + 1..][..n - i - 1];
    }
  }

  lemma {:induction false} CountConcat<T>(s: seq<T>, t: seq<T>, p: T -> bool)
    ensures Count(s + t, p) == Count(s, p) + Count(t, p)
  {
    if t == [] {
      assert s + t == s;
    } else {
      var n := |t| - 1;
      CountConcat(s, t[..n], p);
      assert (s + t)[..|s + t| - 1] == s + t[..n];
    }
  }

  lemma {:induction false} CountMonotone<T>(s: seq<T>, p: T -> bool, q: T -> bool)
    requires forall i :: 0 <= i < |s| && p(s[i]) ==> q(s[i])
    ensures Count(s, p) <= Count(s, q)
  {
    if s != [] {
      CountMonotone(s[..|s| - 1], p, q);
    }
  }

  lemma {:induction false} CountNone<T>(s: seq<T>, p: T -> bool)
    requires forall i :: 0 <= i < |s| ==> !p(s[i])
    ensures Count(s, p) == 0
  {
    if s != [] {
      CountNone(s[..|s| - 1], p);
    }
  }

  lemma {:induction false} CountAll<T>(s: seq<T>, p: T -> bool)
    ensures Count(s, p) <= |s|
    ensures (forall i :: 0 <= i < |s| ==> p(s[i])) ==> Count(s, p) == |s|
  {
    if s != [] {
      CountAll(s[..|s| - 1], p);
    }
  }

  /** No element occurs at two positions. */
  ghost predicate Distinct<T>(s: seq<T>) {
    forall i, j :: 0 <= i < j < |s| ==> s[i] != s[j]
  }
}
