/** Small generic helpers shared by the VRPSPD model: optional values, Java
    object references, positional list edits (java.util.List.add/remove/set),
    sums over sequences and 32-bit wrap-around. */
module Common {

  datatype Option<+T> = None | Some(value: T)

  /** The argument of a Java `equals(Object)`: null, an object of the same
      class, or an object of some other class. */
  datatype Ref<+T> = Null | Same(value: T) | Foreign

  /** `List.remove(int i)`: the list without its i-th element. */
  function RemoveAt<T>(s: seq<T>, i: nat): (r: seq<T>)
    requires i < |s|
    ensures |r| == |s| - 1
    ensures forall k :: 0 <= k < i ==> r[k] == s[k]
    ensures forall k :: i <= k < |r| ==> r[k] == s[k + 1]
    ensures multiset(r) + multiset{s[i]} == multiset(s)
  {
    assert s == s[..i] + [s[i]] + s[i + 1..];
    s[..i] + s[i + 1..]
  }

  /** `List.add(int k, x)`: x placed at position k, later elements shifted. */
  function InsertAt<T>(s: seq<T>, k: nat, x: T): (r: seq<T>)
    requires k <= |s|
    ensures |r| == |s| + 1
    ensures r[k] == x
    ensures forall j :: 0 <= j < k ==> r[j] == s[j]
    ensures forall j :: k < j < |r| ==> r[j] == s[j - 1]
    ensures multiset(r) == multiset(s) + multiset{x}
  {
    assert s == s[..k] + s[k..];
    s[..k] + [x] + s[k..]
  }

  /** `Collections.swap(list, i, j)`. */
  function Swap<T>(s: seq<T>, i: nat, j: nat): (r: seq<T>)
    requires i < |s| && j < |s|
    ensures |r| == |s|
    ensures r[i] == s[j] && r[j] == s[i]
    ensures forall k :: 0 <= k < |s| && k != i && k != j ==> r[k] == s[k]
    ensures multiset(r) == multiset(s)
  {
    s[i := s[j]][j := s[i]]
  }

  function Reverse<T>(s: seq<T>): (r: seq<T>)
    ensures |r| == |s|
    ensures forall k :: 0 <= k < |s| ==> r[k] == s[|s| - 1 - k]
    ensures multiset(r) == multiset(s)
  {
    if |s| == 0 then []
    else
      assert s == [s[0]] + s[1..];
      Reverse(s[1..]) + [s[0]]
  }

  /** `List.indexOf`: the first position holding x, or -1. */
  function IndexOf<T(==)>(s: seq<T>, x: T): (r: int)
    ensures -1 <= r < |s|
    ensures r == -1 <==> x !in s
    ensures 0 <= r ==> s[r] == x && forall k :: 0 <= k < r ==> s[k] != x
  {
    if |s| == 0 then -1
    else if s[0] == x then 0
    else
      var k := IndexOf(s[1..], x);
      if k == -1 then -1 else k + 1
  }

  /** A non-empty sequence is its head followed by its tail. */
  lemma HeadTail<T>(s: seq<T>)
    requires |s| > 0
    ensures s == [s[0]] + s[1..] && multiset(s) == multiset{s[0]} + multiset(s[1..])
  {
  }

  /** Multiset addition cancels. */
  lemma MultisetCancel<T>(a: multiset<T>, b: multiset<T>, x: multiset<T>)
    requires a + x == b + x
    ensures a == b
  {
    forall e
      ensures a[e] == b[e]
    {
      assert (a + x)[e] == (b + x)[e];
    }
  }

  /** Sum of f over a sequence (Java `mapToDouble(...).sum()`). */
  function SumReal<T>(s: seq<T>, f: T -> real): real
  {
    if |s| == 0 then 0.0 else f(s[0]) + SumReal(s[1..], f)
  }

  function SumInt<T>(s: seq<T>, f: T -> int): int
  {
    if |s| == 0 then 0 else f(s[0]) + SumInt(s[1..], f)
  }

  lemma {:induction false} SumRealAppend<T>(s: seq<T>, x: T, f: T -> real)
    ensures SumReal(s + [x], f) == SumReal(s, f) + f(x)
  {
    if |s| > 0 {
      assert (s + [x])[1..] == s[1..] + [x];
      SumRealAppend(s[1..], x, f);
    }
  }

  lemma {:induction false} SumRealUpdate<T>(s: seq<T>, i: nat, x: T, f: T -> real)
    requires i < |s|
    ensures SumReal(s[i := x], f) == SumReal(s, f) - f(s[i]) + f(x)
  {
    if i > 0 {
      assert s[i := x][1..] == s[1..][i - 1 := x];
      SumRealUpdate(s[1..], i - 1, x, f);
    }
  }

  lemma {:induction false} SumRealRemove<T>(s: seq<T>, i: nat, f: T -> real)
    requires i < |s|
    ensures SumReal(RemoveAt(s, i), f) == SumReal(s, f) - f(s[i])
  {
    if i > 0 {
      assert RemoveAt(s, i)[1..] == RemoveAt(s[1..], i - 1);
      SumRealRemove(s[1..], i - 1, f);
    } else {
      assert RemoveAt(s, 0) == s[1..];
    }
  }

  /** Sums do not depend on the order of the summands. */
  lemma {:induction false} SumRealPermutation<T>(s: seq<T>, t: seq<T>, f: T -> real)
    requires multiset(s) == multiset(t)
    ensures SumReal(s, f) == SumReal(t, f)
  {
    if |s| > 0 {
      assert s[0] in multiset(t);
      var i :| 0 <= i < |t| && t[i] == s[0];
      assert s == [s[0]] + s[1..];
      calc {
        multiset(s[1..]);
        multiset(s) - multiset{s[0]};
        multiset(t) - multiset{t[i]};
        multiset(RemoveAt(t, i));
      }
      SumRealPermutation(s[1..], RemoveAt(t, i), f);
      SumRealRemove(t, i, f);
    } else {
      assert |t| == |multiset(t)| == 0;
    }
  }

  lemma {:induction false} SumIntRemove<T>(s: seq<T>, i: nat, f: T -> int)
    requires i < |s|
    ensures SumInt(RemoveAt(s, i), f) == SumInt(s, f) - f(s[i])
  {
    if i > 0 {
      assert RemoveAt(s, i)[1..] == RemoveAt(s[1..], i - 1);
      SumIntRemove(s[1..], i - 1, f);
    } else {
      assert RemoveAt(s, 0) == s[1..];
    }
  }

  lemma {:induction false} SumIntPermutation<T>(s: seq<T>, t: seq<T>, f: T -> int)
    requires multiset(s) == multiset(t)
    ensures SumInt(s, f) == SumInt(t, f)
  {
    if |s| > 0 {
      assert s[0] in multiset(t);
      var i :| 0 <= i < |t| && t[i] == s[0];
      assert s == [s[0]] + s[1..];
      calc {
        multiset(s[1..]);
        multiset(s) - multiset{s[0]};
        multiset(t) - multiset{t[i]};
        multiset(RemoveAt(t, i));
      }
      SumIntPermutation(s[1..], RemoveAt(t, i), f);
      SumIntRemove(t, i, f);
    } else {
      assert |t| == |multiset(t)| == 0;
    }
  }

  const TwoTo32: int := 0x1_0000_0000
  const TwoTo31: int := 0x8000_0000

  /** Java `int` arithmetic: the value wrapped into [-2^31, 2^31). */
  function Int32(x: int): (r: int)
    ensures -TwoTo31 <= r < TwoTo31
    ensures (r - x) % TwoTo32 == 0
  {
    (x + TwoTo31) % TwoTo32 - TwoTo31
  }

  /** A value already in `int` range is its own wrap. */
  lemma Int32Exact(x: int)
    requires -TwoTo31 <= x < TwoTo31
    ensures Int32(x) == x
  {
  }

  /** Wrapping after every addition equals wrapping once at the end. */
  lemma Int32Add(a: int, b: int)
    ensures Int32(Int32(a) + b) == Int32(a + b)
  {
    var k := (Int32(a) - a) / TwoTo32;
    assert Int32(a) == a + k * TwoTo32;
    assert Int32(a) + b + TwoTo31 == (a + b + TwoTo31) + k * TwoTo32;
  }

  /** Java's `(int)` cast of a double: truncation toward zero, saturating at
      the ends of the `int` range. */
  function DoubleToInt(x: real): (r: int)
    ensures -TwoTo31 <= r < TwoTo31
    ensures 0.0 <= x < (TwoTo31 - 1) as real ==> r as real <= x < (r + 1) as real
    ensures (-TwoTo31) as real < x < 0.0 ==> (r - 1) as real < x <= r as real
  {
    if x >= (TwoTo31 - 1) as real then TwoTo31 - 1
    else if x <= (-TwoTo31) as real then -TwoTo31
    else if x >= 0.0 then x.Floor
    else -((-x).Floor)
  }
}
