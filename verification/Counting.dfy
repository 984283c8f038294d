// Counting the entries of a sequence that are equal to a given value, and adding up a sequence.
module Counting {

  function Count<K(==)>(s: seq<K>, x: K): (k: nat)
    ensures k <= |s|
  {
    if s == [] then 0 else (if s[0] == x then 1 else 0) + Count(s[1..], x)
  }

  lemma {:induction false} CountConcat<K>(s: seq<K>, t: seq<K>, x: K)
    ensures Count(s + t, x) == Count(s, x) + Count(t, x)
    decreases |s|
  {
    if s == [] {
      assert s + t == t;
    } else {
      CountConcat(s[1..], t, x);
      assert (s + t)[1..] == s[1..] + t;
    }
  }

  lemma {:induction false} CountUpdate<K>(s: seq<K>, i: nat, y: K, x: K)
    requires i < |s|
    ensures Count(s[i := y], x) == Count(s, x) - (if s[i] == x then 1 else 0) + (if y == x then 1 else 0)
    decreases |s|
  {
    if i > 0 {
      CountUpdate(s[1..], i - 1, y, x);
      assert s[i := y][1..] == s[1..][i - 1 := y];
    } else {
      assert s[i := y][1..] == s[1..];
    }
  }

  lemma {:induction false} CountEnds<K>(s: seq<K>, x: K)
    ensures Count(s, x) == 0 <==> forall i :: 0 <= i < |s| ==> s[i] != x
    ensures Count(s, x) == |s| <==> forall i :: 0 <= i < |s| ==> s[i] == x
    decreases |s|
  {
    if s != [] {
      CountEnds(s[1..], x);
      assert forall i :: 0 < i < |s| ==> s[i] == s[1..][i - 1];
      assert forall i :: 0 <= i < |s[1..]| ==> s[1..][i] == s[i + 1];
    }
  }

  lemma CountAllButOne<K>(s: seq<K>, i: nat, x: K)
    requires i < |s| && s[i] != x && forall j :: 0 <= j < |s| && j != i ==> s[j] == x
    ensures Count(s, x) == |s| - 1
  {
    CountEnds(s[i := x], x);
    CountUpdate(s, i, x, x);
  }

  // Two values that fill a sequence leave no room for a third.
  lemma {:induction false} CountTwo<K>(s: seq<K>, x: K, y: K)
    requires x != y
    ensures Count(s, x) + Count(s, y) <= |s|
    ensures Count(s, x) + Count(s, y) == |s| <==> forall i :: 0 <= i < |s| ==> s[i] == x || s[i] == y
    decreases |s|
  {
    if s != [] {
      CountTwo(s[1..], x, y);
      assert forall i :: 0 < i < |s| ==> s[i] == s[1..][i - 1];
      assert forall i :: 0 <= i < |s[1..]| ==> s[1..][i] == s[i + 1];
    }
  }

  function Sum(s: seq<nat>): nat {
    if s == [] then 0 else s[0] + Sum(s[1..])
  }

  lemma {:induction false} SumUpdate(s: seq<nat>, i: nat, y: nat)
    requires i < |s|
    ensures Sum(s[i := y]) == Sum(s) - s[i] + y
    decreases |s|
  {
    if i > 0 {
      SumUpdate(s[1..], i - 1, y);
      assert s[i := y][1..] == s[1..][i - 1 := y];
    } else {
      assert s[i := y][1..] == s[1..];
    }
  }

  lemma {:induction false} SumZero(s: seq<nat>)
    requires forall i :: 0 <= i < |s| ==> s[i] == 0
    ensures Sum(s) == 0
  {
    if s != [] {
      SumZero(s[1..]);
    }
  }

  // Where no entry is larger and one is smaller, so is the sum.
  lemma {:induction false} SumLess(a: seq<nat>, b: seq<nat>, i: nat)
    requires |a| == |b| && i < |a| && a[i] < b[i] && forall k :: 0 <= k < |a| ==> a[k] <= b[k]
    ensures Sum(a) < Sum(b)
    decreases |a|
  {
    if i > 0 {
      SumLess(a[1..], b[1..], i - 1);
    } else {
      SumAtMost(a[1..], b[1..]);
    }
  }

  lemma {:induction false} SumAtMost(a: seq<nat>, b: seq<nat>)
    requires |a| == |b| && forall k :: 0 <= k < |a| ==> a[k] <= b[k]
    ensures Sum(a) <= Sum(b)
    decreases |a|
  {
    if a != [] {
      SumAtMost(a[1..], b[1..]);
    }
  }
}
