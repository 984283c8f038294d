// teaching_threads/par_reduce.c: a list reduced in chunks, one thread for each.
module ParReduce {

  type Reducer = (int, int) -> int

  // The sequential reduction, from the left.
  function Fold(f: Reducer, base: int, list: seq<int>): int {
    if list == [] then base else f(Fold(f, base, list[..|list| - 1]), list[|list| - 1])
  }

  ghost predicate Associative(f: Reducer) {
    forall x, y, z :: f(f(x, y), z) == f(x, f(y, z))
  }

  ghost predicate RightIdentity(f: Reducer, base: int) {
    forall x :: f(x, base) == x
  }

  lemma {:induction false} FoldConcat(f: Reducer, base: int, a: seq<int>, b: seq<int>)
    ensures Fold(f, base, a + b) == Fold(f, Fold(f, base, a), b)
    decreases |b|
  {
    if b == [] {
      assert a + b == a;
    } else {
      FoldConcat(f, base, a, b[..|b| - 1]);
      assert (a + b)[..|a + b| - 1] == a + b[..|b| - 1];
    }
  }

  // Reducing a chunk apart, from the base case, and then taking its result in changes nothing.
  lemma {:induction false} FoldApart(f: Reducer, base: int, x: int, chunk: seq<int>)
    requires Associative(f) && RightIdentity(f, base)
    ensures f(x, Fold(f, base, chunk)) == Fold(f, x, chunk)
    decreases |chunk|
  {
    if chunk != [] {
      FoldApart(f, base, x, chunk[..|chunk| - 1]);
      var y, z := Fold(f, base, chunk[..|chunk| - 1]), chunk[|chunk| - 1];
      assert f(f(x, y), z) == f(x, f(y, z));
    }
  }

  // ----- The chunks -----

  function Sum(s: seq<nat>): nat {
    if s == [] then 0 else Sum(s[..|s| - 1]) + s[|s| - 1]
  }

  // The lengths add up to that of the list, and differ by at most one.
  ghost predicate Balanced(lens: seq<nat>, n: nat) {
    Sum(lens) == n && forall i, j :: 0 <= i < |lens| && 0 <= j < |lens| ==> lens[i] <= lens[j] + 1
  }

  // Where chunk i starts.
  function Start(lens: seq<nat>, i: nat): nat
    requires i <= |lens|
  {
    Sum(lens[..i])
  }

  lemma StartStep(lens: seq<nat>, i: nat)
    requires i < |lens|
    ensures Start(lens, i + 1) == Start(lens, i) + lens[i]
  {
    assert lens[..i + 1][..i] == lens[..i];
  }

  lemma {:induction false} StartGrows(lens: seq<nat>, i: nat, j: nat)
    requires i <= j <= |lens|
    ensures Start(lens, i) <= Start(lens, j)
    decreases j
  {
    if i < j {
      StartGrows(lens, i, j - 1);
      StartStep(lens, j - 1);
    }
  }

  // What thread i is to compute.
  ghost predicate PartialResult(f: Reducer, base: int, list: seq<int>, lens: seq<nat>, i: nat, r: int) {
    && i < |lens| && Start(lens, i) <= Start(lens, i + 1) <= |list|
    && r == Fold(f, base, list[Start(lens, i)..Start(lens, i + 1)])
  }

  // Taking in the result of chunk i turns the reduction of what is before it into that of what
  // ends with it.
  lemma TakeIn(f: Reducer, base: int, list: seq<int>, lens: seq<nat>, i: nat, r: int)
    requires Associative(f) && RightIdentity(f, base) && PartialResult(f, base, list, lens, i, r)
    ensures f(Fold(f, base, list[..Start(lens, i)]), r) == Fold(f, base, list[..Start(lens, i + 1)])
  {
    hide Associative, RightIdentity, Start;
    var chunk := list[Start(lens, i)..Start(lens, i + 1)];
    FoldApart(f, base, Fold(f, base, list[..Start(lens, i)]), chunk);
    FoldConcat(f, base, list[..Start(lens, i)], chunk);
    assert list[..Start(lens, i + 1)] == list[..Start(lens, i)] + chunk;
  }

  // The first `more` chunks have one element more.
  lemma {:induction false} LengthsSum(lens: seq<nat>, each: nat, more: nat)
    requires forall i :: 0 <= i < |lens| ==> lens[i] == if i < more then each + 1 else each
    ensures Sum(lens) == |lens| * each + if more < |lens| then more else |lens|
    decreases |lens|
  {
    if lens != [] {
      LengthsSum(lens[..|lens| - 1], each, more);
    }
  }

  lemma LengthsBalanced(lens: seq<nat>, n: nat)
    requires |lens| > 0
    requires forall i :: 0 <= i < |lens| ==> lens[i] == if i < n % |lens| then n / |lens| + 1 else n / |lens|
    ensures Balanced(lens, n)
  {
    LengthsSum(lens, n / |lens|, n % |lens|);
    hide Sum;
    assert n == |lens| * (n / |lens|) + n % |lens|;
  }

  // Lines 44-50
  method ThreadLengths(list_len: nat, num_threads: nat) returns (thread_len: array<nat>)
    requires num_threads > 0
    ensures fresh(thread_len) && thread_len.Length == num_threads && Balanced(thread_len[..], list_len)
  {
    thread_len := new nat[num_threads];
    var i := 0;
    while i < num_threads
      invariant 0 <= i <= num_threads
      invariant forall k :: 0 <= k < i ==> thread_len[k] == list_len / num_threads
    {
      thread_len[i] := list_len / num_threads;
      i := i + 1;
    }
    i := 0;
    while i < list_len % num_threads
      invariant 0 <= i <= list_len % num_threads
      invariant forall k :: 0 <= k < num_threads ==>
        thread_len[k] == if k < i then list_len / num_threads + 1 else list_len / num_threads
    {
      thread_len[i] := thread_len[i] + 1;
      i := i + 1;
    }
    LengthsBalanced(thread_len[..], list_len);
  }

  // startR: what one thread does with its part of the list.
  method StartR(list: array<int>, from: nat, length: nat, f: Reducer, base: int) returns (result: int)
    requires from + length <= list.Length
    ensures result == Fold(f, base, list[from..from + length])
  {
    result := base;
    var i := 0;
    assert list[from..from] == [];
    while i < length
      invariant 0 <= i <= length && result == Fold(f, base, list[from..from + i])
    {
      assert list[from..from + i + 1][..i] == list[from..from + i];
      result := f(result, list[from + i]);
      i := i + 1;
    }
  }

  // par_reduce gives each thread its chunk, and reduces their results.
  method Reduce(list: array<int>, f: Reducer, base: int, num_threads: nat) returns (r: int)
    requires num_threads > 0
    ensures list.Length < num_threads ==> r == Fold(f, base, list[..])
    ensures Associative(f) && RightIdentity(f, base) ==> r == Fold(f, base, list[..])
  {
    hide Associative, RightIdentity;
    if list.Length < num_threads {
      r := base;
      for i := 0 to list.Length
        invariant r == Fold(f, base, list[..i])
      {
        assert list[..i + 1][..i] == list[..i];
        r := f(r, list[i]);
      }
      assert list[..list.Length] == list[..];
      return;
    }
    var thread_len := ThreadLengths(list.Length, num_threads);
    var result := RunThreads(list, thread_len, f, base);
    r := Combine(list[..], thread_len[..], result, f, base);
  }

  // Lines 55-70: every thread works on its own, and is joined.
  method RunThreads(list: array<int>, thread_len: array<nat>, f: Reducer, base: int) returns (result: array<int>)
    requires Sum(thread_len[..]) == list.Length
    ensures fresh(result) && result.Length == thread_len.Length
    ensures forall k :: 0 <= k < result.Length ==> PartialResult(f, base, list[..], thread_len[..], k, result[k])
  {
    hide Sum, Start, Fold;
    ghost var lens := thread_len[..];
    result := new int[thread_len.Length];
    StartEnds(lens);
    var count := 0;
    for i := 0 to thread_len.Length
      invariant count == Start(lens, i) && thread_len[..] == lens
      invariant forall k :: 0 <= k < i ==> PartialResult(f, base, list[..], lens, k, result[k])
    {
      StartStep(lens, i);
      StartGrows(lens, i + 1, |lens|);
      result[i] := StartR(list, count, thread_len[i], f, base);
      assert list[count..count + thread_len[i]] == list[..][Start(lens, i)..Start(lens, i + 1)];
      count := count + thread_len[i];
    }
  }

  lemma StartEnds(lens: seq<nat>)
    ensures Start(lens, 0) == 0 && Start(lens, |lens|) == Sum(lens)
  {
    assert lens[..|lens|] == lens;
  }

  // Lines 71-75
  method Combine(ghost list: seq<int>, ghost lens: seq<nat>, result: array<int>, f: Reducer, base: int) returns (r: int)
    requires result.Length == |lens| && Sum(lens) == |list|
    requires forall k :: 0 <= k < result.Length ==> PartialResult(f, base, list, lens, k, result[k])
    ensures Associative(f) && RightIdentity(f, base) ==> r == Fold(f, base, list)
  {
    hide Associative, RightIdentity, Start, Sum;
    StartEnds(lens);
    r := base;
    assert list[..0] == [];
    for i := 0 to result.Length
      invariant Start(lens, i) <= |list|
      invariant Associative(f) && RightIdentity(f, base) ==> r == Fold(f, base, list[..Start(lens, i)])
    {
      assert PartialResult(f, base, list, lens, i, result[i]);
      if Associative(f) && RightIdentity(f, base) {
        TakeIn(f, base, list, lens, i, result[i]);
      }
      r := f(r, result[i]);
    }
    assert list[..|list|] == list;
  }
}
