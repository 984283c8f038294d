// vector/vector.c: a growable array.
module Vector {

  predicate PowerOfTwo(n: nat) {
    n == 1 || (n > 0 && n % 2 == 0 && PowerOfTwo(n / 2))
  }

  // get_new_capacity: the smallest power of two that is enough.
  method GetNewCapacity(target: nat) returns (newCapacity: nat)
    ensures PowerOfTwo(newCapacity) && target <= newCapacity && (newCapacity == 1 || newCapacity / 2 < target)
  {
    newCapacity := 1;
    while newCapacity < target
      invariant PowerOfTwo(newCapacity) && (newCapacity == 1 || newCapacity / 2 < target)
    {
      newCapacity := newCapacity * 2;
    }
  }

  // s with x put before place i, or at the end if that is beyond it; and s without place i.
  function Inserted<T>(s: seq<T>, i: nat, x: T): seq<T> {
    if i < |s| then s[..i] + [x] + s[i..] else s + [x]
  }

  function Erased<T>(s: seq<T>, i: nat): seq<T>
    requires i < |s|
  {
    s[..i] + s[i + 1..]
  }

  // What has been copied after i of the elements.
  ghost function InsertedFront<T>(s: seq<T>, p: nat, x: T, i: nat): seq<T>
    requires i <= |s|
  {
    if i <= p then s[..i] else Inserted(s[..i], p, x)
  }

  ghost function ErasedFront<T>(s: seq<T>, p: nat, i: nat): seq<T>
    requires i <= |s|
  {
    if i <= p then s[..i] else Erased(s[..i], p)
  }

  lemma InsertedStep<T>(s: seq<T>, p: nat, x: T, i: nat)
    requires p < |s| && i < |s|
    ensures |InsertedFront(s, p, x, i)| == if i <= p then i else i + 1
    ensures InsertedFront(s, p, x, i + 1) == InsertedFront(s, p, x, i) + if i == p then [x, s[i]] else [s[i]]
  {
    assert s[..i + 1] == s[..i] + [s[i]];
    if i > p {
      assert s[..i + 1][..p] == s[..i][..p] && s[..i + 1][p..] == s[..i][p..] + [s[i]];
    } else if i == p {
      assert s[..i + 1][p..] == [s[i]];
    }
  }

  lemma ErasedStep<T>(s: seq<T>, p: nat, i: nat)
    requires p < |s| && i < |s|
    ensures |ErasedFront(s, p, i)| == if i <= p then i else i - 1
    ensures ErasedFront(s, p, i + 1) == ErasedFront(s, p, i) + if i == p then [] else [s[i]]
  {
  }

  lemma Ends<T>(s: seq<T>, p: nat, x: T)
    requires p < |s|
    ensures InsertedFront(s, p, x, 0) == [] && InsertedFront(s, p, x, |s|) == Inserted(s, p, x)
    ensures ErasedFront(s, p, 0) == [] && ErasedFront(s, p, |s|) == Erased(s, p)
    ensures |Inserted(s, p, x)| == |s| + 1 && |Erased(s, p)| == |s| - 1
  {
    assert s[..|s|] == s;
  }

  // Elements are copied in, so a slot holds a value of its own.
  class Vector<T(0)> {
    var data: array<T>
    var size: nat
    var capacity: nat

    ghost predicate Valid()
      reads this
    {
      size <= capacity == data.Length && PowerOfTwo(capacity)
    }

    ghost function Contents(): seq<T>
      requires Valid()
      reads this, data
    {
      data[..size]
    }

    constructor ()
      ensures Valid() && fresh(data) && Contents() == []
    {
      data := new T[8];
      size := 0;
      capacity := 8;
    }

    method Reserve(n: nat)
      requires Valid()
      modifies this
      ensures Valid() && Contents() == old(Contents()) && n <= capacity
      ensures data == old(data) || fresh(data)
      ensures n <= old(capacity) ==> capacity == old(capacity) && data == old(data)
      ensures n > old(capacity) ==> capacity / 2 < n
    {
      if n <= capacity {
        return;
      }
      var newCapacity := GetNewCapacity(n);
      var newArray := new T[newCapacity];
      for i := 0 to size
        modifies newArray
        invariant newArray[..i] == data[..i]
      {
        newArray[i] := data[i];
      }
      capacity := newCapacity;
      data := newArray;
    }

    method Resize(n: nat, x: T)
      requires Valid()
      modifies this, data
      ensures Valid() && (data == old(data) || fresh(data))
      ensures n <= old(size) ==> Contents() == old(Contents())[..n] && capacity == old(capacity)
      ensures n > old(size) ==> Contents() == old(Contents()) + seq(n - old(size), _ => x)
    {
      if n == size {
        return;
      }
      if n < size {
        size := n;
      } else {
        Reserve(n);
        ghost var before := data[..size];
        var count := size;
        while count < n
          modifies data
          invariant size <= count <= n
          invariant data[..size] == before && forall k :: size <= k < count ==> data[k] == x
        {
          data[count] := x;
          count := count + 1;
        }
        size := n;
      }
    }

    // vector_get gives NULL for a position that is not there.
    method Get(position: nat) returns (there: bool, element: T)
      requires Valid()
      ensures there <==> position < |Contents()|
      ensures there ==> element == Contents()[position]
    {
      if position >= size {
        there := false;
        element := *;
      } else {
        there, element := true, data[position];
      }
    }

    method Set(position: nat, element: T)
      requires Valid() && position < |Contents()|
      modifies data
      ensures Valid() && Contents() == old(Contents())[position := element]
    {
      data[position] := element;
    }

    method PushBack(element: T)
      requires Valid()
      modifies this, data
      ensures Valid() && (data == old(data) || fresh(data)) && Contents() == old(Contents()) + [element]
      ensures old(size) < old(capacity) ==> capacity == old(capacity)
    {
      if size < capacity {
        data[size] := element;
        size := size + 1;
      } else {
        Reserve(size + 1);
        data[size] := element;
        size := size + 1;
      }
    }

    method PopBack()
      requires Valid() && Contents() != []
      modifies this
      ensures Valid() && data == old(data) && Contents() == old(Contents())[..|old(Contents())| - 1]
    {
      size := size - 1;
    }

    method Insert(position: nat, element: T)
      requires Valid()
      modifies this, data
      ensures Valid() && (data == old(data) || fresh(data))
      ensures Contents() == Inserted(old(Contents()), position, element)
    {
      if position >= size {
        PushBack(element);
      } else {
        hide Inserted, PowerOfTwo;
        var newCapacity := GetNewCapacity(size + 1);
        var newArray := CopyInserting(newCapacity, position, element);
        capacity := newCapacity;
        size := size + 1;
        data := newArray;
      }
    }

    // Lines 273-283
    method CopyInserting(newCapacity: nat, position: nat, element: T) returns (newArray: array<T>)
      requires Valid() && position < size < newCapacity
      ensures fresh(newArray) && newArray.Length == newCapacity
      ensures newArray[..size + 1] == Inserted(Contents(), position, element)
    {
      hide Inserted, InsertedFront, Erased, PowerOfTwo;
      newArray := new T[newCapacity];
      var at := 0;
      ghost var was := data[..size];
      Ends(was, position, element);
      for i := 0 to size
        modifies newArray
        invariant at == if i <= position then i else i + 1
        invariant newArray[..at] == InsertedFront(was, position, element, i)
      {
        InsertedStep(was, position, element, i);
        if i == position {
          newArray[at] := element;
          at := at + 1;
        }
        newArray[at] := data[i];
        at := at + 1;
        assert newArray[..at] == InsertedFront(was, position, element, i) + if i == position then [element, was[i]] else [was[i]];
      }
    }

    method Erase(position: nat)
      requires Valid() && position < |Contents()|
      modifies this
      ensures Valid() && fresh(data) && Contents() == Erased(old(Contents()), position)
    {
      hide Erased, ErasedFront, Inserted, PowerOfTwo;
      var newCapacity := GetNewCapacity(size);
      var newArray := new T[newCapacity];
      var at := 0;
      ghost var was := data[..size];
      Ends(was, position, was[position]);
      for i := 0 to size
        modifies newArray
        invariant at == if i <= position then i else i - 1
        invariant newArray[..at] == ErasedFront(was, position, i)
      {
        ErasedStep(was, position, i);
        if i != position {
          newArray[at] := data[i];
          at := at + 1;
        }
      }
      capacity := newCapacity;
      size := size - 1;
      data := newArray;
    }

    method Clear()
      requires Valid()
      modifies this
      ensures Valid() && data == old(data) && Contents() == []
    {
      size := 0;
    }
  }
}
