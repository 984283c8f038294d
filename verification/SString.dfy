// vector/sstring.c: strings on top of the growable array.
module SString {
  import opened Vector

  // ----- Splitting and joining -----

  function Join(parts: seq<string>, delimiter: char): string
    requires parts != []
  {
    if |parts| == 1 then parts[0]
    else Join(parts[..|parts| - 1], delimiter) + [delimiter] + parts[|parts| - 1]
  }

  ghost predicate Pieces(parts: seq<string>, delimiter: char) {
    parts != [] && forall i :: 0 <= i < |parts| ==> delimiter !in parts[i]
  }

  // What follows the last delimiter is determined.
  lemma LastPiece(a: string, p: string, b: string, q: string, d: char)
    requires a + [d] + p == b + [d] + q && d !in p && d !in q
    ensures a == b && p == q
  {
    var s := a + [d] + p;
    assert s[|a|] == d && s[|b|] == d;
    forall k | |a| < k < |s| ensures s[k] != d {
      assert s[k] == p[k - |a| - 1];
    }
    forall k | |b| < k < |s| ensures s[k] != d {
      assert s[k] == q[k - |b| - 1];
    }
    assert a == s[..|a|] && b == s[..|b|];
    assert p == s[|a| + 1..] && q == s[|b| + 1..];
  }

  // A string has one list of pieces only.
  lemma {:induction false} PiecesUnique(p: seq<string>, q: seq<string>, d: char)
    requires Pieces(p, d) && Pieces(q, d) && Join(p, d) == Join(q, d)
    ensures p == q
    decreases |p|
  {
    if |p| > 1 {
      var m, n := |p| - 1, |q| - 1;
      LastPiece(Join(p[..m], d), p[m], Join(q[..n], d), q[n], d);
      PiecesUnique(p[..m], q[..n], d);
      assert p == p[..m] + [p[m]] && q == q[..n] + [q[n]];
    }
  }

  // ----- Substituting -----

  predicate Occurs(s: string, target: string, i: nat) {
    i + |target| <= |s| && s[i..i + |target|] == target
  }

  // The string ends in the middle of the target.
  predicate CutOff(s: string, target: string, i: nat) {
    i < |s| < i + |target| && s[i..] == target[..|s| - i]
  }

  // The first place from offset on where the target occurs.
  ghost predicate FirstAt(s: string, target: string, offset: nat, i: nat) {
    offset <= i && Occurs(s, target, i) && forall k :: offset <= k < i ==> !Occurs(s, target, k)
  }

  ghost predicate Absent(s: string, target: string, offset: nat) {
    forall k :: offset <= k ==> !Occurs(s, target, k)
  }

  ghost predicate NeverCutOff(s: string, target: string, offset: nat) {
    forall k :: offset <= k ==> !CutOff(s, target, k)
  }

  // A crash is a NULL pointer from vector_get followed.
  datatype Outcome = Replaced | NotFound | Crash

  class SString {
    var vec: Vector<char>

    // Strings come from C strings, and hold no '\0'.
    ghost predicate Valid()
      reads this, vec, vec.data
    {
      vec.Valid() && '\0' !in vec.Contents()
    }

    ghost function Text(): string
      requires Valid()
      reads this, vec, vec.data
    {
      vec.Contents()
    }

    // cstr_to_sstring, on memory that holds a '\0'
    constructor (input: seq<char>, ghost end: nat)
      requires end < |input| && input[end] == '\0' && '\0' !in input[..end]
      ensures Valid() && fresh(vec) && fresh(vec.data) && Text() == input[..end]
    {
      vec := new Vector<char>();
      new;
      forall k | 0 <= k < end ensures input[k] != '\0' {
        assert input[..end][k] == input[k];
      }
      var i := 0;
      while input[i] != '\0'
        invariant 0 <= i <= end && vec.Valid() && vec.Contents() == input[..i] && fresh(vec) && fresh(vec.data)
        decreases end - i
      {
        assert input[..i + 1] == input[..i] + [input[i]];
        vec.PushBack(input[i]);
        i := i + 1;
      }
    }

    // sstring_slice
    method Slice(start: nat, end: nat) returns (str: string)
      requires Valid() && start <= end <= |Text()|
      ensures str == Text()[start..end]
    {
      str := [];
      for i := start to end
        invariant str == Text()[start..i]
      {
        var there, c := vec.Get(i);
        assert Text()[start..i + 1] == Text()[start..i] + [Text()[i]];
        str := str + [c];
      }
    }

    // sstring_to_cstr
    method ToCstr() returns (str: string)
      requires Valid()
      ensures str == Text() + ['\0']
    {
      str := [];
      for i := 0 to vec.size
        invariant str == Text()[..i]
      {
        var there, c := vec.Get(i);
        assert Text()[..i + 1] == Text()[..i] + [Text()[i]];
        str := str + [c];
      }
      str := str + ['\0'];
    }

    // sstring_append of another string
    method Append(addition: SString) returns (length: nat)
      requires Valid() && addition.Valid() && addition.vec != vec && addition.vec.data != vec.data
      modifies vec, vec.data
      ensures Valid() && vec == old(vec) && (vec.data == old(vec.data) || fresh(vec.data))
      ensures Text() == old(Text()) + old(addition.Text()) && length == |Text()|
    {
      ghost var more := addition.Text();
      vec.Reserve(vec.size + addition.vec.size);
      for i := 0 to addition.vec.size
        invariant vec.Valid() && (vec.data == old(vec.data) || fresh(vec.data)) && addition.vec.data != vec.data
        invariant addition.vec.Valid() && addition.vec.Contents() == more
        invariant vec.Contents() == old(Text()) + more[..i]
      {
        var there, c := addition.vec.Get(i);
        assert more[..i + 1] == more[..i] + [more[i]];
        vec.PushBack(c);
      }
      assert more[..|more|] == more;
      length := vec.size;
    }

    // sstring_split: the pieces, joined again, are the string, and hold no delimiter.
    method Split(delimiter: char) returns (strvec: Vector<string>)
      requires Valid()
      ensures strvec.Valid() && fresh(strvec) && fresh(strvec.data)
      ensures Pieces(strvec.Contents(), delimiter) && Join(strvec.Contents(), delimiter) == Text()
    {
      hide Join;
      strvec := new Vector<string>();
      var start := 0;
      var i := 0;
      while i < vec.size
        invariant 0 <= start <= i <= vec.size && strvec.Valid() && fresh(strvec.data)
        invariant forall k :: start <= k < i ==> Text()[k] != delimiter
        invariant SplitUpTo(strvec.Contents(), delimiter, Text(), start)
      {
        var there, c := vec.Get(i);
        if c == delimiter {
          var str := Slice(start, i);
          ghost var before := strvec.Contents();
          strvec.PushBack(str);
          SplitMore(before, delimiter, Text(), start, i);
          start := i + 1;
        }
        i := i + 1;
      }
      var str := Slice(start, vec.size);
      SplitLast(strvec.Contents(), delimiter, Text(), start);
      strvec.PushBack(str);
    }

    // Lines 74-90: where the target is found. NULL at the end of the string is not expected.
    method Find(offset: nat, target: string) returns (o: Outcome, start: nat)
      requires Valid() && '\0' !in target
      ensures o == Replaced ==> target != "" && FirstAt(Text(), target, offset, start)
      ensures o == NotFound ==> target != "" ==> Absent(Text(), target, offset) && NeverCutOff(Text(), target, offset)
      ensures o == Crash ==> target != "" && Absent(Text(), target, offset) && !NeverCutOff(Text(), target, offset)
      ensures target == "" ==> o == NotFound
    {
      start := vec.size;
      var found := false;
      ghost var s := Text();
      var i := offset;
      while i < vec.size
        invariant offset <= i && !found && (offset <= vec.size ==> i <= vec.size)
        invariant target != "" ==> forall k :: offset <= k < i ==> !Occurs(s, target, k) && !CutOff(s, target, k)
      {
        var there, c := vec.Get(i);
        assert c != '\0' by { assert s[i] in s; }
        if c == if target == "" then '\0' else target[0] {
          start := i;
          var outcome := Matches(i, target);
          if outcome == Crash {
            return Crash, start;
          }
          found := outcome == Replaced;
          if found {
            return Replaced, start;
          }
        }
        i := i + 1;
      }
      if target != "" {
        assert forall k :: i <= k ==> !Occurs(s, target, k) && !CutOff(s, target, k);
      }
      return NotFound, start;
    }

    // Lines 80-85: whether the target occurs at i.
    method Matches(i: nat, target: string) returns (o: Outcome)
      requires Valid() && target != "" && i < |Text()|
      ensures o == Replaced <==> Occurs(Text(), target, i)
      ensures o == Crash <==> CutOff(Text(), target, i)
    {
      ghost var s := Text();
      for j := 0 to |target|
        invariant i + j <= |s| && s[i..i + j] == target[..j]
      {
        var there, c := vec.Get(i + j);
        if !there {
          assert s[i..] == target[..j];
          return Crash;
        }
        if c != target[j] {
          return NotFound;
        }
        assert s[i..i + j + 1] == s[i..i + j] + [s[i + j]] && target[..j + 1] == target[..j] + [target[j]];
      }
      assert target[..|target|] == target;
      return Replaced;
    }

    // sstring_substitute: replaces the first occurrence from offset on, exactly if there is one.
    // If there is none it fails properly unless the string ends in the middle of the target.
    method Substitute(offset: nat, target: string, substitution: string) returns (o: Outcome)
      requires Valid() && '\0' !in target && '\0' !in substitution
      modifies vec, vec.data
      ensures Valid() && vec == old(vec)
      ensures o == Replaced <==> target != "" && !Absent(old(Text()), target, offset)
      ensures o == Replaced ==> exists i: nat ::
        FirstAt(old(Text()), target, offset, i) && Text() == WithSubstitution(old(Text()), target, i, substitution)
      ensures o == Crash <==>
        target != "" && Absent(old(Text()), target, offset) && !NeverCutOff(old(Text()), target, offset)
      ensures o != Replaced ==> Text() == old(Text())
    {
      var start;
      o, start := Find(offset, target);
      if o == Replaced {
        Replace(start, target, substitution);
      }
    }

    // Lines 94-99
    method Replace(start: nat, target: string, substitution: string)
      requires Valid() && Occurs(Text(), target, start) && '\0' !in substitution
      modifies vec, vec.data
      ensures Valid() && vec == old(vec)
      ensures Text() == WithSubstitution(old(Text()), target, start, substitution)
    {
      ghost var front, back := Text()[..start], Text()[start + |target|..];
      EraseSome(start, |target|);
      InsertAll(start, substitution, front, back);
    }

    method EraseSome(start: nat, n: nat)
      requires vec.Valid() && start + n <= |vec.Contents()|
      modifies vec, vec.data
      ensures vec.Valid() && vec == old(vec) && (vec.data == old(vec.data) || fresh(vec.data))
      ensures vec.Contents() == old(vec.Contents())[..start] + old(vec.Contents())[start + n..]
    {
      hide Erased, PowerOfTwo;
      ghost var s := vec.Contents();
      assert s == s[..start] + s[start + 0..];
      for i := 0 to n
        invariant vec.Valid() && (vec.data == old(vec.data) || fresh(vec.data))
        invariant vec.Contents() == s[..start] + s[start + i..]
      {
        vec.Erase(start);
        EraseOne(s, start, start + i);
      }
    }

    method InsertAll(start: nat, substitution: string, ghost front: string, ghost back: string)
      requires vec.Valid() && vec.Contents() == front + back && |front| == start
      modifies vec, vec.data
      ensures vec.Valid() && vec == old(vec)
      ensures vec.Contents() == front + substitution + back
    {
      hide Inserted, PowerOfTwo;
      assert front + substitution[|substitution|..] + back == front + back;
      for i := 0 to |substitution|
        invariant vec.Valid() && (vec.data == old(vec.data) || fresh(vec.data))
        invariant vec.Contents() == front + substitution[|substitution| - i..] + back
      {
        vec.Insert(start, substitution[|substitution| - i - 1]);
        InsertOne(front, substitution, back, |substitution| - i - 1);
      }
      assert substitution[0..] == substitution;
    }
  }

  function WithSubstitution(s: string, target: string, i: nat, substitution: string): string
    requires Occurs(s, target, i)
  {
    s[..i] + substitution + s[i + |target|..]
  }

  lemma EraseOne(s: string, start: nat, at: nat)
    requires start <= at < |s|
    ensures Erased(s[..start] + s[at..], start) == s[..start] + s[at + 1..]
  {
  }

  lemma InsertOne(front: string, sub: string, back: string, k: nat)
    requires k < |sub|
    ensures Inserted(front + sub[k + 1..] + back, |front|, sub[k]) == front + sub[k..] + back
  {
  }

  // The pieces found so far, with the delimiter behind each, are the string up to start.
  ghost predicate SplitUpTo(parts: seq<string>, delimiter: char, s: string, start: nat) {
    && start <= |s| && (forall i :: 0 <= i < |parts| ==> delimiter !in parts[i])
    && (parts == [] ==> start == 0)
    && (parts != [] ==> s[..start] == Join(parts, delimiter) + [delimiter])
  }

  lemma SplitMore(parts: seq<string>, d: char, s: string, start: nat, i: nat)
    requires SplitUpTo(parts, d, s, start) && start <= i < |s| && s[i] == d
    requires forall k :: start <= k < i ==> s[k] != d
    ensures SplitUpTo(parts + [s[start..i]], d, s, i + 1)
  {
    assert s[..i + 1] == s[..i] + [d];
  }

  lemma SplitLast(parts: seq<string>, d: char, s: string, start: nat)
    requires SplitUpTo(parts, d, s, start) && forall k :: start <= k < |s| ==> s[k] != d
    ensures Pieces(parts + [s[start..]], d) && Join(parts + [s[start..]], d) == s
    ensures s[start..] == s[start..|s|]
  {
  }
}
