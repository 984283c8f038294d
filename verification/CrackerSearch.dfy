// The search of password_cracker/cracker1.c and the digit loop of password_cracker/cracker2.c:
// lower-case words in lexicographic order, numbered from 0.
module CrackerSearch {

  // d times p, as repeated addition.
  function Times(d: nat, p: nat): nat {
    if d == 0 then 0 else Times(d - 1, p) + p
  }

  function Pow26(n: nat): (p: nat) {
    if n == 0 then 1 else Times(26, Pow26(n - 1))
  }

  predicate IsLower(c: char) { 'a' <= c <= 'z' }

  predicate Lower(s: seq<char>) {
    forall i :: 0 <= i < |s| ==> IsLower(s[i])
  }

  function Digit(c: char): nat
    requires IsLower(c)
  {
    c as int - 'a' as int
  }

  // The number of a word among those of its length, in base 26.
  function Rank(s: seq<char>): nat
    requires Lower(s)
  {
    if s == [] then 0 else Times(Digit(s[0]), Pow26(|s| - 1)) + Rank(s[1..])
  }

  // The word comes before the other in the dictionary.
  predicate Before(s: seq<char>, t: seq<char>)
    requires |s| == |t|
    decreases |s|
  {
    s != [] && (s[0] < t[0] || (s[0] == t[0] && Before(s[1..], t[1..])))
  }

  lemma {:induction false} TimesGrows(d: nat, e: nat, p: nat)
    requires d <= e
    ensures Times(d, p) <= Times(e, p) && (d < e ==> Times(d, p) + p <= Times(e, p))
    decreases e
  {
    if d < e {
      TimesGrows(d, e - 1, p);
    }
  }

  lemma {:induction false} TimesIsProduct(d: nat, p: nat)
    ensures Times(d, p) == d * p
  {
    if d > 0 {
      TimesIsProduct(d - 1, p);
    }
  }

  // There are as many words as ranks.
  lemma {:induction false} RankBounds(s: seq<char>)
    requires Lower(s)
    ensures Rank(s) < Pow26(|s|)
    decreases |s|
  {
    hide Times;
    if s != [] {
      RankBounds(s[1..]);
      TimesGrows(Digit(s[0]), 26, Pow26(|s| - 1));
    }
  }

  // The leading digit decides.
  lemma Leading(s: seq<char>, t: seq<char>)
    requires Lower(s) && Lower(t) && |s| == |t| > 0 && s[0] < t[0]
    ensures Rank(s) < Rank(t)
  {
    hide Times, Pow26;
    RankBounds(s[1..]);
    TimesGrows(Digit(s[0]), Digit(t[0]), Pow26(|s| - 1));
  }

  // Ranks are in dictionary order, and no two words have the same.
  lemma {:induction false} RankOrder(s: seq<char>, t: seq<char>)
    requires Lower(s) && Lower(t) && |s| == |t|
    ensures Rank(s) < Rank(t) <==> Before(s, t)
    ensures Rank(s) == Rank(t) <==> s == t
    decreases |s|
  {
    hide Times, Pow26;
    if s != [] {
      assert s == [s[0]] + s[1..] && t == [t[0]] + t[1..];
      if s[0] < t[0] {
        Leading(s, t);
      } else if t[0] < s[0] {
        Leading(t, s);
      } else {
        RankOrder(s[1..], t[1..]);
      }
    }
  }

  // ----- Searching -----

  // No word of k letters with a rank below n, put behind the prefix, has the hash.
  ghost predicate NoneBelow(crypt: seq<char> -> string, hash: string, prefix: seq<char>, k: nat, n: nat) {
    forall s :: |s| == k && Lower(s) && Rank(s) < n ==> crypt(prefix + s) != hash
  }

  class Searcher {
    var numhash: nat

    // test: 0 exactly if some word in place of pwd[idx..] gives the hash; then pwd holds the first
    // such word, and every word up to it was hashed once. Otherwise every word was.
    method Test(pwd: array<char>, hash: string, idx: nat, len: nat, crypt: seq<char> -> string) returns (find: int)
      requires idx <= len == pwd.Length
      modifies pwd, `numhash
      ensures pwd[..idx] == old(pwd[..idx]) && (find == 0 || find == 1)
      ensures find == 0 ==>
        && Lower(pwd[idx..]) && crypt(pwd[..idx] + pwd[idx..]) == hash
        && NoneBelow(crypt, hash, pwd[..idx], len - idx, Rank(pwd[idx..]))
        && numhash == old(numhash) + Rank(pwd[idx..]) + 1
      ensures find == 1 ==>
        && NoneBelow(crypt, hash, pwd[..idx], len - idx, Pow26(len - idx))
        && numhash == old(numhash) + Pow26(len - idx)
      decreases len - idx
    {
      hide NoneBelow, Times, Rank;
      ghost var prefix := pwd[..idx];
      if idx == len {
        numhash := numhash + 1;
        OneWord(crypt, hash, prefix);
        assert pwd[..] == prefix == prefix + pwd[idx..] && pwd[idx..] == [];
        var hashed := crypt(pwd[..]);
        if hashed == hash {
          return 0;
        } else {
          return 1;
        }
      }
      ghost var p := Pow26(len - idx - 1);
      var c := 0;
      NothingTried(crypt, hash, prefix, len - idx, p);
      while c < 26
        invariant 0 <= c <= 26 && pwd[..idx] == prefix
        invariant NoneBelow(crypt, hash, prefix, len - idx, Times(c, p))
        invariant numhash == old(numhash) + Times(c, p)
      {
        var letter := Letter(c);
        pwd[idx] := letter;
        find := Test(pwd, hash, idx + 1, len, crypt);
        assert pwd[..idx + 1][..idx] == prefix && pwd[..idx + 1] == prefix + [letter];
        if find == 0 {
          RankCons(letter, pwd[idx + 1..]);
          RankBounds(pwd[idx + 1..]);
          MoreTried(crypt, hash, prefix, letter, len - idx - 1, Rank(pwd[idx + 1..]));
          assert pwd[idx..] == [letter] + pwd[idx + 1..];
          assert pwd[..idx] + pwd[idx..] == pwd[..idx + 1] + pwd[idx + 1..];
          return 0;
        }
        NotFound(crypt, hash, prefix, letter, len - idx - 1);
        c := c + 1;
      }
      assert Pow26(len - idx) == Times(26, p);
      return 1;
    }
  }

  function Letter(d: nat): (c: char)
    requires d < 26
    ensures IsLower(c) && Digit(c) == d
  {
    ('a' as int + d) as char
  }

  lemma OneWord(crypt: seq<char> -> string, hash: string, prefix: seq<char>)
    ensures Rank([]) == 0 && NoneBelow(crypt, hash, prefix, 0, 0)
    ensures crypt(prefix) != hash ==> NoneBelow(crypt, hash, prefix, 0, Pow26(0))
  {
    assert prefix + [] == prefix;
  }

  lemma NothingTried(crypt: seq<char> -> string, hash: string, prefix: seq<char>, k: nat, p: nat)
    ensures Times(0, p) == 0 && NoneBelow(crypt, hash, prefix, k, Times(0, p))
  {
  }

  lemma Regroup(prefix: seq<char>, s: seq<char>)
    requires s != []
    ensures prefix + s == prefix + [s[0]] + s[1..]
  {
  }

  lemma RankCons(c: char, rest: seq<char>)
    requires IsLower(c) && Lower(rest)
    ensures Lower([c] + rest) && Rank([c] + rest) == Times(Digit(c), Pow26(|rest|)) + Rank(rest)
  {
  }

  // All words that start before c, and those that go on behind c with a rank below n, were tried.
  lemma MoreTried(crypt: seq<char> -> string, hash: string, prefix: seq<char>, c: char, k: nat, n: nat)
    requires IsLower(c) && n <= Pow26(k)
    requires NoneBelow(crypt, hash, prefix, k + 1, Times(Digit(c), Pow26(k)))
    requires NoneBelow(crypt, hash, prefix + [c], k, n)
    ensures NoneBelow(crypt, hash, prefix, k + 1, Times(Digit(c), Pow26(k)) + n)
  {
    hide Times, Pow26, Rank;
    forall s | |s| == k + 1 && Lower(s) && Rank(s) < Times(Digit(c), Pow26(k)) + n ensures crypt(prefix + s) != hash {
      FirstLetter(s, c, n);
      if !(Rank(s) < Times(Digit(c), Pow26(k))) {
        Regroup(prefix, s);
      }
    }
  }

  lemma NotFound(crypt: seq<char> -> string, hash: string, prefix: seq<char>, c: char, k: nat)
    requires IsLower(c)
    requires NoneBelow(crypt, hash, prefix, k + 1, Times(Digit(c), Pow26(k)))
    requires NoneBelow(crypt, hash, prefix + [c], k, Pow26(k))
    ensures Times(Digit(c) + 1, Pow26(k)) == Times(Digit(c), Pow26(k)) + Pow26(k)
    ensures NoneBelow(crypt, hash, prefix, k + 1, Times(Digit(c) + 1, Pow26(k)))
  {
    hide Pow26, Rank, NoneBelow;
    MoreTried(crypt, hash, prefix, c, k, Pow26(k));
  }

  // A word whose rank is below that of c followed by a rest of rank n starts before c, or with c
  // and goes on with a smaller rank.
  lemma FirstLetter(s: seq<char>, c: char, n: nat)
    requires s != [] && Lower(s) && IsLower(c) && n <= Pow26(|s| - 1)
    requires Rank(s) < Times(Digit(c), Pow26(|s| - 1)) + n
    ensures Rank(s) < Times(Digit(c), Pow26(|s| - 1)) || (s[0] == c && Rank(s[1..]) < n)
  {
    hide Times, Pow26;
    RankBounds(s[1..]);
    var p := Pow26(|s| - 1);
    if Digit(s[0]) < Digit(c) {
      TimesGrows(Digit(s[0]), Digit(c), p);
    } else if Digit(c) < Digit(s[0]) {
      TimesGrows(Digit(c), Digit(s[0]), p);
    }
  }

  // In terms of words: the word found comes before every other that has the hash.
  lemma FirstInDictionary(crypt: seq<char> -> string, hash: string, prefix: seq<char>, word: seq<char>, other: seq<char>)
    requires Lower(word) && NoneBelow(crypt, hash, prefix, |word|, Rank(word))
    requires |other| == |word| && Lower(other) && crypt(prefix + other) == hash
    ensures other == word || Before(word, other)
  {
    RankOrder(other, word);
    RankOrder(word, other);
  }

  // And if no word is found, there is none.
  lemma NotInDictionary(crypt: seq<char> -> string, hash: string, prefix: seq<char>, k: nat, word: seq<char>)
    requires NoneBelow(crypt, hash, prefix, k, Pow26(k)) && |word| == k && Lower(word)
    ensures crypt(prefix + word) != hash
  {
    RankBounds(word);
  }

  // ----- The first candidate of a worker -----

  // Lines 61-71 of cracker2.c: the letters from idx on become the word of rank startidx. The
  // range of a worker starts below the number of words.
  method FirstCandidate(pwd: array<char>, idx: nat, startidx: nat)
    requires idx <= pwd.Length && startidx < Pow26(pwd.Length - idx)
    modifies pwd
    ensures pwd[..idx] == old(pwd[..idx])
    ensures Lower(pwd[idx..]) && Rank(pwd[idx..]) == startidx
  {
    hide Times, Rank, Pow26;
    var len := pwd.Length;
    var remain: nat := startidx;
    var i := idx;
    assert pwd[idx..i] == [];
    NothingSet(startidx, len - idx);
    while i < len
      invariant idx <= i <= len && remain < Pow26(len - i)
      invariant pwd[..idx] == old(pwd[..idx]) && Leads(pwd[idx..i], startidx, len - i, remain)
    {
      var divisor := PowerLoop(len - i - 1);
      var numshift := remain / divisor;
      TopDigit(remain, len - i);
      assert numshift < 26;
      ghost var done := pwd[idx..i];
      pwd[i] := Letter(numshift);
      assert pwd[idx..i + 1] == done + [pwd[i]];
      OneMoreLetter(done, startidx, len - i, remain, pwd[i], remain % divisor);
      remain := remain % divisor;
      i := i + 1;
    }
    AllSet(pwd[idx..i], startidx, remain);
    assert pwd[idx..i] == pwd[idx..];
  }

  // Lines 63-66
  method PowerLoop(n: nat) returns (divisor: nat)
    ensures divisor == Pow26(n) > 0
  {
    PowPositive(n);
    divisor := 1;
    for j := 0 to n
      invariant divisor == Pow26(j)
    {
      TimesIsProduct(26, Pow26(j));
      divisor := divisor * 26;
    }
  }

  // Any k letters of rank `remain` put behind `done` make the word of rank startidx.
  ghost predicate Leads(done: seq<char>, startidx: nat, k: nat, remain: nat) {
    Lower(done) && forall rest :: |rest| == k && Lower(rest) && Rank(rest) == remain ==> Rank(done + rest) == startidx
  }

  lemma NothingSet(startidx: nat, k: nat)
    ensures Leads([], startidx, k, startidx)
  {
    forall rest: seq<char> ensures [] + rest == rest {
    }
  }

  lemma OneMoreLetter(done: seq<char>, startidx: nat, k: nat, remain: nat, c: char, less: nat)
    requires Leads(done, startidx, k, remain) && k > 0 && IsLower(c)
    requires remain == Times(Digit(c), Pow26(k - 1)) + less
    ensures Leads(done + [c], startidx, k - 1, less)
  {
    hide Times, Pow26;
    forall rest | |rest| == k - 1 && Lower(rest) && Rank(rest) == less ensures Rank(done + [c] + rest) == startidx {
      var longer := [c] + rest;
      assert longer[1..] == rest && Rank(longer) == remain;
      assert done + [c] + rest == done + longer;
    }
  }

  lemma AllSet(word: seq<char>, startidx: nat, remain: nat)
    requires Leads(word, startidx, 0, remain) && remain < Pow26(0)
    ensures Rank(word) == startidx
  {
    assert Rank([]) == 0 && word + [] == word;
  }

  // The assertion of line 69 holds exactly for starts below the number of words.
  lemma TopDigit(n: nat, k: nat)
    requires k > 0
    ensures Pow26(k - 1) > 0 && (n / Pow26(k - 1) < 26 <==> n < Pow26(k))
    ensures n == Times(n / Pow26(k - 1), Pow26(k - 1)) + n % Pow26(k - 1) && n % Pow26(k - 1) < Pow26(k - 1)
  {
    PowPositive(k - 1);
    Quotient(n, Pow26(k - 1));
  }

  lemma Quotient(n: nat, p: nat)
    requires p > 0
    ensures n / p < 26 <==> n < Times(26, p)
    ensures n == Times(n / p, p) + n % p && n % p < p
  {
    hide Times;
    TimesIsProduct(n / p, p);
    TimesIsProduct(26, p);
    assert n == n / p * p + n % p;
    if n / p < 26 {
      TimesGrows(n / p, 26, p);
    } else {
      TimesGrows(26, n / p, p);
    }
  }

  lemma {:induction false} PowPositive(n: nat)
    ensures Pow26(n) > 0
  {
    if n > 0 {
      PowPositive(n - 1);
      TimesIsProduct(26, Pow26(n - 1));
    }
  }
}
