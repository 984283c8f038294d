// How a block sequence lies in memory: header and footer fields, and the doubly linked,
// address-ordered list threaded through the free blocks.
module AllocLinks {
  import opened AllocBlocks

  // One cell per byte address. A size_t, int or pointer field is held in the cell at its own address;
  // payload bytes have a cell each.
  type Memory = seq<int>

  const SIZE := 0
  const FREE := 8
  const NEXT := 16
  const PREV := 24

  // First / last free block of a part of the heap, or the given neighbour outside that part.
  function FirstFree(s: seq<Block>, n: int): int {
    if s == [] then n else if s[0].free then s[0].addr else FirstFree(s[1..], n)
  }

  function LastFree(s: seq<Block>, p: int): int {
    if s == [] then p else LastFree(s[1..], if s[0].free then s[0].addr else p)
  }

  ghost predicate Fields(m: Memory, b: Block, prev: int, next: int) {
    && 0 <= b.addr && 0 <= b.size && b.End() <= |m|
    && m[b.addr] == b.size
    && m[b.addr + FREE] == (if b.free then 1 else 0)
    && m[b.addr + NEXT] == (if b.free then next else NULL)
    && m[b.addr + PREV] == (if b.free then prev else NULL)
    && m[b.addr + HEADER + b.size] == b.size
  }

  // Part s of the heap lies in m; p and n are the free blocks around it.
  ghost predicate Rep(m: Memory, s: seq<Block>, p: int, n: int)
    decreases |s|
  {
    s == [] ||
    (Fields(m, s[0], p, FirstFree(s[1..], n)) && Rep(m, s[1..], if s[0].free then s[0].addr else p, n))
  }

  lemma OneBlock(m: Memory, b: Block, p: int, n: int)
    ensures Rep(m, [b], p, n) <==> Fields(m, b, p, n)
    ensures FirstFree([b], n) == if b.free then b.addr else n
    ensures LastFree([b], p) == if b.free then b.addr else p
  {
  }

  // ----- concatenation -----

  lemma {:induction false} FirstFreeConcat(x: seq<Block>, y: seq<Block>, n: int)
    ensures FirstFree(x + y, n) == FirstFree(x, FirstFree(y, n))
  {
    if x == [] {
      assert x + y == y;
    } else {
      assert (x + y)[1..] == x[1..] + y;
      FirstFreeConcat(x[1..], y, n);
    }
  }

  lemma {:induction false} LastFreeConcat(x: seq<Block>, y: seq<Block>, p: int)
    ensures LastFree(x + y, p) == LastFree(y, LastFree(x, p))
  {
    if x == [] {
      assert x + y == y;
    } else {
      assert (x + y)[1..] == x[1..] + y;
      LastFreeConcat(x[1..], y, if x[0].free then x[0].addr else p);
    }
  }

  lemma {:induction false} RepConcat(m: Memory, x: seq<Block>, y: seq<Block>, p: int, n: int)
    ensures Rep(m, x + y, p, n) <==> Rep(m, x, p, FirstFree(y, n)) && Rep(m, y, LastFree(x, p), n)
    decreases |x|
  {
    if x == [] {
      assert x + y == y;
    } else {
      assert (x + y)[1..] == x[1..] + y;
      FirstFreeConcat(x[1..], y, n);
      RepConcat(m, x[1..], y, if x[0].free then x[0].addr else p, n);
    }
  }

  // A part without free blocks passes both neighbours through; otherwise both ends lie inside it.
  lemma {:induction false} FreeEnds(s: seq<Block>, p: int, n: int, lo: int, hi: int)
    requires Tiles(s, lo, hi) && 0 < lo
    ensures FirstFree(s, NULL) == NULL <==> LastFree(s, NULL) == NULL
    ensures FirstFree(s, n) == if FirstFree(s, NULL) == NULL then n else FirstFree(s, NULL)
    ensures LastFree(s, p) == if LastFree(s, NULL) == NULL then p else LastFree(s, NULL)
    ensures FirstFree(s, NULL) != NULL ==> lo <= FirstFree(s, NULL) && FirstFree(s, NULL) + OVERHEAD <= hi
    ensures LastFree(s, NULL) != NULL ==> lo <= LastFree(s, NULL) && LastFree(s, NULL) + OVERHEAD <= hi
    decreases |s|
  {
    if s != [] {
      TilesSpan(s, lo, hi);
      var p' := if s[0].free then s[0].addr else p;
      FreeEnds(s[1..], p', n, s[0].End(), hi);
      FreeEnds(s[1..], if s[0].free then s[0].addr else NULL, n, s[0].End(), hi);
    }
  }

  // ----- changing the neighbours of a part -----

  // The next field of the last free block in s, the prev field of the first one; 0 if there is none.
  function TailCell(s: seq<Block>): int {
    if LastFree(s, NULL) == NULL then 0 else LastFree(s, NULL) + NEXT
  }

  function HeadCell(s: seq<Block>): int {
    if FirstFree(s, NULL) == NULL then 0 else FirstFree(s, NULL) + PREV
  }

  ghost predicate SameExcept(m: Memory, m': Memory, lo: int, hi: int, cell: int) {
    0 <= lo && hi <= |m| && hi <= |m'| && forall x :: lo <= x < hi && x != cell ==> m'[x] == m[x]
  }

  lemma {:induction false} RelinkTail(m: Memory, m': Memory, s: seq<Block>, p: int, n: int, n': int, lo: int, hi: int)
    requires Tiles(s, lo, hi) && 0 < lo && Rep(m, s, p, n)
    requires SameExcept(m, m', lo, hi, TailCell(s))
    requires 0 < TailCell(s) < |m'| ==> m'[TailCell(s)] == n'
    ensures Rep(m', s, p, n')
    decreases |s|
  {
    if s != [] {
      TilesSpan(s, lo, hi);
      var a, r := s[0], s[1..];
      FreeEnds(r, if a.free then a.addr else NULL, n, a.End(), hi);
      FreeEnds(r, p, n', a.End(), hi);
      RelinkTail(m, m', r, if a.free then a.addr else p, n, n', a.End(), hi);
    }
  }

  lemma {:induction false} RelinkHead(m: Memory, m': Memory, s: seq<Block>, p: int, p': int, n: int, lo: int, hi: int)
    requires Tiles(s, lo, hi) && 0 < lo && Rep(m, s, p, n)
    requires SameExcept(m, m', lo, hi, HeadCell(s))
    requires 0 < HeadCell(s) < |m'| ==> m'[HeadCell(s)] == p'
    ensures Rep(m', s, p', n)
    decreases |s|
  {
    if s != [] {
      TilesSpan(s, lo, hi);
      var a, r := s[0], s[1..];
      if a.free {
        Frame(m, m', r, a.addr, n, a.End(), hi);
      } else {
        FreeEnds(r, p, n, a.End(), hi);
        RelinkHead(m, m', r, p, p', n, a.End(), hi);
      }
    }
  }

  lemma {:induction false} Frame(m: Memory, m': Memory, s: seq<Block>, p: int, n: int, lo: int, hi: int)
    requires Tiles(s, lo, hi) && Rep(m, s, p, n)
    requires 0 <= lo && hi <= |m| && hi <= |m'| && forall x :: lo <= x < hi ==> m'[x] == m[x]
    ensures Rep(m', s, p, n)
    decreases |s|
  {
    if s != [] {
      TilesSpan(s, lo, hi);
      Frame(m, m', s[1..], if s[0].free then s[0].addr else p, n, s[0].End(), hi);
    }
  }

  // ----- replacing the middle of the heap -----

  // m' may differ from m inside [mid, mid') and in the two link cells that point across it.
  ghost predicate OnlySegment(m: Memory, m': Memory, a: seq<Block>, b: seq<Block>, lo: int, mid: int, mid': int, hi: int) {
    && SameExcept(m, m', lo, mid, TailCell(a))
    && SameExcept(m, m', mid', hi, HeadCell(b))
  }

  // The heart of malloc and free: blocks s between a and b are replaced by s'. If s' is laid out properly and
  // the nearest free blocks on either side point at the right places, the whole heap is laid out properly.
  lemma Splice(m: Memory, m': Memory, a: seq<Block>, s: seq<Block>, s': seq<Block>, b: seq<Block>,
               lo: int, mid: int, mid': int, hi: int)
    requires 0 < lo && Tiles(a, lo, mid) && mid <= mid' && lo <= mid && Tiles(b, mid', hi)
    requires Rep(m, a + s + b, NULL, NULL)
    requires Rep(m', s', LastFree(a, NULL), FirstFree(b, NULL))
    requires OnlySegment(m, m', a, b, lo, mid, mid', hi)
    requires 0 < TailCell(a) < |m'| ==> m'[TailCell(a)] == FirstFree(s', FirstFree(b, NULL))
    requires 0 < HeadCell(b) < |m'| ==> m'[HeadCell(b)] == LastFree(s', LastFree(a, NULL))
    ensures Rep(m', a + s' + b, NULL, NULL)
    ensures FirstFree(a + s' + b, NULL) == FirstFree(a, FirstFree(s', FirstFree(b, NULL)))
  {
    RepConcat(m, a + s, b, NULL, NULL);
    RepConcat(m, a, s, NULL, FirstFree(b, NULL));
    LastFreeConcat(a, s, NULL);
    RelinkTail(m, m', a, NULL, FirstFree(s, FirstFree(b, NULL)), FirstFree(s', FirstFree(b, NULL)), lo, mid);
    RelinkHead(m, m', b, LastFree(s, LastFree(a, NULL)), LastFree(s', LastFree(a, NULL)), NULL, mid', hi);
    RepConcat(m', a, s', NULL, FirstFree(b, NULL));
    LastFreeConcat(a, s', NULL);
    RepConcat(m', a + s', b, NULL, NULL);
    FirstFreeConcat(a + s', b, NULL);
    FirstFreeConcat(a, s', FirstFree(b, NULL));
  }

  // What a block's fields say about its place in the heap.
  lemma RepAt(m: Memory, bs: seq<Block>, i: nat)
    requires Rep(m, bs, NULL, NULL) && i < |bs|
    ensures Fields(m, bs[i], LastFree(bs[..i], NULL), FirstFree(bs[i + 1..], NULL))
  {
    assert bs == bs[..i] + bs[i..];
    RepConcat(m, bs[..i], bs[i..], NULL, NULL);
    assert bs[i..][1..] == bs[i + 1..];
  }

  // The free block an address names, if it is the first one at or after index k.
  lemma {:induction false} FirstFreeAt(bs: seq<Block>, k: nat) returns (j: nat)
    requires k <= |bs| && FirstFree(bs[k..], NULL) != NULL
    ensures k <= j < |bs| && bs[j].free && bs[j].addr == FirstFree(bs[k..], NULL)
    ensures forall i :: k <= i < j ==> !bs[i].free
    decreases |bs| - k
  {
    if bs[k].free {
      j := k;
    } else {
      assert bs[k..][1..] == bs[k + 1..];
      j := FirstFreeAt(bs, k + 1);
    }
  }

  lemma {:induction false} FirstFreeIs(bs: seq<Block>, from: nat, k: nat)
    requires from <= k <= |bs| && forall j :: from <= j < k ==> !bs[j].free
    requires k < |bs| ==> bs[k].free
    ensures FirstFree(bs[from..], NULL) == if k < |bs| then bs[k].addr else NULL
    decreases k - from
  {
    if from < |bs| {
      assert bs[from..][1..] == bs[from + 1..];
      if from < k {
        FirstFreeIs(bs, from + 1, k);
      }
    }
  }

  lemma {:induction false} LastFreeIs(bs: seq<Block>, k: nat, end: nat)
    requires k < end <= |bs| && bs[k].free && forall j :: k < j < end ==> !bs[j].free
    ensures LastFree(bs[..end], NULL) == bs[k].addr
    decreases end
  {
    assert bs[..end] == bs[..end - 1] + [bs[end - 1]];
    LastFreeConcat(bs[..end - 1], [bs[end - 1]], NULL);
    if k < end - 1 {
      LastFreeIs(bs, k, end - 1);
    }
  }

  lemma {:induction false} LastFreeAt(s: seq<Block>, p: int) returns (j: nat)
    requires LastFree(s, p) != p
    ensures j < |s| && s[j].free && s[j].addr == LastFree(s, p)
  {
    var p' := if s[0].free then s[0].addr else p;
    if LastFree(s[1..], p') == p' {
      j := 0;
    } else {
      j := LastFreeAt(s[1..], p');
      j := j + 1;
    }
  }

  lemma {:induction false} NoFree(s: seq<Block>, lo: int, hi: int)
    requires Tiles(s, lo, hi) && 0 < lo
    ensures FirstFree(s, NULL) == NULL <==> forall i :: 0 <= i < |s| ==> !s[i].free
    ensures LastFree(s, NULL) == NULL <==> forall i :: 0 <= i < |s| ==> !s[i].free
    decreases |s|
  {
    if s != [] {
      TilesSpan(s, lo, hi);
      NoFree(s[1..], s[0].End(), hi);
      FreeEnds(s[1..], if s[0].free then s[0].addr else NULL, NULL, s[0].End(), hi);
      assert forall i :: 0 < i < |s| ==> s[i] == s[1..][i - 1];
      if forall i :: 0 <= i < |s| ==> !s[i].free {
        assert forall i :: 0 <= i < |s[1..]| ==> !s[1..][i].free;
      }
    }
  }

  // ----- payloads -----

  ghost predicate InPayload(b: Block, x: int) {
    b.Payload() <= x < b.Payload() + b.size
  }

  // Every byte of every live block of bs, other than the one at p, is as it was.
  ghost predicate PayloadsKept(m: Memory, m': Memory, bs: seq<Block>, p: int) {
    forall b, x :: b in bs && !b.free && b.Payload() != p && InPayload(b, x) ==>
      0 <= x < |m| && x < |m'| && m'[x] == m[x]
  }

  lemma SegmentKeepsPayloads(m: Memory, m': Memory, bs: seq<Block>, i: nat, j: nat, p: int, lo: int, hi: int)
    requires 0 < lo && Tiles(bs, lo, hi) && i <= j <= |bs|
    requires OnlySegment(m, m', bs[..i], bs[j..], lo, Start(bs, i, hi), Start(bs, j, hi), hi)
    requires forall k :: i <= k < j ==> bs[k].free || bs[k].Payload() == p
    ensures PayloadsKept(m, m', bs, p)
  {
    TilesSplit(bs, i, lo, hi);
    TilesSplit(bs, j, lo, hi);
    forall b, x | b in bs && !b.free && b.Payload() != p && InPayload(b, x)
      ensures 0 <= x < |m| && x < |m'| && m'[x] == m[x]
    {
      var k :| 0 <= k < |bs| && bs[k] == b;
      TilesAt(bs, k, lo, hi);
      if k < i {
        PartKeepsPayload(m, m', bs[..i], k, x, TailCell(bs[..i]), lo, Start(bs, i, hi));
      } else {
        PartKeepsPayload(m, m', bs[j..], k - j, x, HeadCell(bs[j..]), Start(bs, j, hi), hi);
      }
    }
  }

  lemma PartKeepsPayload(m: Memory, m': Memory, s: seq<Block>, k: nat, x: int, cell: int, lo: int, hi: int)
    requires 0 < lo && Tiles(s, lo, hi) && k < |s| && !s[k].free && InPayload(s[k], x)
    requires SameExcept(m, m', lo, hi, cell) && cell in {TailCell(s), HeadCell(s)}
    ensures 0 <= x < |m| && x < |m'| && m'[x] == m[x]
  {
    TilesAt(s, k, lo, hi);
    if cell != 0 {
      FreeEnds(s, NULL, NULL, lo, hi);
      var f: nat;
      if cell == TailCell(s) {
        f := LastFreeAt(s, NULL);
      } else {
        assert s[0..] == s;
        f := FirstFreeAt(s, 0);
      }
      assert f != k;
      if f < k {
        TilesApart(s, f, k, lo, hi);
        TilesAt(s, f, lo, hi);
      } else {
        TilesApart(s, k, f, lo, hi);
      }
    }
  }
}
