// malloc, free, calloc and realloc of malloc/alloc.c over a byte-addressed heap with real field offsets.
module Alloc {
  import opened AllocBlocks
  import opened AllocLinks

  // A store through a pointer; the cell must lie in the heap.
  function Put(m: Memory, a: int, v: int): Memory
    requires 0 <= a < |m|
  {
    m[a := v]
  }

  ghost predicate Layout(m: Memory, bs: seq<Block>, lo: int, hi: int) {
    && 0 < lo
    && WellFormed(bs, lo, hi)
    && |m| == hi
    && Rep(m, bs, NULL, NULL)
  }

  // Block b with its list neighbours p and n, either of which may be missing.
  ghost predicate Linked(m: Memory, b: Block, p: int, n: int) {
    && 0 < b.addr
    && Fields(m, b, p, n)
    && b.End() <= |m|
    && (p != NULL ==> 0 < p && p + OVERHEAD <= b.addr )
    && (n != NULL ==> b.End() <= n && n + OVERHEAD <= |m|)
  }

  // Outside [from, to) only the link of p onwards (now p') and the link of n back (now n') have changed.
  ghost predicate Relinked(m: Memory, m': Memory, from: int, to: int, p: int, n: int, p': int, n': int) {
    && |m'| == |m|
    && (forall x :: 0 <= x < |m| && !(from <= x < to) && (p == NULL || x != p + NEXT) && (n == NULL || x != n + PREV) ==>
          m'[x] == m[x])
    && (0 < p && p + NEXT < |m| ==> m'[p + NEXT] == p')
    && (0 < n && n + PREV < |m| ==> m'[n + PREV] == n')
  }

  // The list neighbours p and n of the range [from, to) point across it: p forward at pn, n back at np.
  ghost predicate Neighbours(m: Memory, from: int, to: int, p: int, n: int, pn: int, np: int) {
    && 0 < from <= to <= |m|
    && (p != NULL ==> 0 < p && p + OVERHEAD <= from && m[p + NEXT] == pn)
    && (n != NULL ==> to <= n && n + OVERHEAD <= |m| && m[n + PREV] == np)
  }

  // What every branch of free has to achieve for block i, before the ghost sequence follows.
  ghost predicate FreedStores(m: Memory, m': Memory, bs: seq<Block>, i: nat)
    requires i < |bs|
  {
    var mg, p, n := Merged(bs, i), LastFree(bs[..FirstMerged(bs, i)], NULL), FirstFree(bs[LastMerged(bs, i) + 1..], NULL);
    Fields(m', mg, p, n) && Relinked(m, m', mg.addr, mg.End(), p, n, mg.addr, mg.addr)
  }

  function LastAddr(bs: seq<Block>): int {
    if bs == [] then NULL else bs[|bs| - 1].addr
  }

  // The first free block from the merged range on, and the last one up to its end.
  function FirstFrom(bs: seq<Block>, i: nat): int
    requires i < |bs|
  {
    if FirstMerged(bs, i) < i then bs[i - 1].addr
    else if i < LastMerged(bs, i) then bs[i + 1].addr
    else FirstFree(bs[LastMerged(bs, i) + 1..], NULL)
  }

  function LastUpTo(bs: seq<Block>, i: nat): int
    requires i < |bs|
  {
    if i < LastMerged(bs, i) then bs[i + 1].addr
    else if FirstMerged(bs, i) < i then bs[i - 1].addr
    else LastFree(bs[..FirstMerged(bs, i)], NULL)
  }

  ghost predicate OwnFields(m: Memory, bs: seq<Block>, i: nat)
    requires i < |bs|
  {
    && (Fields(m, bs[i], NULL, NULL))
    && (FirstMerged(bs, i) < i ==> Fields(m, bs[i - 1], LastFree(bs[..i - 1], NULL),
         if i < LastMerged(bs, i) then bs[i + 1].addr else FirstFree(bs[i + 1..], NULL)))
    && (i < LastMerged(bs, i) ==> Fields(m, bs[i + 1],
         if FirstMerged(bs, i) < i then bs[i - 1].addr else LastFree(bs[..i], NULL), FirstFree(bs[i + 2..], NULL)))
  }

  // Headers and footers on either side of block i.
  ghost predicate Surroundings(m: Memory, bs: seq<Block>, i: nat, lo: int)
    requires i < |bs|
  {
    && (bs[i].size >= 8 && 0 < lo <= bs[i].addr && bs[i].End() <= |m| && m[bs[i].addr] == bs[i].size)
    && (i == 0 ==> bs[i].addr == lo)
    && (i > 0 ==> lo < bs[i].addr && bs[i - 1].End() == bs[i].addr)
    && (i > 0 ==> 0 <= bs[i].addr - FOOTER < |m| && m[bs[i].addr - FOOTER] == bs[i - 1].size)
    && (i > 0 ==> bs[i - 1].size >= 8 && lo <= bs[i - 1].addr && 0 <= bs[i - 1].addr + FREE < |m|)
    && (i > 0 ==> m[bs[i - 1].addr + FREE] == if bs[i - 1].free then 1 else 0)
    && (i + 1 < |bs| ==> bs[i].addr < LastAddr(bs) && bs[i + 1].addr == bs[i].End() && bs[i + 1].size >= 8)
    && (i + 1 < |bs| ==> bs[i + 1].End() <= |m| && m[bs[i + 1].addr + FREE] == if bs[i + 1].free then 1 else 0)
    && (bs[i].addr <= LastAddr(bs) && (i + 1 == |bs| ==> bs[i].addr == LastAddr(bs)))
    && (i + 2 == |bs| ==> bs[i + 1].addr == LastAddr(bs))
    && (i + 2 < |bs| ==> bs[i + 1].addr < LastAddr(bs))
  }

  ghost predicate FreeView(m: Memory, bs: seq<Block>, i: nat, lo: int)
    requires i < |bs|
  {
    var a, z := FirstMerged(bs, i), LastMerged(bs, i);
    && 0 < lo
    && OwnFields(m, bs, i)
    && Surroundings(m, bs, i, lo)
    && Neighbours(m, bs[a].addr, bs[z].End(), LastFree(bs[..a], NULL), FirstFree(bs[z + 1..], NULL),
                  FirstFrom(bs, i), LastUpTo(bs, i))
  }

  // n bytes from src to dst.
  function MemCpy(m: Memory, dst: int, src: int, n: nat): (m': Memory)
    requires 0 <= dst && dst + n <= |m| && 0 <= src && src + n <= |m|
    ensures |m'| == |m|
    ensures m'[dst..dst + n] == m[src..src + n]
    ensures forall x :: 0 <= x < |m| && !(dst <= x < dst + n) ==> m'[x] == m[x]
  {
    m[..dst] + m[src..src + n] + m[dst + n..]
  }

  // n zero bytes from dst on.
  function MemSet(m: Memory, dst: int, n: nat): (m': Memory)
    requires 0 <= dst && dst + n <= |m|
    ensures |m'| == |m|
    ensures forall x :: 0 <= x < |m| ==> m'[x] == if dst <= x < dst + n then 0 else m[x]
  {
    m[..dst] + seq(n, _ => 0) + m[dst + n..]
  }

  class Heap {
    var mem: Memory
    var brk: int      // end of the heap, moved only by sbrk
    var head: int     // first block of the free list
    var start: int    // first block of the heap
    var final: int    // last block of the heap
    const base: int   // where the first sbrk lands
    ghost var bs: seq<Block>

    ghost predicate Valid()
      reads this
    {
      && Layout(mem, bs, base, brk)
      && head == FirstFree(bs, NULL)
      && start == (if bs == [] then NULL else base)
      && final == LastAddr(bs)
    }

    constructor (base: int)
      requires 0 < base
      ensures Valid() && bs == [] && this.base == base
    {
      this.base := base;
      mem, brk, head, start, final, bs := seq(base, _ => 0), base, NULL, NULL, NULL, [];
    }

    // sbrk: contiguous, zero-filled, may fail.
    method Sbrk(n: nat, grows: bool) returns (p: int)
      modifies this`mem, this`brk
      ensures !grows ==> p == -1 && mem == old(mem) && brk == old(brk)
      ensures grows ==> p == old(brk) && brk == old(brk) + n
      ensures grows ==> |mem| == |old(mem)| + n && mem[..|old(mem)|] == old(mem)
    {
      if !grows {
        return -1;
      }
      p, brk := brk, brk + n;
      mem := mem + seq(n, _ => 0);
    }

    method Malloc(request: nat, grows: bool) returns (p: int)
      requires Valid()
      modifies this
      ensures Valid()
      ensures (bs, p) == MallocBlocks(old(bs), old(brk), request, grows)
      ensures brk == NewBreak(old(bs), old(brk), request, grows)
      ensures Step(old(bs), old(brk), MallocCall(request, grows)) == Outcome.Heap(bs, brk)
      ensures PayloadsKept(old(mem), mem, old(bs), NULL)
      // It fails exactly if nothing fits and the heap cannot grow, and then changes nothing.
      ensures p == NULL <==> request == 0 || (!grows && !Fits(old(bs), Rounded(request)))
      ensures p == NULL ==> mem == old(mem) && bs == old(bs) && brk == old(brk)
      // Otherwise there is exactly one more block in use, where it belongs.
      ensures p != NULL ==> IsLive(bs, p) && HandedOut(old(bs), old(brk), bs, brk, BlockOf(bs, p), Rounded(request))
    {
      hide Tiles, Coalesced, Rep, FirstFree, LastFree, PayloadsKept, HandedOut, Fits;
      LayoutKeepsPayloads(mem, bs, NULL, base, brk);
      MallocAnswers(bs, brk, request, grows, base);
      if request == 0 {
        return NULL;
      }
      var total := (request + HEADER + FOOTER + 15) / 16;
      total := total * 16;
      var size := total - HEADER - FOOTER;
      ghost var i;
      var entr;
      entr, i := FirstFitSearch(size);
      if entr == NULL {
        p := Extend(size, grows);
      } else {
        MallocTakes(bs, brk, request, grows, i);
        RepAt(mem, bs, i);
        if mem[entr + SIZE] > size && mem[entr + SIZE] >= THRESHOLD + size + HEADER + FOOTER {
          Split(entr, size, i);
        } else {
          Unlink(entr, i);
        }
        p := entr + HEADER;
      }
    }

    // The walk along the free list.
    method FirstFitSearch(size: nat) returns (entr: int, ghost i: nat)
      requires Valid()
      ensures i <= |bs| && forall j :: 0 <= j < i ==> !(bs[j].free && bs[j].size >= size)
      ensures entr == NULL <==> i == |bs|
      ensures i < |bs| ==> entr == bs[i].addr && bs[i].free && bs[i].size >= size
    {
      entr := NULL;
      var ptr := head;
      ghost var k := 0;
      assert bs[0..] == bs;
      while ptr != NULL
        invariant 0 <= k <= |bs| && ptr == FirstFree(bs[k..], NULL)
        invariant forall j :: 0 <= j < k ==> !(bs[j].free && bs[j].size >= size)
        decreases |bs| - k
      {
        i := FirstFreeAt(bs, k);
        RepAt(mem, bs, i);
        TilesAt(bs, i, base, brk);
        if mem[ptr + SIZE] >= size {
          entr := ptr;
          return;
        }
        ptr := mem[ptr + NEXT];
        k := i + 1;
      }
      i := |bs|;
      TilesSplit(bs, k, base, brk);
      NoFree(bs[k..], Start(bs, k, brk), brk);
      assert forall j :: k <= j < |bs| ==> bs[j] == bs[k..][j - k];
    }

    // No free block fits: a new block at the end of the heap.
    method Extend(size: nat, grows: bool) returns (p: int)
      requires Valid() && size >= 8 && size % 16 == 8
      modifies this
      ensures Valid()
      ensures bs == if grows then old(bs) + [Block(old(brk), size, false)] else old(bs)
      ensures p == if grows then old(brk) + HEADER else NULL
      ensures brk == if grows then old(brk) + OVERHEAD + size else old(brk)
      ensures PayloadsKept(old(mem), mem, old(bs), NULL)
      ensures !grows ==> mem == old(mem)
    {
      TilesSpan(bs, base, brk);
      LayoutKeepsPayloads(mem, bs, NULL, base, brk);
      var entr := Sbrk(HEADER + size + FOOTER, grows);
      if entr == -1 {
        return NULL;
      }
      if start == NULL {
        start := entr;
      }
      final := entr;
      InitBlock(entr, size, 0);
      assert mem[..entr] == old(mem);
      ExtendLayout(old(mem), mem, bs, size, base, old(brk));
      bs := bs + [Block(entr, size, false)];
      return entr + HEADER;
    }

    // Header and footer of a block that is in no list.
    method InitBlock(entr: int, size: nat, free: int)
      requires 0 <= entr && entr + OVERHEAD + size <= |mem| && free in {0, 1}
      modifies this`mem
      ensures Fields(mem, Block(entr, size, free == 1), NULL, NULL)
      ensures |mem| == |old(mem)|
      ensures forall x :: 0 <= x < |mem| && !(entr <= x < entr + OVERHEAD + size) ==> mem[x] == old(mem)[x]
    {
      mem := Put(mem, entr + SIZE, size);
      mem := Put(mem, entr + FREE, free);
      mem := Put(mem, entr + NEXT, NULL);
      mem := Put(mem, entr + PREV, NULL);
      mem := Put(mem, entr + HEADER + size, size);
    }

    // The block is much too large: its tail stays free, in the same place of the list.
    method Split(entr: int, size: nat, ghost i: nat)
      requires Valid() && i < |bs| && bs[i].addr == entr && bs[i].free
      requires size >= 8 && size % 16 == 8 && bs[i].size >= THRESHOLD + size + OVERHEAD
      modifies this
      ensures Valid()
      ensures brk == old(brk)
      ensures bs == old(bs)[..i] + SplitPair(old(bs)[i], size) + old(bs)[i + 1..]
      ensures PayloadsKept(old(mem), mem, old(bs), NULL)
    {
      Around(mem, bs, i, base, brk);
      assert !(brk < entr + HEADER + FOOTER + mem[entr + SIZE]);  // the exit(11) branch is dead
      SplitStores(entr, size, bs[i]);
      SplitLayout(old(mem), mem, bs, i, size, base, brk);
      bs := bs[..i] + SplitPair(bs[i], size) + bs[i + 1..];
    }

    method SplitStores(entr: int, size: nat, ghost b: Block)
      requires b.addr == entr && b.free && b.size >= THRESHOLD + size + OVERHEAD
      requires 0 < entr && entr + OVERHEAD <= |mem|
      requires Linked(mem, b, mem[entr + PREV], mem[entr + NEXT])
      modifies this`mem, this`head, this`final
      ensures var x, y := SplitPair(b, size)[0], SplitPair(b, size)[1];
        && Fields(mem, x, NULL, NULL)
        && Fields(mem, y, old(mem)[entr + PREV], old(mem)[entr + NEXT])
        && Relinked(old(mem), mem, b.addr, b.End(), old(mem)[entr + PREV], old(mem)[entr + NEXT], y.addr, y.addr)
        && head == (if entr == old(head) then y.addr else old(head))
        && final == (if entr == old(final) then y.addr else old(final))
    {
      var previous, next := mem[entr + PREV], mem[entr + NEXT];
      var newentry := Carve(entr, size, b);
      if final == entr {
        final := newentry;
      }
      if entr == head {
        head := newentry;
      }
      LinkIn(newentry, previous, next);
    }

    // entr takes its place in the list between previous and next.
    method LinkIn(entr: int, previous: int, next: int)
      requires 0 < entr && entr + OVERHEAD <= |mem|
      requires previous != NULL ==> 0 < previous && previous + OVERHEAD <= entr
      requires next != NULL ==> entr + OVERHEAD <= next && next + OVERHEAD <= |mem|
      modifies this`mem
      ensures |mem| == |old(mem)|
      ensures mem[entr + PREV] == previous && mem[entr + NEXT] == next
      ensures previous != NULL ==> mem[previous + NEXT] == entr
      ensures next != NULL ==> mem[next + PREV] == entr
      ensures forall x :: 0 <= x < |mem| && x != entr + PREV && x != entr + NEXT ==>
        (previous == NULL || x != previous + NEXT) && (next == NULL || x != next + PREV) ==> mem[x] == old(mem)[x]
    {
      mem := Put(mem, entr + PREV, previous);
      mem := Put(mem, entr + NEXT, next);
      if previous != NULL {
        mem := Put(mem, previous + NEXT, entr);
      }
      if next != NULL {
        mem := Put(mem, next + PREV, entr);
      }
    }

    // The size field of a merged block, at both ends.
    method Resize(entr: int, size: int)
      requires 0 <= entr && 8 <= size && entr + OVERHEAD + size <= |mem|
      modifies this`mem
      ensures |mem| == |old(mem)|
      ensures mem[entr + SIZE] == size && mem[entr + HEADER + size] == size
      ensures forall x :: 0 <= x < |mem| && x != entr + SIZE && x != entr + HEADER + size ==> mem[x] == old(mem)[x]
    {
      mem := Put(mem, entr + SIZE, size);
      var endd := entr + mem[entr + SIZE] + HEADER;
      mem := Put(mem, endd, mem[entr + SIZE]);
    }

    // Headers and footers of the two halves, before the list is told.
    method Carve(entr: int, size: nat, ghost b: Block) returns (newentry: int)
      requires b.addr == entr && b.free && b.size >= THRESHOLD + size + OVERHEAD
      requires 0 < entr && b.End() <= |mem| && mem[entr + SIZE] == b.size
      modifies this`mem
      ensures newentry == SplitPair(b, size)[1].addr
      ensures Fields(mem, SplitPair(b, size)[0], NULL, NULL)
      ensures Fields(mem, SplitPair(b, size)[1], NULL, NULL)
      ensures |mem| == |old(mem)|
      ensures forall x :: 0 <= x < |mem| && !(b.addr <= x < b.End()) ==> mem[x] == old(mem)[x]
    {
      var oldsize := mem[entr + SIZE];
      InitBlock(entr, size, 0);
      newentry := entr + size + FOOTER + HEADER;
      InitBlock(newentry, oldsize - size - HEADER - FOOTER, 1);
    }

    // The whole block is handed out.
    method Unlink(entr: int, ghost i: nat)
      requires Valid() && i < |bs| && bs[i].addr == entr && bs[i].free
      modifies this
      ensures Valid()
      ensures brk == old(brk)
      ensures bs == old(bs)[..i] + [old(bs)[i].(free := false)] + old(bs)[i + 1..]
      ensures PayloadsKept(old(mem), mem, old(bs), NULL)
    {
      Around(mem, bs, i, base, brk);
      UnlinkStores(entr, bs[i]);
      TakeLayout(old(mem), mem, bs, i, base, brk);
      bs := bs[..i] + [bs[i].(free := false)] + bs[i + 1..];
    }

    method UnlinkStores(entr: int, ghost b: Block)
      requires b.addr == entr && b.free && b.size >= 8
      requires 0 < entr && entr + OVERHEAD <= |mem|
      requires Linked(mem, b, mem[entr + PREV], mem[entr + NEXT])
      modifies this`mem, this`head
      ensures Fields(mem, b.(free := false), NULL, NULL)
      ensures Relinked(old(mem), mem, b.addr, b.End(), old(mem)[entr + PREV], old(mem)[entr + NEXT], old(mem)[entr + NEXT], old(mem)[entr + PREV])
      ensures head == (if entr == old(head) then old(mem)[entr + NEXT] else old(head))
    {
      mem := Put(mem, entr + FREE, 0);
      var previous, next := mem[entr + PREV], mem[entr + NEXT];
      if entr == head {
        head := mem[entr + NEXT];
      }
      Bypass(previous, next);
      mem := Put(mem, entr + PREV, NULL);
      mem := Put(mem, entr + NEXT, NULL);
    }

    // The neighbours of a block that leaves the list now point at each other.
    method Bypass(previous: int, next: int)
      requires previous != NULL ==> 0 < previous && previous + OVERHEAD <= |mem|
      requires next != NULL ==> 0 < next && next + OVERHEAD <= |mem| && next + PREV != previous + NEXT
      modifies this`mem
      ensures |mem| == |old(mem)|
      ensures previous != NULL ==> mem[previous + NEXT] == next
      ensures next != NULL ==> mem[next + PREV] == previous
      ensures forall x :: 0 <= x < |mem| && (previous == NULL || x != previous + NEXT) && (next == NULL || x != next + PREV) ==>
        mem[x] == old(mem)[x]
    {
      if previous != NULL {
        mem := Put(mem, previous + NEXT, next);
      }
      if next != NULL {
        mem := Put(mem, next + PREV, previous);
      }
    }

    method Free(ptr: int)
      requires Valid() && (ptr == NULL || IsLive(bs, ptr))
      modifies this
      ensures Valid()
      ensures bs == if ptr == NULL then old(bs) else Freed(old(bs), ptr)
      ensures brk == old(brk)
      ensures Step(old(bs), old(brk), FreeCall(ptr)) == Outcome.Heap(bs, brk)
      ensures ptr == NULL ==> mem == old(mem)
      ensures ptr != NULL ==> Live(bs) == Live(old(bs)) - {BlockOf(old(bs), ptr)}
      ensures PayloadsKept(old(mem), mem, old(bs), ptr)
    {
      hide Tiles, Coalesced, Rep, FirstFree, LastFree, Merged, FreeView, FreedStores, Live;
      LayoutKeepsPayloads(mem, bs, NULL, base, brk);
      if ptr == NULL {
        return;
      }
      ghost var i := Find(bs, ptr - HEADER);
      FreeLive(bs, ptr, base, brk);
      FreeFacts(mem, bs, i, base, brk);
      assert ptr <= final + HEADER && ptr >= start + HEADER;
      var entr := ptr - HEADER;
      assert mem[entr + FREE] == 0;
      mem := Put(mem, entr + FREE, 1);
      var merged := Coalesce(entr, old(mem), i);
      if !merged {
        Insert(entr, old(mem), i);
      }
      if merged {
        FreeHead(old(mem), bs, i, base, brk);
      }
      FreeLayout(old(mem), mem, bs, i, ptr, base, brk);
      bs := FreeBlocks(bs, i);
    }

    // Finds the blocks on either side of entr through their footers and headers and merges with those that are free.
    method Coalesce(entr: int, ghost m: Memory, ghost i: nat) returns (merged: bool)
      requires i < |bs| && !bs[i].free && entr == bs[i].addr && FreeView(m, bs, i, base)
      requires mem == m[entr + FREE := 1]
      requires start == base && final == LastAddr(bs)
      modifies this`mem, this`head, this`final
      ensures merged <==> FirstMerged(bs, i) < LastMerged(bs, i)
      ensures merged ==> FreedStores(m, mem, bs, i)
      ensures !merged ==> mem == old(mem)
      ensures head == if i < LastMerged(bs, i) && FirstMerged(bs, i) == i && old(head) == bs[i + 1].addr then entr else old(head)
      ensures final == if LastMerged(bs, i) == |bs| - 1 then Merged(bs, i).addr else old(final)
    {
      hide Fields, Relinked, Neighbours, FirstFree, LastFree;
      var previous, next := Adjacent(entr, m, i);
      ghost var p, n := LastFree(bs[..FirstMerged(bs, i)], NULL), FirstFree(bs[LastMerged(bs, i) + 1..], NULL);
      if previous != NULL && mem[previous + FREE] != 0 && (next == NULL || mem[next + FREE] == 0) {
        MergePrevious(entr, previous, m, bs[i - 1], bs[i], p, n);
        return true;
      } else if (previous == NULL || mem[previous + FREE] == 0) && next != NULL && mem[next + FREE] != 0 {
        MergeNext(entr, next, m, bs[i], bs[i + 1], p, n);
        return true;
      } else if previous != NULL && mem[previous + FREE] != 0 && next != NULL && mem[next + FREE] != 0 {
        MergeBoth(entr, previous, next, m, bs[i - 1], bs[i], bs[i + 1], p, n);
        return true;
      }
      return false;
    }

    method Adjacent(entr: int, ghost m: Memory, ghost i: nat) returns (previous: int, next: int)
      requires i < |bs| && !bs[i].free && entr == bs[i].addr && 0 < base && OwnFields(m, bs, i) && Surroundings(m, bs, i, base)
      requires mem == m[entr + FREE := 1]
      requires start == base && final == LastAddr(bs)
      ensures previous == if i > 0 then bs[i - 1].addr else NULL
      ensures next == if i + 1 < |bs| then bs[i + 1].addr else NULL
      ensures previous != NULL ==> 0 < previous && previous + OVERHEAD <= |mem| && (mem[previous + FREE] != 0 <==> bs[i - 1].free)
      ensures next != NULL ==> 0 < next && next + OVERHEAD <= |mem| && (mem[next + FREE] != 0 <==> bs[i + 1].free)
    {
      previous, next := NULL, NULL;
      if entr > start {
        var prevend := entr - FOOTER;
        previous := prevend - mem[prevend] - HEADER;
      }
      if entr < final {
        next := entr + HEADER + mem[entr + SIZE] + FOOTER;
      }
    }

    // entr disappears into the free block before it.
    method MergePrevious(entr: int, previous: int, ghost m: Memory, ghost x: Block, ghost b: Block, ghost p: int, ghost n: int)
      requires entr == b.addr && previous == x.addr && x.End() == b.addr && x.free && x.size >= 8 && b.size >= 8
      requires Fields(m, x, p, n) && Fields(m, b, NULL, NULL) && mem == m[entr + FREE := 1]
      requires Neighbours(m, x.addr, b.End(), p, n, x.addr, x.addr)
      modifies this`mem, this`final
      ensures var mg := Block(x.addr, b.End() - x.addr - OVERHEAD, true);
        Fields(mem, mg, p, n) && Relinked(m, mem, mg.addr, mg.End(), p, n, mg.addr, mg.addr)
      ensures final == if old(final) == entr then previous else old(final)
    {
      ghost var mg := Block(x.addr, b.End() - x.addr - OVERHEAD, true);
      assert mem[previous + SIZE] == x.size && mem[entr + SIZE] == b.size;
      Resize(previous, mem[previous + SIZE] + FOOTER + HEADER + mem[entr + SIZE]);
      assert Fields(mem, mg, p, n);
      hide Fields;
      if final == entr {
        final := previous;
      }
    }

    // The free block after entr disappears into it; entr takes its place in the list.
    method MergeNext(entr: int, next: int, ghost m: Memory, ghost b: Block, ghost y: Block, ghost p: int, ghost n: int)
      requires entr == b.addr && next == y.addr && b.End() == y.addr && y.free && b.size >= 8 && y.size >= 8
      requires Fields(m, b, NULL, NULL) && Fields(m, y, p, n) && mem == m[entr + FREE := 1]
      requires Neighbours(m, b.addr, y.End(), p, n, y.addr, y.addr)
      modifies this`mem, this`head, this`final
      ensures var mg := Block(b.addr, y.End() - b.addr - OVERHEAD, true);
        Fields(mem, mg, p, n) && Relinked(m, mem, mg.addr, mg.End(), p, n, mg.addr, mg.addr)
      ensures head == if old(head) == next then entr else old(head)
      ensures final == if old(final) == next then entr else old(final)
    {
      hide Relinked;
      if head == next {
        head := entr;
      }
      if final == next {
        final := entr;
      }
      var beforenext, afternext := mem[next + PREV], mem[next + NEXT];
      assert mem[entr + SIZE] == b.size && mem[next + SIZE] == y.size;
      Resize(entr, mem[entr + SIZE] + FOOTER + HEADER + mem[next + SIZE]);
      ghost var m1 := mem;
      LinkIn(entr, beforenext, afternext);
      MergeNextStores(m, m1, mem, b, y, p, n);
    }

    // entr and the free block after it both disappear into the free block before it.
    method MergeBoth(entr: int, previous: int, next: int, ghost m: Memory,
                     ghost x: Block, ghost b: Block, ghost y: Block, ghost p: int, ghost n: int)
      requires entr == b.addr && previous == x.addr && next == y.addr && x.End() == b.addr && b.End() == y.addr
      requires x.free && y.free && x.size >= 8 && b.size >= 8 && y.size >= 8
      requires Fields(m, x, p, y.addr) && Fields(m, b, NULL, NULL) && Fields(m, y, x.addr, n) && mem == m[entr + FREE := 1]
      requires Neighbours(m, x.addr, y.End(), p, n, x.addr, y.addr)
      modifies this`mem, this`final
      ensures var mg := Block(x.addr, y.End() - x.addr - OVERHEAD, true);
        Fields(mem, mg, p, n) && Relinked(m, mem, mg.addr, mg.End(), p, n, mg.addr, mg.addr)
      ensures final == if old(final) == next then previous else old(final)
    {
      hide Relinked;
      assert mem[previous + SIZE] == x.size && mem[entr + SIZE] == b.size && mem[next + SIZE] == y.size;
      assert m[next + NEXT] == n && m[previous + PREV] == p && m[previous + FREE] == 1;
      assert n != NULL ==> y.End() <= n && n + OVERHEAD <= |m|;
      hide Fields, Neighbours;
      if final == next {
        final := previous;
      }
      Resize(previous, mem[previous + SIZE] + 2 * FOOTER + 2 * HEADER + mem[entr + SIZE] + mem[next + SIZE]);
      ghost var m1 := mem;
      mem := Put(mem, previous + NEXT, mem[next + NEXT]);
      var afternext := mem[next + NEXT];
      if afternext != NULL {
        mem := Put(mem, afternext + PREV, previous);
      }
      MergeBothStores(m, m1, mem, x, b, y, p, n);
    }

    // Neither neighbour is free: entr is put into the list at its address.
    method Insert(entr: int, ghost m: Memory, ghost i: nat)
      requires Layout(m, bs, base, brk) && head == FirstFree(bs, NULL)
      requires i < |bs| && entr == bs[i].addr && !bs[i].free && FirstMerged(bs, i) == i == LastMerged(bs, i)
      requires 0 <= entr + FREE < |m| && mem == m[entr + FREE := 1]
      modifies this`mem, this`head
      ensures FreedStores(m, mem, bs, i)
      ensures head == if LastFree(bs[..FirstMerged(bs, i)], NULL) == NULL then Merged(bs, i).addr else old(head)
    {
      hide Layout, Surroundings, FirstFree, LastFree;
      FreeFacts(m, bs, i, base, brk);
      if head == NULL {
        NoPlace(m, bs, i, base, brk);
        head := entr;
        return;
      }
      var p := FindPlace(entr, m, i);
      if p < entr {
        mem := Put(mem, p + NEXT, entr);
        mem := Put(mem, entr + PREV, p);
        assert mem[entr + NEXT] == NULL;
        return;
      }
      var before := mem[p + PREV];
      if p == head {
        assert mem[p + PREV] == NULL;
        head := entr;
      }
      LinkIn(entr, before, p);
    }

    // The walk for the place of entr: the last free block before it if none follows, else the first one after it.
    method FindPlace(entr: int, ghost m: Memory, ghost i: nat) returns (p: int)
      requires Layout(m, bs, base, brk) && head == FirstFree(bs, NULL) && head != NULL
      requires i < |bs| && entr == bs[i].addr && !bs[i].free
      requires 0 <= entr + FREE < |m| && mem == m[entr + FREE := 1]
      ensures p != NULL
      ensures p < entr ==> p == LastFree(bs[..i], NULL) && FirstFree(bs[i + 1..], NULL) == NULL
      ensures p >= entr ==> p == FirstFree(bs[i + 1..], NULL)
    {
      hide Tiles, Coalesced, Rep, FirstFree, LastFree;
      assert bs[0..] == bs;
      p := head;
      ghost var k := FirstFreeAt(bs, 0);
      WalkFacts(m, bs, k, i, base, brk);
      while mem[p + NEXT] != NULL
        invariant k < |bs| && bs[k].free && p == bs[k].addr && (p < entr <==> k < i) && p != entr
        invariant 0 < p && p + OVERHEAD <= |mem|
        invariant mem[p + FREE] == 1 && mem[p + NEXT] == FirstFree(bs[k + 1..], NULL)
        invariant forall j :: i <= j < k ==> !bs[j].free
        decreases |bs| - k
        modifies {}
      {
        assert mem[p + FREE] == 1;
        if p > entr {
          break;
        }
        p := mem[p + NEXT];
        k := FirstFreeAt(bs, k + 1);
        WalkFacts(m, bs, k, i, base, brk);
      }
      if k < i {
        NoFreeAfter(bs, k + 1, base, brk);
        LastFreeIs(bs, k, i);
        FirstFreeIs(bs, i + 1, |bs|);
      } else {
        FirstFreeIs(bs, i + 1, k);
      }
    }

    method Calloc(num: nat, size: nat, grows: bool) returns (p: int)
      requires Valid()
      modifies this
      ensures Valid()
      ensures (bs, p) == MallocBlocks(old(bs), old(brk), num * size, grows)
      ensures brk == NewBreak(old(bs), old(brk), num * size, grows)
      ensures PayloadsKept(old(mem), mem, old(bs), NULL)
      ensures p != NULL ==> 0 < p && p + num * size <= |mem| && forall x :: p <= x < p + num * size ==> mem[x] == 0
      ensures p == NULL <==> num * size == 0 || (!grows && !Fits(old(bs), Rounded(num * size)))
      ensures p == NULL ==> mem == old(mem) && bs == old(bs) && brk == old(brk)
      ensures p != NULL ==> IsLive(bs, p) && HandedOut(old(bs), old(brk), bs, brk, BlockOf(bs, p), Rounded(num * size))
    {
      hide Tiles, Coalesced, Rep, FirstFree, LastFree, PayloadsKept, MallocBlocks, HandedOut, Fits;
      var n := num * size;
      MallocLive(bs, n, grows, base, brk);
      p := Malloc(n, grows);
      if p == NULL {
        return;
      }
      ghost var b :| b in Live(bs) && b.Payload() == p && NewBlock(b, old(bs), n, base) && Live(bs) == Live(old(bs)) + {b};
      ghost var m := mem;
      Clear(p, n, b);
      KeptTwice(old(mem), m, mem, old(bs), bs, b, n, base, old(brk));
    }

    // memset over a block its caller owns.
    method Clear(p: int, n: nat, ghost b: Block)
      requires Valid() && b in Live(bs) && p == b.Payload() && n <= b.size
      modifies this`mem
      ensures Valid() && PayloadsKept(old(mem), mem, bs, p)
      ensures 0 < p && p + n <= |mem| && forall x :: p <= x < p + n ==> mem[x] == 0
    {
      hide Tiles, Coalesced, Rep, FirstFree, LastFree, PayloadsKept;
      PointerFacts(mem, bs, b, base, brk);
      mem := MemSet(mem, p, n);
      WriteLayout(old(mem), mem, bs, b, base, brk);
    }

    method Realloc(ptr: int, request: nat, grows: bool) returns (p: int)
      requires Valid() && (ptr == NULL || IsLive(bs, ptr))
      modifies this
      ensures Valid()
      ensures Step(old(bs), old(brk), ReallocCall(ptr, request, grows)) == Outcome.Heap(bs, brk)
      ensures ptr == NULL ==> (bs, p) == MallocBlocks(old(bs), old(brk), request, grows)
      ensures ptr == NULL && p != NULL ==>
        IsLive(bs, p) && HandedOut(old(bs), old(brk), bs, brk, BlockOf(bs, p), Rounded(request))
      ensures ptr != NULL && request == 0 ==> p == NULL && bs == Freed(old(bs), ptr) && brk == old(brk)
      ensures ptr != NULL && request == 0 ==> Live(bs) == Live(old(bs)) - {BlockOf(old(bs), ptr)}
      // It fails exactly if malloc would, and then changes nothing.
      ensures request > 0 ==> (p == NULL <==> !grows && !Fits(old(bs), Rounded(request)))
      ensures request > 0 && p == NULL ==> mem == old(mem) && bs == old(bs) && brk == old(brk)
      // Otherwise the block at ptr is exchanged for one of at least the requested size, with the contents carried over.
      ensures ptr != NULL && request > 0 && p != NULL ==>
        && IsLive(bs, p)
        && Moved(old(bs), bs, BlockOf(old(bs), ptr), BlockOf(bs, p), request)
        && Placed(old(bs), old(brk), Rounded(request), BlockOf(bs, p), brk)
        && Carried(old(mem), mem, BlockOf(old(bs), ptr), BlockOf(bs, p), Rounded(request))
      ensures PayloadsKept(old(mem), mem, old(bs), ptr)
    {
      hide WellFormed, Rep, FirstFree, LastFree, PayloadsKept, FreeBlocks, MallocBlocks, Carried, Fits, Placed, Live, ReallocBlocks;
      if ptr == NULL {
        p := Malloc(request, grows);
        return;
      }
      if request == 0 {
        Free(ptr);
        return NULL;
      }
      var total := (request + HEADER + FOOTER + 15) / 16;
      total := total * 16;
      var size := total - HEADER - FOOTER;
      RoundedTwice(request);
      p := Exchange(ptr, request, size, grows);
    }

    // The end of realloc: a new block with the old contents, and the old block is given back.
    method Exchange(ptr: int, ghost request: nat, size: nat, grows: bool) returns (p: int)
      requires Valid() && ptr != NULL && IsLive(bs, ptr) && request > 0 && size == Rounded(request) == Rounded(size)
      modifies this
      ensures Valid()
      ensures ReallocBlocks(old(bs), old(brk), ptr, request, grows) == Outcome.Heap(bs, brk)
      ensures p == NULL <==> !grows && !Fits(old(bs), size)
      ensures p == NULL ==> mem == old(mem) && bs == old(bs) && brk == old(brk)
      ensures p != NULL ==>
        && IsLive(bs, p)
        && Moved(old(bs), bs, BlockOf(old(bs), ptr), BlockOf(bs, p), request)
        && Placed(old(bs), old(brk), size, BlockOf(bs, p), brk)
        && Carried(old(mem), mem, BlockOf(old(bs), ptr), BlockOf(bs, p), size)
      ensures PayloadsKept(old(mem), mem, old(bs), ptr)
    {
      hide WellFormed, Rep, FirstFree, LastFree, PayloadsKept, FreeBlocks, MallocBlocks, Carried, Fits, Placed;
      LayoutKeepsPayloads(mem, bs, ptr, base, brk);
      p := MallocCopy(ptr, size, grows);
      if p == NULL {
        return NULL;
      }
      ghost var a, b, bs1, m1, hi1 := BlockOf(bs, ptr), BlockOf(bs, p), bs, mem, brk;
      FreeLive(bs, ptr, base, brk);
      Free(ptr);
      LiveOne(bs, b, base, brk);
      KeptThroughFree(old(mem), m1, mem, old(bs), bs1, b, ptr, base, old(brk));
      CarriedThroughFree(old(mem), m1, mem, bs1, a, b, size, base, hi1);
    }

    // The part of realloc before free: a new block, and the old contents copied into it.
    method MallocCopy(ptr: int, size: nat, grows: bool) returns (p: int)
      requires Valid() && IsLive(bs, ptr) && size > 0
      modifies this
      ensures Valid()
      ensures (bs, p) == MallocBlocks(old(bs), old(brk), size, grows)
      ensures brk == NewBreak(old(bs), old(brk), size, grows)
      ensures p == NULL <==> !grows && !Fits(old(bs), Rounded(size))
      ensures p == NULL ==> mem == old(mem) && bs == old(bs) && brk == old(brk)
      ensures p != NULL ==> IsLive(bs, p) && HandedOut(old(bs), old(brk), bs, brk, BlockOf(bs, p), Rounded(size))
      ensures p != NULL ==>
        && IsLive(bs, p) && IsLive(bs, ptr) && BlockOf(bs, ptr) == BlockOf(old(bs), ptr)
        && NewBlock(BlockOf(bs, p), old(bs), size, base)
        && Live(bs) == Live(old(bs)) + {BlockOf(bs, p)}
        && Carried(old(mem), mem, BlockOf(bs, ptr), BlockOf(bs, p), size)
      ensures PayloadsKept(old(mem), mem, old(bs), NULL)
    {
      hide WellFormed, Rep, FirstFree, LastFree, PayloadsKept, MallocBlocks, Carried, NewBreak, HandedOut, Fits;
      var entr := ptr - HEADER;
      ghost var a := BlockOf(bs, ptr);
      PointerFacts(mem, bs, a, base, brk);
      assert entr >= start && entr <= final;
      assert mem[entr + FREE] == 0;
      MallocLive(bs, size, grows, base, brk);
      p := Malloc(size, grows);
      if p == NULL {
        return NULL;
      }
      ghost var b :| b in Live(bs) && b.Payload() == p && NewBlock(b, old(bs), size, base) && Live(bs) == Live(old(bs)) + {b};
      PointerFacts(mem, bs, a, base, brk);
      PointerFacts(mem, bs, b, base, brk);
      ghost var m := mem;
      var n := if size < mem[entr + SIZE] then size else mem[entr + SIZE];
      mem := MemCpy(mem, p, ptr, n);
      WriteLayout(m, mem, bs, b, base, brk);
      KeptTwice(old(mem), m, mem, old(bs), bs, b, size, base, old(brk));
      LiveOne(bs, a, base, brk);
      LiveOne(bs, b, base, brk);
      CopyMade(old(mem), m, old(bs), a, b, n, size, base, old(brk));
    }
  }

  // Live block b has taken the place of live block a.
  ghost predicate Moved(bs: seq<Block>, bs': seq<Block>, a: Block, b: Block, request: int) {
    request <= b.size && b.addr != a.addr && Live(bs') == Live(bs) - {a} + {b}
  }

  // b holds the contents of a, up to the smaller of the old capacity and the new size.
  ghost predicate Carried(m: Memory, m': Memory, a: Block, b: Block, size: int) {
    var n := if size < a.size then size else a.size;
    && 0 <= n <= b.size && 0 <= a.Payload() && a.Payload() + n <= |m| && 0 <= b.Payload() && b.Payload() + n <= |m'|
    && m'[b.Payload()..b.Payload() + n] == m[a.Payload()..a.Payload() + n]
  }

  // The copy into the new block b carries what a held before malloc.
  lemma CopyCarries(m: Memory, m1: Memory, bs: seq<Block>, a: Block, n: nat, lo: int, hi: int)
    requires WellFormed(bs, lo, hi) && 0 < lo && PayloadsKept(m, m1, bs, NULL) && a in Live(bs) && n <= a.size
    requires 0 < a.Payload() && a.Payload() + n <= |m| && a.Payload() + n <= |m1|
    ensures m1[a.Payload()..a.Payload() + n] == m[a.Payload()..a.Payload() + n]
  {
  }

  lemma CopyMade(m: Memory, m1: Memory, bs: seq<Block>, a: Block, b: Block, n: nat, size: int, lo: int, hi: int)
    requires WellFormed(bs, lo, hi) && 0 < lo && PayloadsKept(m, m1, bs, NULL) && a in Live(bs)
    requires n == (if size < a.size then size else a.size) && size <= b.size
    requires 0 < a.Payload() && a.End() <= |m| && a.End() <= |m1| && 0 < b.Payload() && b.End() <= |m1|
    ensures Carried(m, MemCpy(m1, b.Payload(), a.Payload(), n), a, b, size)
  {
    CopyCarries(m, m1, bs, a, n, lo, hi);
    hide WellFormed, PayloadsKept, Live, MemCpy;
  }

  // free of a leaves in b what has been copied there.
  lemma CarriedThroughFree(m: Memory, m1: Memory, m2: Memory, bs: seq<Block>, a: Block, b: Block, size: int, lo: int, hi: int)
    requires Layout(m1, bs, lo, hi) && b in Live(bs) && b.addr != a.addr
    requires Carried(m, m1, a, b, size) && PayloadsKept(m1, m2, bs, a.Payload()) && |m2| == |m1|
    ensures Carried(m, m2, a, b, size)
  {
  }

  lemma PointerFacts(m: Memory, bs: seq<Block>, b: Block, lo: int, hi: int)
    requires Layout(m, bs, lo, hi) && b in Live(bs)
    ensures lo <= b.addr <= LastAddr(bs) && b.End() <= |m| && b.size >= 8
    ensures m[b.addr + FREE] == 0 && m[b.addr + SIZE] == b.size
  {
    var k :| 0 <= k < |bs| && bs[k] == b;
    BlockFacts(m, bs, k, lo, hi);
    if k < |bs| - 1 {
      TilesApart(bs, k, |bs| - 1, lo, hi);
    }
  }

  // A caller writing to the payload of its own block disturbs nothing.
  lemma WriteLayout(m: Memory, m': Memory, bs: seq<Block>, b: Block, lo: int, hi: int)
    requires Layout(m, bs, lo, hi) && b in Live(bs)
    requires |m'| == |m| && forall x :: 0 <= x < |m| && !InPayload(b, x) ==> m'[x] == m[x]
    ensures Layout(m', bs, lo, hi)
    ensures PayloadsKept(m, m', bs, b.Payload())
  {
    var k :| 0 <= k < |bs| && bs[k] == b;
    BlockFacts(m, bs, k, lo, hi);
    assert bs[..k] + [b] + bs[k + 1..] == bs;
    var p, n := LastFree(bs[..k], NULL), FirstFree(bs[k + 1..], NULL);
    CutNeighbours(m, bs, k, k, lo, hi);
    OneBlock(m', b, p, n);
    hide Tiles, Coalesced, Rep, FirstFree, LastFree;
    Commit(m, m', bs, k, k + 1, [b], b.Payload(), lo, hi);
  }

  // What malloc kept for everyone is kept when the new owner of b writes to it.
  lemma KeptTwice(m: Memory, m1: Memory, m2: Memory, bs: seq<Block>, bs1: seq<Block>, b: Block, request: nat, lo: int, hi: int)
    requires WellFormed(bs, lo, hi) && 0 < lo
    requires PayloadsKept(m, m1, bs, NULL) && PayloadsKept(m1, m2, bs1, b.Payload())
    requires Live(bs1) == Live(bs) + {b} && NewBlock(b, bs, request, lo)
    ensures PayloadsKept(m, m2, bs, NULL)
  {
    forall c, x | c in bs && !c.free && InPayload(c, x)
      ensures 0 <= x < |m| && x < |m2| && m2[x] == m[x]
    {
      assert c in Live(bs);
      assert c in Live(bs1);
      KeptByte(m, m1, bs, c, x, lo, hi);
    }
  }

  lemma KeptByte(m: Memory, m': Memory, bs: seq<Block>, c: Block, x: int, lo: int, hi: int)
    requires WellFormed(bs, lo, hi) && 0 < lo && PayloadsKept(m, m', bs, NULL) && c in Live(bs) && InPayload(c, x)
    ensures 0 <= x < |m| && x < |m'| && m'[x] == m[x]
  {
    var k :| 0 <= k < |bs| && bs[k] == c;
    TilesAt(bs, k, lo, hi);
  }

  // What malloc, a copy into its block b and free of the block a together keep for everyone but a.
  lemma KeptThroughFree(m: Memory, m1: Memory, m2: Memory, bs: seq<Block>, bs1: seq<Block>, b: Block, ptr: int, lo: int, hi: int)
    requires WellFormed(bs, lo, hi) && 0 < lo
    requires PayloadsKept(m, m1, bs, NULL) && PayloadsKept(m1, m2, bs1, ptr) && Live(bs1) == Live(bs) + {b}
    ensures PayloadsKept(m, m2, bs, ptr)
  {
    forall c, x | c in bs && !c.free && c.Payload() != ptr && InPayload(c, x)
      ensures 0 <= x < |m| && x < |m2| && m2[x] == m[x]
    {
      assert c in Live(bs);
      assert c in Live(bs1);
      KeptByte(m, m1, bs, c, x, lo, hi);
    }
  }

  lemma NoFreeAfter(bs: seq<Block>, k: nat, lo: int, hi: int)
    requires 0 < lo && Tiles(bs, lo, hi) && k <= |bs| && FirstFree(bs[k..], NULL) == NULL
    ensures forall j :: k <= j < |bs| ==> !bs[j].free
  {
    TilesSplit(bs, k, lo, hi);
    NoFree(bs[k..], Start(bs, k, hi), hi);
    assert forall j :: k <= j < |bs| ==> bs[j] == bs[k..][j - k];
  }

  lemma WalkFacts(m: Memory, bs: seq<Block>, k: nat, i: nat, lo: int, hi: int)
    requires Layout(m, bs, lo, hi) && k < |bs| && i < |bs| && bs[k].free && !bs[i].free
    ensures 0 < bs[k].addr && bs[k].End() <= |m| && bs[k].size >= 8
    ensures m[bs[k].addr + FREE] == 1 && m[bs[k].addr + NEXT] == FirstFree(bs[k + 1..], NULL)
    ensures (bs[k].addr < bs[i].addr <==> k < i) && bs[k].addr != bs[i].addr
    ensures k < i ==> bs[k].End() <= bs[i].addr
    ensures i < k ==> bs[i].End() <= bs[k].addr
  {
    BlockFacts(m, bs, k, lo, hi);
    TilesAt(bs, i, lo, hi);
    if k < i {
      TilesApart(bs, k, i, lo, hi);
    } else {
      TilesApart(bs, i, k, lo, hi);
    }
  }

  lemma NoPlace(m: Memory, bs: seq<Block>, i: nat, lo: int, hi: int)
    requires Layout(m, bs, lo, hi) && i < |bs| && FirstFree(bs, NULL) == NULL
    ensures LastFree(bs[..i], NULL) == NULL && FirstFree(bs[i + 1..], NULL) == NULL
  {
    assert bs[0..] == bs;
    NoFreeAfter(bs, 0, lo, hi);
    FirstFreeIs(bs, i + 1, |bs|);
    TilesSplit(bs, i, lo, hi);
    NoFree(bs[..i], lo, Start(bs, i, hi));
  }

  // A free block, its neighbours in the list and the cells through which they are linked.
  lemma Around(m: Memory, bs: seq<Block>, i: nat, lo: int, hi: int)
    requires Layout(m, bs, lo, hi) && i < |bs|
    ensures Linked(m, bs[i], LastFree(bs[..i], NULL), FirstFree(bs[i + 1..], NULL))
    ensures bs[i].size >= 8 && bs[i].size % 16 == 8 && bs[i].End() <= hi
    ensures bs[i].addr == LastAddr(bs) <==> i == |bs| - 1
  {
    RepAt(m, bs, i);
    TilesAt(bs, i, lo, hi);
    TilesSplit(bs, i, lo, hi);
    TilesSplit(bs, i + 1, lo, hi);
    if i < |bs| - 1 {
      TilesApart(bs, i, |bs| - 1, lo, hi);
    }
    FreeEnds(bs[..i], NULL, NULL, lo, bs[i].addr);
    FreeEnds(bs[i + 1..], NULL, NULL, bs[i].End(), hi);
  }

  lemma SplitLayout(m: Memory, m': Memory, bs: seq<Block>, i: nat, size: int, lo: int, hi: int)
    requires Layout(m, bs, lo, hi) && i < |bs| && bs[i].free
    requires size >= 8 && size % 16 == 8 && bs[i].size >= THRESHOLD + size + OVERHEAD
    requires Fields(m', SplitPair(bs[i], size)[0], NULL, NULL)
    requires Fields(m', SplitPair(bs[i], size)[1], LastFree(bs[..i], NULL), FirstFree(bs[i + 1..], NULL))
    requires var y := SplitPair(bs[i], size)[1].addr;
      Relinked(m, m', bs[i].addr, bs[i].End(), LastFree(bs[..i], NULL), FirstFree(bs[i + 1..], NULL), y, y)
    ensures var bs' := bs[..i] + SplitPair(bs[i], size) + bs[i + 1..];
      && Layout(m', bs', lo, hi)
      && FirstFree(bs', NULL) == (if FirstFree(bs, NULL) == bs[i].addr then SplitPair(bs[i], size)[1].addr else FirstFree(bs, NULL))
      && LastAddr(bs') == (if i == |bs| - 1 then SplitPair(bs[i], size)[1].addr else LastAddr(bs))
    ensures PayloadsKept(m, m', bs, NULL)
  {
    SplitWellFormed(bs, i, size, lo, hi);
    var pair := SplitPair(bs[i], size);
    PairFacts(m', bs[i], size, LastFree(bs[..i], NULL), FirstFree(bs[i + 1..], NULL));
    hide Tiles, Coalesced, Rep, FirstFree, LastFree;
    Commit(m, m', bs, i, i + 1, pair, NULL, lo, hi);
    HeadOf(bs, i, pair[1].addr, lo, hi);
  }

  lemma TakeLayout(m: Memory, m': Memory, bs: seq<Block>, i: nat, lo: int, hi: int)
    requires Layout(m, bs, lo, hi) && i < |bs| && bs[i].free
    requires Fields(m', bs[i].(free := false), NULL, NULL)
    requires var p, n := LastFree(bs[..i], NULL), FirstFree(bs[i + 1..], NULL); Relinked(m, m', bs[i].addr, bs[i].End(), p, n, n, p)
    ensures var bs' := bs[..i] + [bs[i].(free := false)] + bs[i + 1..];
      && Layout(m', bs', lo, hi)
      && FirstFree(bs', NULL) == (if FirstFree(bs, NULL) == bs[i].addr then FirstFree(bs[i + 1..], NULL) else FirstFree(bs, NULL))
      && LastAddr(bs') == LastAddr(bs)
    ensures PayloadsKept(m, m', bs, NULL)
  {
    TakeWellFormed(bs, i, lo, hi);
    var b := bs[i].(free := false);
    OneBlock(m', b, LastFree(bs[..i], NULL), FirstFree(bs[i + 1..], NULL));
    hide Tiles, Coalesced, Rep, FirstFree, LastFree;
    Commit(m, m', bs, i, i + 1, [b], NULL, lo, hi);
    HeadOf(bs, i, FirstFree(bs[i + 1..], NULL), lo, hi);
  }

  // A block is the head of the list exactly when nothing before it is free.
  lemma HeadOf(bs: seq<Block>, i: nat, n: int, lo: int, hi: int)
    requires 0 < lo && Tiles(bs, lo, hi) && i < |bs| && bs[i].free
    ensures FirstFree(bs[..i], n) == if FirstFree(bs, NULL) == bs[i].addr then n else FirstFree(bs, NULL)
  {
    TilesSplit(bs, i, lo, hi);
    assert bs == bs[..i] + bs[i..];
    FirstFreeConcat(bs[..i], bs[i..], NULL);
    FreeEnds(bs[..i], NULL, n, lo, bs[i].addr);
    FreeEnds(bs[..i], NULL, bs[i].addr, lo, bs[i].addr);
  }

  lemma PairFacts(m: Memory, b: Block, size: int, p: int, n: int)
    ensures FirstFree(SplitPair(b, size), n) == LastFree(SplitPair(b, size), p) == SplitPair(b, size)[1].addr
    ensures Rep(m, SplitPair(b, size), p, n) <==>
      Fields(m, SplitPair(b, size)[0], NULL, NULL) && Fields(m, SplitPair(b, size)[1], p, n)
  {
    var pair := SplitPair(b, size);
    assert pair[1..] == [pair[1]];
    assert [pair[1]][1..] == [];
    assert FirstFree([pair[1]], n) == pair[1].addr && LastFree([pair[1]], p) == pair[1].addr;
    assert Rep(m, [pair[1]], p, n) <==> Fields(m, pair[1], p, n);
  }

  // Where blocks i..j lie, and how far away the list neighbours on either side are.
  lemma SegmentBounds(bs: seq<Block>, i: nat, j: nat, lo: int, hi: int)
    requires 0 < lo && Tiles(bs, lo, hi) && i < j <= |bs|
    ensures Start(bs, i, hi) == bs[i].addr && Start(bs, j, hi) == bs[j - 1].End()
    ensures lo <= bs[i].addr && bs[i].addr + OVERHEAD <= bs[j - 1].End() && bs[j - 1].End() <= hi
    ensures Tiles(bs[..i], lo, bs[i].addr) && Tiles(bs[j..], bs[j - 1].End(), hi)
    ensures LastFree(bs[..i], NULL) != NULL ==> lo <= LastFree(bs[..i], NULL) && LastFree(bs[..i], NULL) + OVERHEAD <= bs[i].addr
    ensures FirstFree(bs[j..], NULL) != NULL ==>
      bs[j - 1].End() <= FirstFree(bs[j..], NULL) && FirstFree(bs[j..], NULL) + OVERHEAD <= hi
  {
    TilesAt(bs, i, lo, hi);
    TilesAt(bs, j - 1, lo, hi);
    if i < j - 1 {
      TilesApart(bs, i, j - 1, lo, hi);
    }
    TilesSplit(bs, i, lo, hi);
    TilesSplit(bs, j, lo, hi);
    FreeEnds(bs[..i], NULL, NULL, lo, bs[i].addr);
    FreeEnds(bs[j..], NULL, NULL, bs[j - 1].End(), hi);
  }

  // One replacement of blocks i..j by the blocks s, as Splice, in the terms malloc and free know.
  lemma Commit(m: Memory, m': Memory, bs: seq<Block>, i: nat, j: nat, s: seq<Block>, ptr: int, lo: int, hi: int)
    requires Layout(m, bs, lo, hi) && i < j <= |bs|
    requires forall k :: i <= k < j ==> bs[k].free || bs[k].Payload() == ptr
    requires WellFormed(bs[..i] + s + bs[j..], lo, hi)
    requires Rep(m', s, LastFree(bs[..i], NULL), FirstFree(bs[j..], NULL))
    requires Relinked(m, m', bs[i].addr, bs[j - 1].End(), LastFree(bs[..i], NULL), FirstFree(bs[j..], NULL),
                      FirstFree(s, FirstFree(bs[j..], NULL)), LastFree(s, LastFree(bs[..i], NULL)))
    ensures Layout(m', bs[..i] + s + bs[j..], lo, hi)
    ensures FirstFree(bs[..i] + s + bs[j..], NULL) == FirstFree(bs[..i], FirstFree(s, FirstFree(bs[j..], NULL)))
    ensures PayloadsKept(m, m', bs, ptr)
  {
    SegmentBounds(bs, i, j, lo, hi);
    assert OnlySegment(m, m', bs[..i], bs[j..], lo, bs[i].addr, bs[j - 1].End(), hi);
    assert PayloadsKept(m, m', bs, ptr) by {
      SegmentKeepsPayloads(m, m', bs, i, j, ptr, lo, hi);
    }
    assert Rep(m, bs[..i] + bs[i..j] + bs[j..], NULL, NULL) by {
      assert bs == bs[..i] + bs[i..j] + bs[j..];
    }
    Splice(m, m', bs[..i], bs[i..j], s, bs[j..], lo, bs[i].addr, bs[j - 1].End(), hi);
  }

  // The stores of MergeNext: the size fields, then the links.
  lemma MergeNextStores(m: Memory, m1: Memory, m2: Memory, b: Block, y: Block, p: int, n: int)
    requires b.End() == y.addr && b.size >= 8 && y.size >= 8 && |m1| == |m| == |m2|
    requires Neighbours(m, b.addr, y.End(), p, n, y.addr, y.addr)
    requires var size := y.End() - b.addr - OVERHEAD;
      && m1[b.addr] == size && m1[b.addr + FREE] == 1 && m1[b.addr + HEADER + size] == size
      && forall x :: 0 <= x < |m| && x != b.addr && x != b.addr + FREE && x != b.addr + HEADER + size ==> m1[x] == m[x]
    requires m2[b.addr + PREV] == p && m2[b.addr + NEXT] == n
    requires (p != NULL ==> m2[p + NEXT] == b.addr) && (n != NULL ==> m2[n + PREV] == b.addr)
    requires forall x :: 0 <= x < |m1| && x != b.addr + PREV && x != b.addr + NEXT ==>
      (p == NULL || x != p + NEXT) && (n == NULL || x != n + PREV) ==> m2[x] == m1[x]
    ensures var mg := Block(b.addr, y.End() - b.addr - OVERHEAD, true);
      Fields(m2, mg, p, n) && Relinked(m, m2, mg.addr, mg.End(), p, n, mg.addr, mg.addr)
  {
  }

  // The stores of MergeBoth, likewise; its link back stays.
  lemma MergeBothStores(m: Memory, m1: Memory, m2: Memory, x: Block, b: Block, y: Block, p: int, n: int)
    requires x.End() == b.addr && b.End() == y.addr && x.size >= 8 && b.size >= 8 && y.size >= 8
    requires |m1| == |m| == |m2| && Neighbours(m, x.addr, y.End(), p, n, x.addr, y.addr) && m[x.addr + PREV] == p
    requires var size := y.End() - x.addr - OVERHEAD;
      && m1[x.addr] == size && m1[x.addr + FREE] == 1 && m1[x.addr + HEADER + size] == size
      && forall a :: 0 <= a < |m| && a != x.addr && a != b.addr + FREE && a != x.addr + HEADER + size ==> m1[a] == m[a]
    requires m2[x.addr + NEXT] == n && (n != NULL ==> m2[n + PREV] == x.addr)
    requires forall a :: 0 <= a < |m1| && a != x.addr + NEXT && (n == NULL || a != n + PREV) ==> m2[a] == m1[a]
    ensures var mg := Block(x.addr, y.End() - x.addr - OVERHEAD, true);
      Fields(m2, mg, p, n) && Relinked(m, m2, mg.addr, mg.End(), p, n, mg.addr, mg.addr)
  {
  }

  // Blocks a..z become the one free block mg.
  lemma MergeLayout(m: Memory, m': Memory, bs: seq<Block>, a: nat, z: nat, mg: Block, ptr: int, lo: int, hi: int)
    requires Layout(m, bs, lo, hi) && a <= z < |bs|
    requires forall k :: a <= k <= z ==> bs[k].free || bs[k].Payload() == ptr
    requires mg.free && mg.addr == bs[a].addr && mg.End() == bs[z].End()
    requires WellFormed(bs[..a] + [mg] + bs[z + 1..], lo, hi)
    requires Fields(m', mg, LastFree(bs[..a], NULL), FirstFree(bs[z + 1..], NULL))
    requires Relinked(m, m', mg.addr, mg.End(), LastFree(bs[..a], NULL), FirstFree(bs[z + 1..], NULL), mg.addr, mg.addr)
    ensures var bs' := bs[..a] + [mg] + bs[z + 1..];
      && Layout(m', bs', lo, hi)
      && FirstFree(bs', NULL) == (if LastFree(bs[..a], NULL) == NULL then mg.addr else FirstFree(bs, NULL))
      && LastAddr(bs') == (if z == |bs| - 1 then mg.addr else LastAddr(bs))
    ensures PayloadsKept(m, m', bs, ptr)
  {
    hide LastAddr;
    MergeLast(bs, a, z, mg);
    SegmentBounds(bs, a, z + 1, lo, hi);
    var p, n := LastFree(bs[..a], NULL), FirstFree(bs[z + 1..], NULL);
    OneBlock(m', mg, p, n);
    hide Tiles, Coalesced, Rep, FirstFree, LastFree;
    Commit(m, m', bs, a, z + 1, [mg], ptr, lo, hi);
    MergeHead(m, bs, a, mg.addr, lo, hi);
  }

  lemma MergeLast(bs: seq<Block>, a: nat, z: nat, mg: Block)
    requires a <= z < |bs|
    ensures LastAddr(bs[..a] + [mg] + bs[z + 1..]) == if z == |bs| - 1 then mg.addr else LastAddr(bs)
  {
  }

  lemma MergeHead(m: Memory, bs: seq<Block>, a: nat, n: int, lo: int, hi: int)
    requires Layout(m, bs, lo, hi) && a < |bs|
    ensures FirstFree(bs[..a], n) == if LastFree(bs[..a], NULL) == NULL then n else FirstFree(bs, NULL)
  {
    CutFacts(m, bs, a, lo, hi);
    TilesSplit(bs, a, lo, hi);
    FreeEnds(bs[..a], NULL, n, lo, bs[a].addr);
  }

  lemma FreeLayout(m: Memory, m': Memory, bs: seq<Block>, i: nat, ptr: int, lo: int, hi: int)
    requires Layout(m, bs, lo, hi) && i < |bs| && !bs[i].free && ptr == bs[i].Payload()
    requires FreedStores(m, m', bs, i)
    ensures Layout(m', FreeBlocks(bs, i), lo, hi)
    ensures FirstFree(FreeBlocks(bs, i), NULL) ==
      if LastFree(bs[..FirstMerged(bs, i)], NULL) == NULL then Merged(bs, i).addr else FirstFree(bs, NULL)
    ensures LastAddr(FreeBlocks(bs, i)) == if LastMerged(bs, i) == |bs| - 1 then Merged(bs, i).addr else LastAddr(bs)
    ensures PayloadsKept(m, m', bs, ptr)
  {
    FreeWellFormed(bs, i, lo, hi);
    MergeLayout(m, m', bs, FirstMerged(bs, i), LastMerged(bs, i), Merged(bs, i), ptr, lo, hi);
  }

  // A free block's links across a cut of the heap.
  lemma {:induction false} TailPoints(m: Memory, s: seq<Block>, p: int, n: int, lo: int, hi: int)
    requires Tiles(s, lo, hi) && 0 < lo && Rep(m, s, p, n)
    ensures LastFree(s, NULL) != NULL ==> 0 <= LastFree(s, NULL) + NEXT < |m| && m[LastFree(s, NULL) + NEXT] == n
    ensures FirstFree(s, NULL) != NULL ==> 0 <= FirstFree(s, NULL) + PREV < |m| && m[FirstFree(s, NULL) + PREV] == p
    decreases |s|
  {
    if s != [] {
      TilesSpan(s, lo, hi);
      var r := s[1..];
      FreeEnds(r, if s[0].free then s[0].addr else NULL, n, s[0].End(), hi);
      TailPoints(m, r, if s[0].free then s[0].addr else p, n, s[0].End(), hi);
    }
  }

  // A cut of the heap at block k: the free blocks on either side of it point at each other.
  lemma CutFacts(m: Memory, bs: seq<Block>, k: nat, lo: int, hi: int)
    requires 0 < lo && Tiles(bs, lo, hi) && Rep(m, bs, NULL, NULL) && |m| == hi && k <= |bs|
    ensures var p, n := LastFree(bs[..k], NULL), FirstFree(bs[k..], NULL);
      && (p != NULL ==> lo <= p && p + OVERHEAD <= Start(bs, k, hi) && 0 <= p + NEXT < |m| && m[p + NEXT] == n)
      && (n != NULL ==> Start(bs, k, hi) <= n && n + OVERHEAD <= hi && 0 <= n + PREV < |m| && m[n + PREV] == p)
      && (FirstFree(bs, NULL) == if p == NULL then n else FirstFree(bs[..k], NULL))
      && (p != NULL ==> lo <= FirstFree(bs, NULL) && FirstFree(bs, NULL) + OVERHEAD <= Start(bs, k, hi))
    ensures lo <= Start(bs, k, hi) <= hi
  {
    TilesSplit(bs, k, lo, hi);
    var mid, p, n := Start(bs, k, hi), LastFree(bs[..k], NULL), FirstFree(bs[k..], NULL);
    CutRep(m, bs, k);
    TailPoints(m, bs[..k], NULL, n, lo, mid);
    TailPoints(m, bs[k..], p, NULL, mid, hi);
    FreeEnds(bs[..k], NULL, n, lo, mid);
    FreeEnds(bs[k..], NULL, NULL, mid, hi);
  }

  lemma CutRep(m: Memory, bs: seq<Block>, k: nat)
    requires Rep(m, bs, NULL, NULL) && k <= |bs|
    ensures Rep(m, bs[..k], NULL, FirstFree(bs[k..], NULL)) && Rep(m, bs[k..], LastFree(bs[..k], NULL), NULL)
    ensures FirstFree(bs, NULL) == FirstFree(bs[..k], FirstFree(bs[k..], NULL))
  {
    assert bs == bs[..k] + bs[k..];
    RepConcat(m, bs[..k], bs[k..], NULL, NULL);
    FirstFreeConcat(bs[..k], bs[k..], NULL);
  }

  // Block k and what its fields and neighbours say.
  lemma BlockFacts(m: Memory, bs: seq<Block>, k: nat, lo: int, hi: int)
    requires Layout(m, bs, lo, hi) && k < |bs|
    ensures Fields(m, bs[k], LastFree(bs[..k], NULL), FirstFree(bs[k + 1..], NULL))
    ensures FirstFree(bs[k..], NULL) == if bs[k].free then bs[k].addr else FirstFree(bs[k + 1..], NULL)
    ensures LastFree(bs[..k + 1], NULL) == if bs[k].free then bs[k].addr else LastFree(bs[..k], NULL)
    ensures bs[k].size >= 8 && lo <= bs[k].addr && bs[k].End() <= hi
    ensures bs[k].addr == if k > 0 then bs[k - 1].End() else lo
    ensures bs[k].End() == Start(bs, k + 1, hi)
    ensures bs[k].addr < LastAddr(bs) <==> k < |bs| - 1
  {
    RepAt(m, bs, k);
    TilesAt(bs, k, lo, hi);
    if k > 0 {
      TilesAt(bs, k - 1, lo, hi);
    }
    assert bs[k..][1..] == bs[k + 1..];
    assert bs[..k + 1] == bs[..k] + [bs[k]];
    LastFreeConcat(bs[..k], [bs[k]], NULL);
    if k < |bs| - 1 {
      TilesApart(bs, k, |bs| - 1, lo, hi);
    }
  }

  lemma CutNeighbours(m: Memory, bs: seq<Block>, a: nat, z: nat, lo: int, hi: int)
    requires 0 < lo && Tiles(bs, lo, hi) && Rep(m, bs, NULL, NULL) && |m| == hi && a <= z < |bs|
    ensures Neighbours(m, bs[a].addr, bs[z].End(), LastFree(bs[..a], NULL), FirstFree(bs[z + 1..], NULL),
                       FirstFree(bs[a..], NULL), LastFree(bs[..z + 1], NULL))
    ensures FirstFree(bs, NULL) == if LastFree(bs[..a], NULL) == NULL then FirstFree(bs[a..], NULL) else FirstFree(bs[..a], NULL)
    ensures LastFree(bs[..a], NULL) != NULL ==> 0 < FirstFree(bs, NULL) < bs[a].addr
  {
    hide Tiles, Rep, FirstFree, LastFree;
    SegmentBounds(bs, a, z + 1, lo, hi);
    CutFacts(m, bs, a, lo, hi);
    assert FirstFree(bs[z + 1..], NULL) != NULL ==>
      m[FirstFree(bs[z + 1..], NULL) + PREV] == LastFree(bs[..z + 1], NULL)
    by {
      CutFacts(m, bs, z + 1, lo, hi);
    }
  }

  // All that free reads about block i, without the global layout.
  lemma FreeFacts(m: Memory, bs: seq<Block>, i: nat, lo: int, hi: int)
    requires Layout(m, bs, lo, hi) && i < |bs| && !bs[i].free
    ensures FreeView(m, bs, i, lo)
    ensures lo <= bs[i].addr <= LastAddr(bs) && bs[i].End() <= |m| && bs[i].size >= 8 && m[bs[i].addr + FREE] == 0
    ensures var p := LastFree(bs[..FirstMerged(bs, i)], NULL);
      && (p == NULL ==> FirstFree(bs, NULL) == FirstFrom(bs, i))
      && (p != NULL ==> 0 < FirstFree(bs, NULL) < bs[FirstMerged(bs, i)].addr)
  {
    hide Tiles, Coalesced, Rep, FirstFree, LastFree, FirstMerged, LastMerged, FirstFrom, LastUpTo;
    CutNeighbours(m, bs, FirstMerged(bs, i), LastMerged(bs, i), lo, hi);
    FirstFromFree(m, bs, i, lo, hi);
    NeighbourFacts(m, bs, i, lo, hi);
    FreeFields(m, bs, i, lo, hi);
  }

  // The head of the list changes only where free says it does.
  lemma FreeHead(m: Memory, bs: seq<Block>, i: nat, lo: int, hi: int)
    requires Layout(m, bs, lo, hi) && i < |bs| && !bs[i].free && FirstMerged(bs, i) < LastMerged(bs, i)
    ensures (if LastFree(bs[..FirstMerged(bs, i)], NULL) == NULL then Merged(bs, i).addr else FirstFree(bs, NULL))
         == (if i < LastMerged(bs, i) && FirstMerged(bs, i) == i && FirstFree(bs, NULL) == bs[i + 1].addr
             then bs[i].addr else FirstFree(bs, NULL))
  {
    FreeFacts(m, bs, i, lo, hi);
    if i + 1 < |bs| {
      TilesApart(bs, i, i + 1, lo, hi);
      TilesAt(bs, i, lo, hi);
    }
  }

  lemma FirstFromFree(m: Memory, bs: seq<Block>, i: nat, lo: int, hi: int)
    requires Layout(m, bs, lo, hi) && i < |bs| && !bs[i].free
    ensures FirstFree(bs[FirstMerged(bs, i)..], NULL) == FirstFrom(bs, i)
    ensures LastFree(bs[..LastMerged(bs, i) + 1], NULL) == LastUpTo(bs, i)
  {
    hide Layout, Fields;
    BlockFacts(m, bs, i, lo, hi);
    if i > 0 {
      BlockFacts(m, bs, i - 1, lo, hi);
    }
    if i + 1 < |bs| {
      BlockFacts(m, bs, i + 1, lo, hi);
    }
  }

  lemma FreeFields(m: Memory, bs: seq<Block>, i: nat, lo: int, hi: int)
    requires Layout(m, bs, lo, hi) && i < |bs| && !bs[i].free
    ensures OwnFields(m, bs, i)
  {
    BlockFacts(m, bs, i, lo, hi);
    if i > 0 {
      BlockFacts(m, bs, i - 1, lo, hi);
    }
    if i + 1 < |bs| {
      BlockFacts(m, bs, i + 1, lo, hi);
    }
  }

  // The header and footer on either side of block i tell free where its neighbours are.
  lemma NeighbourFacts(m: Memory, bs: seq<Block>, i: nat, lo: int, hi: int)
    requires Layout(m, bs, lo, hi) && i < |bs|
    ensures Surroundings(m, bs, i, lo)
  {
    BlockFacts(m, bs, i, lo, hi);
    if i > 0 {
      BlockFacts(m, bs, i - 1, lo, hi);
    }
    if i + 1 < |bs| {
      BlockFacts(m, bs, i + 1, lo, hi);
    }
  }

  lemma ExtendLayout(m: Memory, m': Memory, bs: seq<Block>, size: int, lo: int, hi: int)
    requires Layout(m, bs, lo, hi) && size >= 8 && size % 16 == 8
    requires |m'| == hi + OVERHEAD + size && m'[..hi] == m
    requires Fields(m', Block(hi, size, false), NULL, NULL)
    ensures Layout(m', bs + [Block(hi, size, false)], lo, hi + OVERHEAD + size)
    ensures FirstFree(bs + [Block(hi, size, false)], NULL) == FirstFree(bs, NULL)
    ensures PayloadsKept(m, m', bs, NULL)
  {
    var b := Block(hi, size, false);
    assert [b][1..] == [];
    ExtendWellFormed(bs, size, lo, hi);
    Frame(m, m', bs, NULL, NULL, lo, hi);
    FirstFreeConcat(bs, [b], NULL);
    RepConcat(m', bs, [b], NULL, NULL);
    assert bs[..|bs|] == bs;
    SegmentKeepsPayloads(m, m', bs, |bs|, |bs|, NULL, lo, hi);
  }

  lemma LayoutKeepsPayloads(m: Memory, bs: seq<Block>, ptr: int, lo: int, hi: int)
    requires Layout(m, bs, lo, hi)
    ensures PayloadsKept(m, m, bs, ptr)
  {
    SegmentKeepsPayloads(m, m, bs, |bs|, |bs|, ptr, lo, hi);
  }
}
