// The heap of malloc/alloc.c seen as an address-ordered sequence of blocks: what one call of
// malloc or free does to that sequence, and what every run of calls keeps.
module AllocBlocks {

  const HEADER := 32     // sizeof(entry): size, free, next, prev
  const FOOTER := 8      // sizeof(end): size
  const OVERHEAD := 40
  const THRESHOLD := 1024

  // A block starts at addr with its header, then `size` payload bytes, then its footer.
  datatype Block = Block(addr: int, size: int, free: bool) {
    function End(): int { addr + OVERHEAD + size }
    function Payload(): int { addr + HEADER }
  }

  // The blocks fill [lo, hi) exactly, one after another.
  ghost predicate Tiles(bs: seq<Block>, lo: int, hi: int)
    decreases |bs|
  {
    if bs == [] then lo == hi
    else bs[0].addr == lo && bs[0].size >= 8 && bs[0].size % 16 == 8 && Tiles(bs[1..], bs[0].End(), hi)
  }

  ghost predicate Coalesced(bs: seq<Block>) {
    forall i :: 0 <= i < |bs| - 1 ==> !(bs[i].free && bs[i + 1].free)
  }

  ghost predicate WellFormed(bs: seq<Block>, lo: int, hi: int) {
    Tiles(bs, lo, hi) && Coalesced(bs)
  }

  // ----- searches -----

  // The block at address a, or |bs|.
  function Find(bs: seq<Block>, a: int): (i: nat)
    ensures i <= |bs|
    ensures i < |bs| ==> bs[i].addr == a
    ensures forall j :: 0 <= j < i ==> bs[j].addr != a
  {
    if bs == [] || bs[0].addr == a then 0 else 1 + Find(bs[1..], a)
  }

  // First fit: the lowest-addressed free block of at least `size` bytes, or |bs|.
  function FirstFit(bs: seq<Block>, size: int): (i: nat)
    ensures i <= |bs|
    ensures i < |bs| ==> bs[i].free && bs[i].size >= size
    ensures forall j :: 0 <= j < i ==> !(bs[j].free && bs[j].size >= size)
  {
    if bs == [] || (bs[0].free && bs[0].size >= size) then 0 else 1 + FirstFit(bs[1..], size)
  }

  // p is a pointer handed out and not yet given back.
  predicate IsLive(bs: seq<Block>, p: int) {
    var i := Find(bs, p - HEADER);
    i < |bs| && !bs[i].free
  }

  // The live block p points at.
  function BlockOf(bs: seq<Block>, p: int): (b: Block)
    requires IsLive(bs, p)
    ensures b in bs && !b.free && b.Payload() == p
  {
    bs[Find(bs, p - HEADER)]
  }

  // The payload size malloc really works with: header, payload and footer fill a multiple of 16.
  function Rounded(request: int): (size: int)
    requires request > 0
    ensures request <= size <= request + 15 && size % 16 == 8 && size >= 8
  {
    (request + OVERHEAD + 15) / 16 * 16 - OVERHEAD
  }

  // ----- what malloc and free do to the blocks -----

  const NULL := 0

  function SplitPair(b: Block, size: int): seq<Block> {
    [Block(b.addr, size, false), Block(b.addr + OVERHEAD + size, b.size - size - OVERHEAD, true)]
  }

  // The blocks after malloc(request), and the pointer it returns. `grows` says whether sbrk would succeed.
  function MallocBlocks(bs: seq<Block>, brk: int, request: nat, grows: bool): (seq<Block>, int) {
    if request == 0 then (bs, NULL)
    else
      var size := Rounded(request);
      var i := FirstFit(bs, size);
      if i < |bs| then
        var b := bs[i];
        var given :=
          if b.size >= THRESHOLD + size + OVERHEAD then SplitPair(b, size) else [b.(free := false)];
        (bs[..i] + given + bs[i + 1..], b.Payload())
      else if grows then (bs + [Block(brk, size, false)], brk + HEADER)
      else (bs, NULL)
  }

  // The part of the sequence that freeing block i merges: indices FirstMerged..LastMerged.
  function FirstMerged(bs: seq<Block>, i: nat): (a: nat)
    requires i < |bs|
    ensures a <= i
  {
    if i > 0 && bs[i - 1].free then i - 1 else i
  }

  function LastMerged(bs: seq<Block>, i: nat): (z: nat)
    requires i < |bs|
    ensures i <= z < |bs|
  {
    if i + 1 < |bs| && bs[i + 1].free then i + 1 else i
  }

  // The four-way merge is one block over exactly the merged range.
  function Merged(bs: seq<Block>, i: nat): Block
    requires i < |bs|
  {
    var a := bs[FirstMerged(bs, i)].addr;
    Block(a, bs[LastMerged(bs, i)].End() - a - OVERHEAD, true)
  }

  // Freeing block i: it swallows a free neighbour on either side.
  function FreeBlocks(bs: seq<Block>, i: nat): seq<Block>
    requires i < |bs|
  {
    bs[..FirstMerged(bs, i)] + [Merged(bs, i)] + bs[LastMerged(bs, i) + 1..]
  }

  function Freed(bs: seq<Block>, p: int): seq<Block>
    requires IsLive(bs, p)
  {
    FreeBlocks(bs, Find(bs, p - HEADER))
  }

  // ----- tiling -----

  lemma {:induction false} TilesConcat(x: seq<Block>, y: seq<Block>, lo: int, mid: int, hi: int)
    requires Tiles(x, lo, mid) && Tiles(y, mid, hi)
    ensures Tiles(x + y, lo, hi)
  {
    if x == [] {
      assert x + y == y;
    } else {
      assert (x + y)[1..] == x[1..] + y;
      TilesConcat(x[1..], y, x[0].End(), mid, hi);
    }
  }

  // Where part k of a tiling starts.
  function Start(bs: seq<Block>, k: nat, hi: int): int
    requires k <= |bs|
  {
    if k < |bs| then bs[k].addr else hi
  }

  lemma {:induction false} TilesSplit(bs: seq<Block>, k: nat, lo: int, hi: int)
    requires Tiles(bs, lo, hi) && k <= |bs|
    ensures lo <= Start(bs, k, hi) <= hi
    ensures Tiles(bs[..k], lo, Start(bs, k, hi)) && Tiles(bs[k..], Start(bs, k, hi), hi)
    ensures (Start(bs, k, hi) - lo) % 16 == 0
    decreases k
  {
    if k == 0 {
      assert bs[0..] == bs;
      TilesSpan(bs, lo, hi);
    } else {
      TilesSplit(bs[1..], k - 1, bs[0].End(), hi);
      assert bs[..k][1..] == bs[1..][..k - 1];
      assert bs[1..][k - 1..] == bs[k..];
    }
  }

  lemma {:induction false} TilesSpan(bs: seq<Block>, lo: int, hi: int)
    requires Tiles(bs, lo, hi)
    ensures lo <= hi && (bs != [] ==> bs[0].addr == lo && bs[|bs| - 1].End() == hi && bs[0].End() <= hi)
    decreases |bs|
  {
    if bs != [] {
      TilesSpan(bs[1..], bs[0].End(), hi);
    }
  }

  lemma TilesAt(bs: seq<Block>, i: nat, lo: int, hi: int)
    requires Tiles(bs, lo, hi) && i < |bs|
    ensures lo <= bs[i].addr && bs[i].End() <= hi && bs[i].size >= 8 && bs[i].size % 16 == 8
    ensures bs[i].End() == Start(bs, i + 1, hi)
    ensures (bs[i].addr - lo) % 16 == 0
  {
    TilesSplit(bs, i, lo, hi);
    TilesSpan(bs[i..], bs[i].addr, hi);
    assert bs[i..][1..] == bs[i + 1..];
    TilesSpan(bs[i + 1..], bs[i].End(), hi);
  }

  // Blocks at different places in the sequence do not overlap.
  lemma TilesApart(bs: seq<Block>, i: nat, j: nat, lo: int, hi: int)
    requires Tiles(bs, lo, hi) && i < j < |bs|
    ensures bs[i].End() <= bs[j].addr
  {
    TilesSplit(bs, i + 1, lo, hi);
    TilesAt(bs, i, lo, hi);
    TilesAt(bs[i + 1..], j - i - 1, bs[i].End(), hi);
  }

  // Replacing the blocks from index i up to j by others that fill the same range.
  lemma TilesReplace(bs: seq<Block>, i: nat, j: nat, s: seq<Block>, lo: int, hi: int)
    requires Tiles(bs, lo, hi) && i <= j <= |bs|
    requires Tiles(s, Start(bs, i, hi), Start(bs, j, hi))
    ensures Tiles(bs[..i] + s + bs[j..], lo, hi)
  {
    TilesSplit(bs, i, lo, hi);
    TilesSplit(bs, j, lo, hi);
    TilesConcat(bs[..i], s, lo, Start(bs, i, hi), Start(bs, j, hi));
    TilesConcat(bs[..i] + s, bs[j..], lo, Start(bs, j, hi), hi);
  }

  lemma FindAt(bs: seq<Block>, i: nat, lo: int, hi: int)
    requires Tiles(bs, lo, hi) && i < |bs|
    ensures Find(bs, bs[i].addr) == i
  {
    var k := Find(bs, bs[i].addr);
    if k < i {
      TilesApart(bs, k, i, lo, hi);
      TilesAt(bs, k, lo, hi);
    }
  }

  // ----- what every call keeps -----

  function NewBreak(bs: seq<Block>, brk: int, request: nat, grows: bool): int {
    if request > 0 && FirstFit(bs, Rounded(request)) == |bs| && grows then brk + OVERHEAD + Rounded(request) else brk
  }

  lemma MallocTakes(bs: seq<Block>, brk: int, request: nat, grows: bool, i: nat)
    requires request > 0 && i < |bs| && bs[i].free && bs[i].size >= Rounded(request)
    requires forall j :: 0 <= j < i ==> !(bs[j].free && bs[j].size >= Rounded(request))
    ensures var given := if bs[i].size >= THRESHOLD + Rounded(request) + OVERHEAD
                         then SplitPair(bs[i], Rounded(request)) else [bs[i].(free := false)];
      MallocBlocks(bs, brk, request, grows) == (bs[..i] + given + bs[i + 1..], bs[i].Payload())
    ensures NewBreak(bs, brk, request, grows) == brk
  {
  }

  lemma SplitWellFormed(bs: seq<Block>, i: nat, size: int, lo: int, hi: int)
    requires WellFormed(bs, lo, hi) && i < |bs| && bs[i].free
    requires size >= 8 && size % 16 == 8 && bs[i].size >= THRESHOLD + size + OVERHEAD
    ensures WellFormed(bs[..i] + SplitPair(bs[i], size) + bs[i + 1..], lo, hi)
  {
    TilesAt(bs, i, lo, hi);
    var pair := SplitPair(bs[i], size);
    assert pair[1..] == [pair[1]];
    TilesReplace(bs, i, i + 1, pair, lo, hi);
  }

  lemma TakeWellFormed(bs: seq<Block>, i: nat, lo: int, hi: int)
    requires WellFormed(bs, lo, hi) && i < |bs| && bs[i].free
    ensures WellFormed(bs[..i] + [bs[i].(free := false)] + bs[i + 1..], lo, hi)
  {
    TilesAt(bs, i, lo, hi);
    TilesReplace(bs, i, i + 1, [bs[i].(free := false)], lo, hi);
  }

  lemma ExtendWellFormed(bs: seq<Block>, size: int, lo: int, hi: int)
    requires WellFormed(bs, lo, hi) && size >= 8 && size % 16 == 8
    ensures WellFormed(bs + [Block(hi, size, false)], lo, hi + OVERHEAD + size)
  {
    var b := Block(hi, size, false);
    assert [b][1..] == [];
    TilesConcat(bs, [b], lo, hi, b.End());
  }

  lemma MallocWellFormed(bs: seq<Block>, lo: int, hi: int, request: nat, grows: bool)
    requires WellFormed(bs, lo, hi)
    ensures WellFormed(MallocBlocks(bs, hi, request, grows).0, lo, NewBreak(bs, hi, request, grows))
  {
    if request > 0 {
      var size := Rounded(request);
      var i := FirstFit(bs, size);
      if i < |bs| {
        if bs[i].size >= THRESHOLD + size + OVERHEAD {
          SplitWellFormed(bs, i, size, lo, hi);
        } else {
          TakeWellFormed(bs, i, lo, hi);
        }
      } else if grows {
        ExtendWellFormed(bs, size, lo, hi);
      }
    }
  }

  lemma MergedTiles(bs: seq<Block>, i: nat, lo: int, hi: int)
    requires Tiles(bs, lo, hi) && i < |bs|
    ensures Tiles([Merged(bs, i)], bs[FirstMerged(bs, i)].addr, Start(bs, LastMerged(bs, i) + 1, hi))
  {
    var a, z := FirstMerged(bs, i), LastMerged(bs, i);
    SpanSize(bs, a, z, lo, hi);
    assert [Merged(bs, i)][1..] == [];
  }

  // The range from block a to block z has the size of a block.
  lemma SpanSize(bs: seq<Block>, a: nat, z: nat, lo: int, hi: int)
    requires Tiles(bs, lo, hi) && a <= z < |bs|
    ensures bs[z].End() == Start(bs, z + 1, hi)
    ensures bs[z].End() - bs[a].addr - OVERHEAD >= 8 && (bs[z].End() - bs[a].addr - OVERHEAD) % 16 == 8
  {
    TilesAt(bs, a, lo, hi);
    TilesAt(bs, z, lo, hi);
    if a < z {
      TilesApart(bs, a, z, lo, hi);
    }
    hide Tiles;
    var x, y := bs[a].addr - lo, bs[z].addr - lo;
    assert (y - x) % 16 == 0;
  }

  lemma FreeWellFormed(bs: seq<Block>, i: nat, lo: int, hi: int)
    requires WellFormed(bs, lo, hi) && i < |bs| && !bs[i].free
    ensures WellFormed(FreeBlocks(bs, i), lo, hi)
  {
    MergedTiles(bs, i, lo, hi);
    TilesReplace(bs, FirstMerged(bs, i), LastMerged(bs, i) + 1, [Merged(bs, i)], lo, hi);
  }

  // ----- what callers hold -----

  // The blocks handed out and not yet given back.
  function Live(bs: seq<Block>): set<Block> {
    set b | b in bs && !b.free
  }

  lemma LiveApart(bs: seq<Block>, i: nat, lo: int, hi: int)
    requires Tiles(bs, lo, hi) && i < |bs|
    ensures bs[i] !in Live(bs[..i]) && bs[i] !in Live(bs[i + 1..])
    ensures forall b :: b in Live(bs[..i]) + Live(bs[i + 1..]) ==> b.addr != bs[i].addr
  {
    forall b | b in Live(bs[..i]) + Live(bs[i + 1..]) ensures b.addr != bs[i].addr {
      var k :| 0 <= k < |bs| && bs[k] == b && k != i;
      if k < i {
        TilesApart(bs, k, i, lo, hi);
        TilesAt(bs, k, lo, hi);
      } else {
        TilesApart(bs, i, k, lo, hi);
        TilesAt(bs, i, lo, hi);
      }
    }
  }

  lemma LiveSplit(bs: seq<Block>, i: nat)
    requires i < |bs|
    ensures Live(bs) == Live(bs[..i]) + (if bs[i].free then {} else {bs[i]}) + Live(bs[i + 1..])
  {
  }

  // The free neighbours that free swallows hold nothing live.
  lemma MergedLive(bs: seq<Block>, i: nat)
    requires i < |bs|
    ensures Live(bs[..FirstMerged(bs, i)]) == Live(bs[..i])
    ensures Live(bs[LastMerged(bs, i) + 1..]) == Live(bs[i + 1..])
  {
  }

  // free takes exactly the block at p away from the live ones.
  lemma FreeLive(bs: seq<Block>, p: int, lo: int, hi: int)
    requires WellFormed(bs, lo, hi) && IsLive(bs, p)
    ensures BlockOf(bs, p) in Live(bs) && Live(Freed(bs, p)) == Live(bs) - {BlockOf(bs, p)}
  {
    var i := Find(bs, p - HEADER);
    var a, z := FirstMerged(bs, i), LastMerged(bs, i);
    LiveApart(bs, i, lo, hi);
    LiveSplit(bs, i);
    MergedLive(bs, i);
  }

  // Block i, which is free, is replaced by blocks of which b is the only live one.
  lemma GivenLive(bs: seq<Block>, i: nat, given: seq<Block>, b: Block, lo: int, hi: int)
    requires WellFormed(bs, lo, hi) && i < |bs| && bs[i].free && Live(given) == {b}
    ensures Live(bs[..i] + given + bs[i + 1..]) == Live(bs) + {b}
  {
  }

  lemma TakeLive(bs: seq<Block>, request: nat, i: nat, lo: int, hi: int)
    requires WellFormed(bs, lo, hi) && 0 < lo && request > 0
    requires i < |bs| && bs[i].free && bs[i].size >= Rounded(request)
    ensures var size := Rounded(request);
      var splits := bs[i].size >= THRESHOLD + size + OVERHEAD;
      var given := if splits then SplitPair(bs[i], size) else [bs[i].(free := false)];
      && NewBlock(given[0], bs, request, lo) && given[0].Payload() == bs[i].Payload() > NULL && Live(given) == {given[0]}
  {
    TilesAt(bs, i, lo, hi);
    LiveApart(bs, i, lo, hi);
    hide Tiles;
    var pair := SplitPair(bs[i], Rounded(request));
    assert pair[0] in pair && pair[1] in pair;
  }

  lemma ExtendLive(bs: seq<Block>, request: nat, lo: int, hi: int)
    requires WellFormed(bs, lo, hi) && 0 < lo && request > 0
    ensures 0 < hi && NewBlock(Block(hi, Rounded(request), false), bs, request, lo)
    ensures Live(bs + [Block(hi, Rounded(request), false)]) == Live(bs) + {Block(hi, Rounded(request), false)}
  {
    var b := Block(hi, Rounded(request), false);
    TilesSpan(bs, lo, hi);
    TilesSplit(bs, |bs|, lo, hi);
    forall c | c in Live(bs) ensures c.addr != hi {
      var k :| 0 <= k < |bs| && bs[k] == c;
      TilesAt(bs, k, lo, hi);
    }
    assert bs + [b] + [] == bs + [b];
    assert b in [b] && Live([b]) == {b};
  }

  // Some free block has room for `size` bytes.
  ghost predicate Fits(bs: seq<Block>, size: int) {
    exists f :: f in bs && f.free && f.size >= size
  }

  // f is the free block of lowest address that has room.
  ghost predicate LowestFit(bs: seq<Block>, size: int, f: Block) {
    f in bs && f.free && f.size >= size && forall b :: b in bs && b.free && b.size >= size ==> f.addr <= b.addr
  }

  // b is the block to hand out for `size` bytes, and brk' where the heap then ends: the heap grows only if nothing in it
  // fits, and a block that fits is cut only if enough of it is left over.
  ghost predicate Placed(bs: seq<Block>, brk: int, size: int, b: Block, brk': int) {
    if Fits(bs, size) then
      && brk' == brk
      && exists f :: (
           && LowestFit(bs, size, f)
           && b == Block(f.addr, if f.size >= THRESHOLD + size + OVERHEAD then size else f.size, false))
    else
      brk' == brk + OVERHEAD + size && b == Block(brk, size, false)
  }

  lemma FirstIsLowest(bs: seq<Block>, size: int, i: nat, lo: int, hi: int)
    requires Tiles(bs, lo, hi) && i < |bs| && bs[i].free && bs[i].size >= size
    requires forall j :: 0 <= j < i ==> !(bs[j].free && bs[j].size >= size)
    ensures Fits(bs, size) && LowestFit(bs, size, bs[i])
  {
    forall b | b in bs && b.free && b.size >= size ensures bs[i].addr <= b.addr {
      var j :| 0 <= j < |bs| && bs[j] == b;
      if i < j {
        TilesApart(bs, i, j, lo, hi);
        TilesAt(bs, i, lo, hi);
      }
    }
  }

  lemma NothingFits(bs: seq<Block>, size: int)
    requires FirstFit(bs, size) == |bs|
    ensures !Fits(bs, size)
  {
  }

  // Whether malloc succeeds depends only on whether a free block fits and whether the heap can grow.
  lemma MallocSucceeds(bs: seq<Block>, brk: int, request: nat, grows: bool, lo: int)
    requires WellFormed(bs, lo, brk) && 0 < lo
    ensures MallocBlocks(bs, brk, request, grows).1 == NULL <==> request == 0 || (!grows && !Fits(bs, Rounded(request)))
    ensures MallocBlocks(bs, brk, request, grows).1 == NULL ==> NewBreak(bs, brk, request, grows) == brk
  {
    TilesSpan(bs, lo, brk);
    if request > 0 {
      var i := FirstFit(bs, Rounded(request));
      if i < |bs| {
        TilesAt(bs, i, lo, brk);
        assert bs[i] in bs;
      }
    }
  }

  // malloc hands out one new block, large enough, not much too large, 16-aligned, and takes nothing from anyone.
  lemma MallocLive(bs: seq<Block>, request: nat, grows: bool, lo: int, hi: int)
    requires WellFormed(bs, lo, hi) && 0 < lo
    ensures var (bs', p) := MallocBlocks(bs, hi, request, grows);
      if p == NULL then bs' == bs
      else exists b :: (
             && b in Live(bs') && b.Payload() == p && NewBlock(b, bs, request, lo) && Live(bs') == Live(bs) + {b}
             && request > 0 && Placed(bs, hi, Rounded(request), b, NewBreak(bs, hi, request, grows)))
  {
    hide Live, NewBlock, Tiles, Coalesced, Fits, LowestFit;
    if request > 0 {
      var size := Rounded(request);
      var i := FirstFit(bs, size);
      if i < |bs| {
        FirstIsLowest(bs, size, i, lo, hi);
        var given := if bs[i].size >= THRESHOLD + size + OVERHEAD then SplitPair(bs[i], size) else [bs[i].(free := false)];
        TakeLive(bs, request, i, lo, hi);
        GivenLive(bs, i, given, given[0], lo, hi);
        assert given[0] in Live(bs) + {given[0]};
      } else if grows {
        var b := Block(hi, size, false);
        ExtendLive(bs, request, lo, hi);
        NothingFits(bs, size);
        assert b in Live(bs) + {b};
      }
    }
  }

  // Block b, in the place and of the size that Placed says, is in use, and was not before.
  ghost predicate HandedOut(bs: seq<Block>, brk: int, bs': seq<Block>, brk': int, b: Block, size: int) {
    b !in Live(bs) && Live(bs') == Live(bs) + {b} && Placed(bs, brk, size, b, brk')
  }

  lemma MallocAnswers(bs: seq<Block>, brk: int, request: nat, grows: bool, lo: int)
    requires WellFormed(bs, lo, brk) && 0 < lo
    ensures var (bs', p) := MallocBlocks(bs, brk, request, grows);
      var brk' := NewBreak(bs, brk, request, grows);
      && (p == NULL <==> request == 0 || (!grows && !Fits(bs, Rounded(request))))
      && (p == NULL ==> bs' == bs && brk' == brk)
      && (p != NULL ==> IsLive(bs', p) && HandedOut(bs, brk, bs', brk', BlockOf(bs', p), Rounded(request)))
  {
    hide WellFormed, MallocBlocks, NewBreak, Placed, Fits, Live;
    MallocSucceeds(bs, brk, request, grows, lo);
    MallocLive(bs, request, grows, lo, brk);
    MallocWellFormed(bs, lo, brk, request, grows);
    var (bs', p) := MallocBlocks(bs, brk, request, grows);
    var brk' := NewBreak(bs, brk, request, grows);
    if p != NULL {
      var b :| b in Live(bs') && b.Payload() == p && NewBlock(b, bs, request, lo) && Live(bs') == Live(bs) + {b}
        && request > 0 && Placed(bs, brk, Rounded(request), b, brk');
      LiveOne(bs', b, lo, brk');
    }
  }

  lemma RoundedTwice(request: int)
    requires request > 0
    ensures Rounded(Rounded(request)) == Rounded(request)
  {
  }

  ghost predicate NewBlock(b: Block, bs: seq<Block>, request: nat, lo: int) {
    && (forall c :: c in Live(bs) ==> c.addr != b.addr)
    && request <= b.size < request + 15 + THRESHOLD + OVERHEAD
    && (b.Payload() - lo) % 16 == 0
  }

  // The blocks in use and the end of the heap determine all blocks: each gap between them is one free block.
  lemma {:induction false} LiveDetermines(x: seq<Block>, y: seq<Block>, lo: int, hi: int)
    requires WellFormed(x, lo, hi) && WellFormed(y, lo, hi) && Live(x) == Live(y)
    ensures x == y
    decreases |x|
  {
    if x == [] {
      TilesSpan(y, lo, hi);
    } else {
      TilesSpan(x, lo, hi);
      SameFirst(x, y, lo, hi);
      LiveRest(x, lo, hi);
      LiveRest(y, lo, hi);
      assert forall i :: 0 <= i < |x| - 1 ==> x[1..][i] == x[i + 1];
      assert forall i :: 0 <= i < |y| - 1 ==> y[1..][i] == y[i + 1];
      LiveDetermines(x[1..], y[1..], x[0].End(), hi);
      assert x == [x[0]] + x[1..] && y == [y[0]] + y[1..];
    }
  }

  lemma LiveRest(x: seq<Block>, lo: int, hi: int)
    requires Tiles(x, lo, hi) && x != []
    ensures Live(x[1..]) == Live(x) - {x[0]}
  {
    LiveApart(x, 0, lo, hi);
    LiveSplit(x, 0);
    assert x[..0] == [] && Live(x[..0]) == {};
  }

  // A block in use at the start of one is at the start of the other; else both start with a free block up to the same
  // place.
  lemma SameFirst(x: seq<Block>, y: seq<Block>, lo: int, hi: int)
    requires WellFormed(x, lo, hi) && WellFormed(y, lo, hi) && Live(x) == Live(y) && x != []
    ensures y != [] && x[0] == y[0]
  {
    TilesSpan(x, lo, hi);
    TilesSpan(y, lo, hi);
    if !x[0].free {
      FirstLive(x, y, lo, hi);
    } else if !y[0].free {
      FirstLive(y, x, lo, hi);
    } else {
      GapEnds(x, y, lo, hi);
      GapEnds(y, x, lo, hi);
    }
  }

  lemma FirstLive(x: seq<Block>, y: seq<Block>, lo: int, hi: int)
    requires Tiles(x, lo, hi) && Tiles(y, lo, hi) && Live(x) == Live(y) && x != [] && y != [] && !x[0].free
    ensures x[0] == y[0]
  {
    assert x[0] in Live(y);
    var j :| 0 <= j < |y| && y[j] == x[0];
    if j > 0 {
      TilesApart(y, 0, j, lo, hi);
    }
  }

  lemma GapEnds(x: seq<Block>, y: seq<Block>, lo: int, hi: int)
    requires WellFormed(x, lo, hi) && WellFormed(y, lo, hi) && Live(x) == Live(y) && x != [] && y != []
    requires x[0].free && y[0].free
    ensures y[0].End() <= x[0].End()
  {
    if |x| == 1 {
      TilesAt(x, 0, lo, hi);
      TilesAt(y, 0, lo, hi);
    } else {
      assert !x[1].free && x[1] in Live(y);
      var j :| 0 <= j < |y| && y[j] == x[1];
      TilesAt(x, 0, lo, hi);
      TilesApart(y, 0, j, lo, hi);
    }
  }

  lemma LiveOne(bs: seq<Block>, b: Block, lo: int, hi: int)
    requires WellFormed(bs, lo, hi) && b in Live(bs)
    ensures IsLive(bs, b.Payload()) && BlockOf(bs, b.Payload()) == b
  {
    var k :| 0 <= k < |bs| && bs[k] == b;
    FindAt(bs, k, lo, hi);
  }

  // ----- runs -----

  // calloc(num, size) is, for the blocks, malloc(num * size).
  datatype Call =
    | MallocCall(request: nat, grows: bool)
    | FreeCall(ptr: int)
    | ReallocCall(ptr: int, request: nat, grows: bool)

  // The heap after a run of calls, or nothing if some call frees what is not live.
  datatype Outcome = Misuse | Heap(bs: seq<Block>, brk: int)

  function Step(bs: seq<Block>, brk: int, c: Call): Outcome {
    match c
    case MallocCall(request, grows) =>
      Heap(MallocBlocks(bs, brk, request, grows).0, NewBreak(bs, brk, request, grows))
    case FreeCall(ptr) =>
      if ptr == NULL then Heap(bs, brk)
      else if IsLive(bs, ptr) then Heap(Freed(bs, ptr), brk)
      else Misuse
    case ReallocCall(ptr, request, grows) =>
      if ptr == NULL then Heap(MallocBlocks(bs, brk, request, grows).0, NewBreak(bs, brk, request, grows))
      else if !IsLive(bs, ptr) then Misuse
      else if request == 0 then Heap(Freed(bs, ptr), brk)
      else ReallocBlocks(bs, brk, ptr, request, grows)
  }

  // malloc of the rounded size and then, unless that failed, free of the old block.
  function ReallocBlocks(bs: seq<Block>, brk: int, ptr: int, request: nat, grows: bool): Outcome
    requires request > 0
  {
    var (bs', p) := MallocBlocks(bs, brk, Rounded(request), grows);
    if p == NULL then Heap(bs, brk)
    else if IsLive(bs', ptr) then Heap(Freed(bs', ptr), NewBreak(bs, brk, Rounded(request), grows))
    else Misuse
  }

  function Run(bs: seq<Block>, brk: int, calls: seq<Call>): Outcome
    decreases |calls|
  {
    if calls == [] then Heap(bs, brk)
    else
      match Step(bs, brk, calls[0])
      case Misuse => Misuse
      case Heap(bs', brk') => Run(bs', brk', calls[1..])
  }

  // realloc of a live block is never a misuse: the new block leaves the old one where it is.
  lemma ReallocIsAllowed(bs: seq<Block>, brk: int, ptr: int, request: nat, grows: bool, lo: int)
    requires WellFormed(bs, lo, brk) && 0 < lo && IsLive(bs, ptr)
    ensures Step(bs, brk, ReallocCall(ptr, request, grows)).Heap?
  {
    if request > 0 {
      var size := Rounded(request);
      MallocLive(bs, size, grows, lo, brk);
      MallocWellFormed(bs, lo, brk, size, grows);
      var (bs', p) := MallocBlocks(bs, brk, size, grows);
      if p != NULL {
        assert BlockOf(bs, ptr) in Live(bs');
        LiveOne(bs', BlockOf(bs, ptr), lo, NewBreak(bs, brk, size, grows));
      }
    }
  }

  lemma {:induction false} RunWellFormed(bs: seq<Block>, brk: int, calls: seq<Call>, lo: int)
    requires WellFormed(bs, lo, brk) && Run(bs, brk, calls).Heap?
    ensures var r := Run(bs, brk, calls); WellFormed(r.bs, lo, r.brk)
    decreases |calls|
  {
    if calls != [] {
      match calls[0] {
        case MallocCall(request, grows) =>
          MallocWellFormed(bs, lo, brk, request, grows);
        case FreeCall(ptr) =>
          if ptr != NULL {
            FreeWellFormed(bs, Find(bs, ptr - HEADER), lo, brk);
          }
        case ReallocCall(ptr, request, grows) =>
          if ptr == NULL {
            MallocWellFormed(bs, lo, brk, request, grows);
          } else if request == 0 {
            FreeWellFormed(bs, Find(bs, ptr - HEADER), lo, brk);
          } else {
            var size := Rounded(request);
            MallocWellFormed(bs, lo, brk, size, grows);
            var (bs', p) := MallocBlocks(bs, brk, size, grows);
            if p != NULL {
              FreeWellFormed(bs', Find(bs', ptr - HEADER), lo, NewBreak(bs, brk, size, grows));
            }
          }
      }
      var s := Step(bs, brk, calls[0]);
      RunWellFormed(s.bs, s.brk, calls[1..], lo);
    }
  }

  // After any run from an empty heap: if everything has been given back, one free block spans all the heap ever grew to.
  lemma FreedHeapIsOneBlock(calls: seq<Call>, lo: int)
    requires 0 < lo && Run([], lo, calls).Heap?
    ensures var r := Run([], lo, calls);
      Live(r.bs) == {} && r.bs != [] ==> r.bs == [Block(lo, r.brk - lo - OVERHEAD, true)]
  {
    RunWellFormed([], lo, calls, lo);
    var r := Run([], lo, calls);
    if Live(r.bs) == {} && r.bs != [] {
      NothingLive(r.bs, lo, r.brk);
    }
  }

  lemma NothingLive(bs: seq<Block>, lo: int, hi: int)
    requires WellFormed(bs, lo, hi) && Live(bs) == {} && bs != []
    ensures bs == [Block(lo, hi - lo - OVERHEAD, true)]
  {
    assert forall b :: b in bs ==> b.free || b in Live(bs);
    assert bs[0] in bs;
    assert |bs| == 1 || !(bs[0].free && bs[1].free);
    TilesAt(bs, 0, lo, hi);
  }

  // Payloads of two live blocks never overlap, nor do they touch any header, footer or free block.
  lemma LiveDisjoint(bs: seq<Block>, i: nat, j: nat, lo: int, hi: int)
    requires WellFormed(bs, lo, hi) && i < |bs| && j < |bs| && i != j && !bs[i].free
    ensures bs[i].Payload() + bs[i].size + FOOTER <= bs[j].addr || bs[j].End() <= bs[i].addr
    ensures lo <= bs[i].addr && bs[i].Payload() + bs[i].size + FOOTER <= hi
  {
    TilesAt(bs, i, lo, hi);
    if i < j {
      TilesApart(bs, i, j, lo, hi);
    } else {
      TilesApart(bs, j, i, lo, hi);
    }
  }
}
