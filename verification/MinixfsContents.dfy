// A file of finding_filesystems/minixfs.c as one flat sequence of bytes.
module MinixfsContents {

  type Byte = bv8

  // Where block i starts, with blocks of b bytes.
  function Start(b: nat, i: nat): nat {
    if i == 0 then 0 else Start(b, i - 1) + b
  }

  lemma {:induction false} StartIsProduct(b: nat, i: nat)
    ensures Start(b, i) == i * b
  {
    if i > 0 {
      StartIsProduct(b, i - 1);
    }
  }

  lemma {:induction false} StartGrows(b: nat, i: nat, j: nat)
    requires i <= j
    ensures Start(b, i) <= Start(b, j)
    ensures i < j ==> Start(b, i) + b <= Start(b, j)
    decreases j
  {
    if i < j {
      StartGrows(b, i, j - 1);
    }
  }

  lemma DivisionStart(b: nat, n: nat)
    requires b > 0
    ensures Start(b, n / b) + n % b == n && n % b < b
  {
    StartIsProduct(b, n / b);
  }

  ghost predicate Whole(b: nat, list: seq<nat>, blocks: map<nat, seq<Byte>>) {
    forall i :: 0 <= i < |list| ==> list[i] in blocks && |blocks[list[i]]| == b
  }

  // The bytes of the listed blocks, one block after the other.
  ghost function Flat(b: nat, list: seq<nat>, blocks: map<nat, seq<Byte>>): (r: seq<Byte>)
    requires Whole(b, list, blocks)
    ensures |r| == Start(b, |list|)
    decreases |list|
  {
    if list == [] then [] else Flat(b, list[..|list| - 1], blocks) + blocks[list[|list| - 1]]
  }

  lemma {:induction false} FlatAt(b: nat, list: seq<nat>, blocks: map<nat, seq<Byte>>, i: nat, k: nat)
    requires Whole(b, list, blocks) && i < |list| && k < b
    ensures Start(b, i) + k < Start(b, |list|)
    ensures Flat(b, list, blocks)[Start(b, i) + k] == blocks[list[i]][k]
    decreases |list|
  {
    StartGrows(b, i, |list|);
    StartGrows(b, i + 1, |list|);
    if i < |list| - 1 {
      FlatAt(b, list[..|list| - 1], blocks, i, k);
    }
  }

  // ----- One write -----

  // A file: the size in its inode, and the bytes of all its blocks.
  datatype File = File(size: nat, bytes: seq<Byte>)

  // g is f with data written at off: the range and nothing else has changed, the file may have
  // more blocks, and, as line 269 has it, its size has grown by the number of bytes written.
  ghost predicate Wrote(f: File, off: nat, data: seq<Byte>, g: File) {
    && |f.bytes| <= |g.bytes| && off + |data| <= |g.bytes| && g.size == f.size + |data|
    && (forall p :: 0 <= p < |data| ==> g.bytes[off + p] == data[p])
    && (forall p :: 0 <= p < |f.bytes| && !(off <= p < off + |data|) ==> g.bytes[p] == f.bytes[p])
  }

  // What the size should be: the end of the range, if that is beyond the old end.
  function RightSize(f: File, off: nat, data: seq<Byte>): nat {
    if data != [] && f.size < off + |data| then off + |data| else f.size
  }

  // The size is right exactly for appends (and for writes of nothing).
  lemma SizeExact(f: File, off: nat, data: seq<Byte>, g: File)
    requires Wrote(f, off, data, g)
    ensures g.size == RightSize(f, off, data) <==> off == f.size || data == []
  {
  }

  function Concat(chunks: seq<seq<Byte>>): seq<Byte> {
    if chunks == [] then [] else Concat(chunks[..|chunks| - 1]) + chunks[|chunks| - 1]
  }

  lemma AppendExtends(f: File, data: seq<Byte>, g: File)
    requires Wrote(f, f.size, data, g) && f.size <= |f.bytes|
    ensures g.size <= |g.bytes| && g.bytes[..g.size] == f.bytes[..f.size] + data
  {
  }

  // Whatever is appended, in however many writes, reads back as the concatenation.
  lemma {:induction false} AppendsConcatenate(files: seq<File>, chunks: seq<seq<Byte>>)
    requires |files| == |chunks| + 1 && files[0].size <= |files[0].bytes|
    requires forall i :: 0 <= i < |chunks| ==> Wrote(files[i], files[i].size, chunks[i], files[i + 1])
    ensures files[|chunks|].size <= |files[|chunks|].bytes|
    ensures files[|chunks|].bytes[..files[|chunks|].size] == files[0].bytes[..files[0].size] + Concat(chunks)
    decreases |chunks|
  {
    hide Wrote;
    if chunks == [] {
      assert files[0].bytes[..files[0].size] + [] == files[0].bytes[..files[0].size];
    } else {
      var n := |chunks| - 1;
      var fewer := files[..n + 1];
      forall i | 0 <= i < n ensures Wrote(fewer[i], fewer[i].size, chunks[..n][i], fewer[i + 1]) {
        assert Wrote(files[i], files[i].size, chunks[i], files[i + 1]);
      }
      AppendsConcatenate(fewer, chunks[..n]);
      AppendExtends(files[n], chunks[n], files[n + 1]);
    }
  }

  // ----- Writing to some blocks -----

  // Which file, and which of its blocks, every block is.
  type Owners = map<nat, (nat, nat)>

  // Of all blocks, exactly the bytes of file ino in the range of data have changed.
  ghost predicate Patched(b: nat, owner: Owners, was: map<nat, seq<Byte>>, now: map<nat, seq<Byte>>,
                          ino: nat, off: nat, data: seq<Byte>) {
    now.Keys == was.Keys && forall x :: x in was ==> x in owner && |was[x]| == b && BlockPatched(b, owner, was, now, ino, off, data, x)
  }

  ghost predicate BlockPatched(b: nat, owner: Owners, was: map<nat, seq<Byte>>, now: map<nat, seq<Byte>>,
                               ino: nat, off: nat, data: seq<Byte>, x: nat)
    requires x in was && x in now && x in owner
  {
    && |was[x]| == b == |now[x]|
    && forall k :: 0 <= k < b ==>
      now[x][k] == if owner[x].0 == ino && off <= Start(b, owner[x].1) + k < off + |data|
                   then data[Start(b, owner[x].1) + k - off] else was[x][k]
  }

  // Copying one more piece into block number i of the file, where the range has got to.
  lemma PatchMore(b: nat, owner: Owners, was: map<nat, seq<Byte>>, now: map<nat, seq<Byte>>, ino: nat, off: nat,
                  data: seq<Byte>, x: nat, shift: nat, piece: seq<Byte>, next: map<nat, seq<Byte>>)
    requires Patched(b, owner, was, now, ino, off, data)
    requires x in now && x in owner && owner[x].0 == ino && shift + |piece| <= b
    requires Start(b, owner[x].1) + shift == off + |data|
    requires forall y, z :: y in owner && z in owner && owner[y] == owner[z] ==> y == z
    requires next == now[x := now[x][..shift] + piece + now[x][shift + |piece|..]]
    ensures Patched(b, owner, was, next, ino, off, data + piece)
  {
    forall y | y in was ensures BlockPatched(b, owner, was, next, ino, off, data + piece, y) {
      assert BlockPatched(b, owner, was, now, ino, off, data, y);
      if y != x && owner[y].0 == ino {
        var i, j := owner[x].1, owner[y].1;
        if i < j {
          StartGrows(b, i, j);
        } else {
          StartGrows(b, j, i);
        }
      }
    }
  }

  lemma {:induction false} PatchedFlat(b: nat, owner: Owners, was: map<nat, seq<Byte>>, now: map<nat, seq<Byte>>,
                    ino: nat, off: nat, data: seq<Byte>, o: nat, list: seq<nat>, n: nat)
    requires Patched(b, owner, was, now, ino, off, data) && Whole(b, list, was) && n <= |list|
    requires forall i :: 0 <= i < |list| ==> list[i] in owner && owner[list[i]] == (o, i)
    ensures Whole(b, list, now)
    ensures forall p :: 0 <= p < Start(b, n) ==>
      Flat(b, list[..n], now)[p] ==
        if o == ino && off <= p < off + |data| then data[p - off] else Flat(b, list[..n], was)[p]
  {
    forall i | 0 <= i < |list| ensures list[i] in now && |now[list[i]]| == b {
      assert BlockPatched(b, owner, was, now, ino, off, data, list[i]);
    }
    if n > 0 {
      PatchedFlat(b, owner, was, now, ino, off, data, o, list, n - 1);
      assert list[..n][..n - 1] == list[..n - 1];
      assert BlockPatched(b, owner, was, now, ino, off, data, list[n - 1]);
    }
  }

  // ----- The disk -----

  datatype Option<T> = None | Some(value: T)

  // The block numbers of a file: `direct` lists those assigned, and once it is full, `indirect` is
  // the block that holds the others.
  datatype Inode = Inode(size: nat, direct: seq<nat>, indirect: Option<nat>)

  // Sizes: sizeof(data_block), NUM_DIRECT_BLOCKS and NUM_INDIRECT_BLOCKS.
  datatype Sizes = Sizes(block: nat, direct: nat, indirect: nat)

  // Data blocks and indirect blocks, by number.
  datatype Disk = Disk(inodes: map<nat, Inode>, blocks: map<nat, seq<Byte>>, arrays: map<nat, seq<nat>>) {
    function List(ino: nat): seq<nat>
      requires ino in inodes
    {
      var node := inodes[ino];
      node.direct + if node.indirect.Some? && node.indirect.value in arrays then arrays[node.indirect.value] else []
    }
  }

  ghost predicate ValidInode(z: Sizes, d: Disk, owner: Owners, ino: nat) {
    ino in d.inodes ==>
      && |d.inodes[ino].direct| <= z.direct
      && (d.inodes[ino].indirect.Some? ==>
            && |d.inodes[ino].direct| == z.direct && d.inodes[ino].indirect.value in d.arrays
            && |d.arrays[d.inodes[ino].indirect.value]| <= z.indirect)
      && forall i :: 0 <= i < |d.List(ino)| ==> d.List(ino)[i] in owner && owner[d.List(ino)[i]] == (ino, i)
  }

  ghost predicate ValidBlock(z: Sizes, d: Disk, owner: Owners, b: nat) {
    && (b in owner ==> owner[b].0 in d.inodes && owner[b].1 < |d.List(owner[b].0)| && d.List(owner[b].0)[owner[b].1] == b)
    && (b in owner <==> b in d.blocks)
    && (b in d.blocks ==> |d.blocks[b]| == z.block)
  }

  ghost predicate OwnArray(d: Disk, i: nat, j: nat) {
    i in d.inodes && j in d.inodes && d.inodes[i].indirect.Some? && d.inodes[i].indirect == d.inodes[j].indirect ==> i == j
  }

  // Every block in use belongs to one place of one file.
  ghost predicate Valid(z: Sizes, d: Disk, owner: Owners) {
    && z.block > 0
    && (forall ino :: ValidInode(z, d, owner, ino))
    && (forall b :: ValidBlock(z, d, owner, b))
    && (forall i, j :: OwnArray(d, i, j))
  }

  lemma FileIsWhole(z: Sizes, d: Disk, owner: Owners, ino: nat)
    requires Valid(z, d, owner) && ino in d.inodes
    ensures Whole(z.block, d.List(ino), d.blocks)
    ensures forall i :: 0 <= i < |d.List(ino)| ==> d.List(ino)[i] in owner && owner[d.List(ino)[i]] == (ino, i)
  {
    assert ValidInode(z, d, owner, ino);
    forall i | 0 <= i < |d.List(ino)| ensures d.List(ino)[i] in d.blocks && |d.blocks[d.List(ino)[i]]| == z.block {
      assert ValidBlock(z, d, owner, d.List(ino)[i]);
    }
  }

  ghost function FileOf(z: Sizes, d: Disk, owner: Owners, ino: nat): File
    requires Valid(z, d, owner) && ino in d.inodes
  {
    FileIsWhole(z, d, owner, ino);
    File(d.inodes[ino].size, Flat(z.block, d.List(ino), d.blocks))
  }

  // ----- One more block for a file -----

  ghost predicate CanGrow(z: Sizes, d: Disk, owner: Owners, ino: nat, b: nat, content: seq<Byte>) {
    ino in d.inodes && b !in d.blocks && b !in owner && |content| == z.block
  }

  // The new block is direct, or the next entry of the indirect block, which may be new as well.
  ghost predicate Grows(z: Sizes, d: Disk, ino: nat, b: nat, content: seq<Byte>, n: Disk)
    requires ino in d.inodes
  {
    var node := d.inodes[ino];
    && n.blocks == d.blocks[b := content]
    && (|| (|node.direct| < z.direct && n.inodes == d.inodes[ino := node.(direct := node.direct + [b])] && n.arrays == d.arrays)
        || (|node.direct| == z.direct && node.indirect.Some? && node.indirect.value in d.arrays
            && |d.arrays[node.indirect.value]| < z.indirect && n.inodes == d.inodes
            && n.arrays == d.arrays[node.indirect.value := d.arrays[node.indirect.value] + [b]]))
  }

  lemma GrowsList(z: Sizes, d: Disk, owner: Owners, ino: nat, b: nat, content: seq<Byte>, n: Disk)
    requires Valid(z, d, owner) && CanGrow(z, d, owner, ino, b, content) && Grows(z, d, ino, b, content, n)
    ensures n.inodes.Keys == d.inodes.Keys && n.List(ino) == d.List(ino) + [b]
    ensures forall o :: o in d.inodes && o != ino ==> n.List(o) == d.List(o) && n.inodes[o] == d.inodes[o]
    ensures n.inodes[ino].size == d.inodes[ino].size
  {
    assert ValidInode(z, d, owner, ino);
    forall o | o in d.inodes && o != ino ensures n.List(o) == d.List(o) {
      assert OwnArray(d, o, ino);
    }
  }

  lemma GrowsValid(z: Sizes, d: Disk, owner: Owners, ino: nat, b: nat, content: seq<Byte>, n: Disk)
    requires Valid(z, d, owner) && CanGrow(z, d, owner, ino, b, content) && Grows(z, d, ino, b, content, n)
    ensures Valid(z, n, owner[b := (ino, |d.List(ino)|)])
  {
    GrowsList(z, d, owner, ino, b, content, n);
    var owner' := owner[b := (ino, |d.List(ino)|)];
    forall o ensures ValidInode(z, n, owner', o) {
      assert ValidInode(z, d, owner, o);
    }
    forall x ensures ValidBlock(z, n, owner', x) {
      assert ValidBlock(z, d, owner, x);
    }
    forall i, j ensures OwnArray(n, i, j) {
      assert OwnArray(d, i, j);
    }
  }

  lemma {:induction false} FlatSame(b: nat, list: seq<nat>, blocks: map<nat, seq<Byte>>, others: map<nat, seq<Byte>>)
    requires Whole(b, list, blocks) && forall x :: x in list ==> x in others && x in blocks && others[x] == blocks[x]
    ensures Whole(b, list, others) && Flat(b, list, others) == Flat(b, list, blocks)
    decreases |list|
  {
    if list != [] {
      FlatSame(b, list[..|list| - 1], blocks, others);
    }
  }

  // The file has more blocks, and is otherwise as it was.
  ghost predicate Grown(f: File, g: File) {
    g.size == f.size && f.bytes <= g.bytes
  }

  lemma GrowsFiles(z: Sizes, d: Disk, owner: Owners, ino: nat, b: nat, content: seq<Byte>, n: Disk, owner': Owners)
    requires Valid(z, d, owner) && CanGrow(z, d, owner, ino, b, content) && Grows(z, d, ino, b, content, n)
    requires owner' == owner[b := (ino, |d.List(ino)|)] && Valid(z, n, owner')
    ensures Grown(FileOf(z, d, owner, ino), FileOf(z, n, owner', ino)) && n.inodes.Keys == d.inodes.Keys
    ensures forall o :: o in d.inodes && o != ino ==> FileOf(z, n, owner', o) == FileOf(z, d, owner, o)
  {
    hide Valid, Flat;
    GrowsList(z, d, owner, ino, b, content, n);
    forall o | o in d.inodes
      ensures Whole(z.block, d.List(o), d.blocks) && Whole(z.block, d.List(o), n.blocks)
      ensures Flat(z.block, d.List(o), n.blocks) == Flat(z.block, d.List(o), d.blocks)
    {
      FileIsWhole(z, d, owner, o);
      FlatSame(z.block, d.List(o), d.blocks, n.blocks);
    }
    FileIsWhole(z, n, owner', ino);
    FlatMore(z.block, d.List(ino), n.blocks, b);
  }

  lemma FlatMore(size: nat, list: seq<nat>, blocks: map<nat, seq<Byte>>, b: nat)
    requires Whole(size, list + [b], blocks) && Whole(size, list, blocks)
    ensures b in blocks && Flat(size, list + [b], blocks) == Flat(size, list, blocks) + blocks[b]
  {
    assert (list + [b])[|list|] == b;
    assert (list + [b])[..|list|] == list;
  }

  // ----- From patched blocks to a written file -----

  lemma PatchedValid(z: Sizes, d: Disk, owner: Owners, ino: nat, off: nat, data: seq<Byte>, n: Disk)
    requires Valid(z, d, owner) && Patched(z.block, owner, d.blocks, n.blocks, ino, off, data)
    requires ino in d.inodes && n.arrays == d.arrays
    requires n.inodes == d.inodes[ino := d.inodes[ino].(size := d.inodes[ino].size + |data|)]
    ensures Valid(z, n, owner) && forall o :: o in d.inodes ==> n.List(o) == d.List(o)
  {
    assert forall o :: o in d.inodes ==> n.List(o) == d.List(o);
    forall o ensures ValidInode(z, n, owner, o) {
      assert ValidInode(z, d, owner, o);
    }
    forall x ensures ValidBlock(z, n, owner, x) {
      assert ValidBlock(z, d, owner, x);
      if x in d.blocks {
        assert BlockPatched(z.block, owner, d.blocks, n.blocks, ino, off, data, x);
      }
    }
    forall i, j ensures OwnArray(n, i, j) {
      assert OwnArray(d, i, j);
    }
  }

  lemma PatchedFiles(z: Sizes, f: File, d: Disk, owner: Owners, ino: nat, off: nat, data: seq<Byte>, n: Disk)
    requires Valid(z, d, owner) && Patched(z.block, owner, d.blocks, n.blocks, ino, off, data)
    requires ino in d.inodes && n.arrays == d.arrays
    requires n.inodes == d.inodes[ino := d.inodes[ino].(size := d.inodes[ino].size + |data|)]
    requires Grown(f, FileOf(z, d, owner, ino)) && off + |data| <= |FileOf(z, d, owner, ino).bytes|
    ensures Valid(z, n, owner) && Wrote(f, off, data, FileOf(z, n, owner, ino))
    ensures forall o :: o in d.inodes && o != ino ==> FileOf(z, n, owner, o) == FileOf(z, d, owner, o)
  {
    hide Valid, Flat, Patched;
    PatchedValid(z, d, owner, ino, off, data, n);
    forall o | o in d.inodes
      ensures |FileOf(z, n, owner, o).bytes| == |FileOf(z, d, owner, o).bytes|
      ensures forall p :: 0 <= p < |FileOf(z, d, owner, o).bytes| ==>
        FileOf(z, n, owner, o).bytes[p] ==
          if o == ino && off <= p < off + |data| then data[p - off] else FileOf(z, d, owner, o).bytes[p]
    {
      FileIsWhole(z, d, owner, o);
      var list := d.List(o);
      assert list[..|list|] == list;
      PatchedFlat(z.block, owner, d.blocks, n.blocks, ino, off, data, o, list, |list|);
    }
  }
}
