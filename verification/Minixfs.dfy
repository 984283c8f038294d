// finding_filesystems/minixfs.c: reading and writing a file through its direct blocks and its
// indirect block.
module Minixfs {
  import opened MinixfsContents

  class FileSystem {
    const z: Sizes
    var names: map<string, nat>
    var d: Disk
    ghost var owner: Owners
    // How often there was no free inode or block.
    ghost var denials: nat

    ghost predicate Ok()
      reads this
    {
      z.block > 0 && Valid(z, d, owner) && forall path :: path in names ==> names[path] in d.inodes
    }

    constructor (z: Sizes)
      requires z.block > 0
      ensures Ok() && names == map[] && this.z == z
    {
      this.z := z;
      names := map[];
      d := Disk(map[], map[], map[]);
      owner := map[];
      denials := 0;
    }

    ghost function FileAt(ino: nat): File
      requires Ok() && ino in d.inodes
      reads this
    {
      FileOf(z, d, owner, ino)
    }

    // Lines 167-173 and 294-300
    method BlockRange(off: nat, count: nat) returns (blockstart: nat, shiftstart: nat, totalblock: nat)
      requires z.block > 0
      ensures Start(z.block, blockstart) + shiftstart == off && shiftstart < z.block
      ensures off + count <= Start(z.block, totalblock) < off + count + z.block
      ensures blockstart <= totalblock && (count > 0 ==> blockstart < totalblock)
    {
      blockstart := off / z.block;
      shiftstart := off % z.block;
      var remain := (off + count) % z.block;
      totalblock := (off + count) / z.block;
      if remain != 0 {
        totalblock := totalblock + 1;
      }
      DivisionStart(z.block, off);
      DivisionStart(z.block, off + count);
      if (off + count) / z.block < blockstart {
        StartGrows(z.block, (off + count) / z.block, blockstart);
      }
    }

    // ----- Reading -----

    // One memcpy out of a block; of no bytes, it does not matter from where.
    method CopyOut(block: nat, shift: nat, buf: array<Byte>, at: nat, n: nat)
      requires n > 0 ==> block in d.blocks && shift + n <= |d.blocks[block]|
      requires at + n <= buf.Length
      modifies buf
      ensures forall p :: at <= p < at + n ==> buf[p] == d.blocks[block][shift + (p - at)]
      ensures forall p :: 0 <= p < buf.Length && !(at <= p < at + n) ==> buf[p] == old(buf[p])
    {
      for i := 0 to n
        modifies buf
        invariant forall p :: at <= p < at + i ==> buf[p] == d.blocks[block][shift + (p - at)]
        invariant forall p :: 0 <= p < buf.Length && !(at <= p < at + i) ==> buf[p] == old(buf[p])
      {
        buf[at + i] := d.blocks[block][shift + i];
      }
    }

    // Where a copy has got to: `copy` bytes of the range are done, `count` are left, and if any
    // are, the next is at the start of block `next` of the file.
    static ghost predicate GotTo(block: nat, off: nat, total: nat, copy: nat, count: nat, next: nat) {
      copy + count == total && (count > 0 ==> off + copy == Start(block, next))
    }

    // Lines 304-313: from some block of an array, after a shift, as much as it has and is wanted.
    // It is block number base + i of the file.
    method ReadPiece(block_array: seq<nat>, i: nat, shift: nat, buf: array<Byte>, copy: nat, count: nat,
                     ghost ino: nat, ghost base: nat, ghost off: nat, ghost total: nat)
      returns (copied: nat, left: nat)
      requires Ok() && ino in d.inodes && shift < z.block && total <= buf.Length && copy + count == total
      requires off + total <= |FileAt(ino).bytes|
      requires count > 0 ==> off + copy == Start(z.block, base + i) + shift && i < |block_array|
      requires base + |block_array| <= |d.List(ino)| && block_array == d.List(ino)[base..base + |block_array|]
      requires forall p :: 0 <= p < copy ==> buf[p] == FileAt(ino).bytes[off + p]
      modifies buf
      ensures GotTo(z.block, off, total, copied, left, base + i + 1)
      ensures forall p :: 0 <= p < copied ==> buf[p] == FileAt(ino).bytes[off + p]
      ensures forall p :: total <= p < buf.Length ==> buf[p] == old(buf[p])
    {
      hide Valid, Flat;
      var numcpy := if count < z.block - shift then count else z.block - shift;
      var block := if i < |block_array| then block_array[i] else 0;
      FileIsWhole(z, d, owner, ino);
      if numcpy > 0 {
        assert block == d.List(ino)[base + i];
        forall k | 0 <= k < z.block
          ensures Start(z.block, base + i) + k < |FileAt(ino).bytes|
          ensures FileAt(ino).bytes[Start(z.block, base + i) + k] == d.blocks[block][k]
        {
          FlatAt(z.block, d.List(ino), d.blocks, base + i, k);
        }
      }
      CopyOut(block, shift, buf, copy, numcpy);
      copied := copy + numcpy;
      left := count - numcpy;
      forall p | 0 <= p < copied ensures buf[p] == FileAt(ino).bytes[off + p] {
        if p >= copy {
          assert buf[p] == d.blocks[block][shift + (p - copy)];
        }
      }
    }

    // Lines 314-324: whole blocks, and a part of the last one wanted.
    method ReadBlocks(block_array: seq<nat>, from: nat, end: nat, buf: array<Byte>, copy: nat, count: nat,
                      ghost ino: nat, ghost base: nat, ghost off: nat, ghost total: nat)
      returns (copied: nat, left: nat)
      requires Ok() && ino in d.inodes && total <= buf.Length
      requires off + total <= |FileAt(ino).bytes| && end <= |block_array|
      requires from <= end + 1 && GotTo(z.block, off, total, copy, count, base + from)
      requires base + |block_array| <= |d.List(ino)| && block_array == d.List(ino)[base..base + |block_array|]
      requires forall p :: 0 <= p < copy ==> buf[p] == FileAt(ino).bytes[off + p]
      modifies buf
      ensures GotTo(z.block, off, total, copied, left, base + if from <= end then end else from)
      ensures forall p :: 0 <= p < copied ==> buf[p] == FileAt(ino).bytes[off + p]
      ensures forall p :: total <= p < buf.Length ==> buf[p] == old(buf[p])
    {
      hide Valid, Flat;
      copied, left := copy, count;
      var i := from;
      while i < end
        invariant from <= i && (i <= end || i == from) && GotTo(z.block, off, total, copied, left, base + i)
        invariant forall p :: 0 <= p < copied ==> buf[p] == FileAt(ino).bytes[off + p]
        invariant forall p :: total <= p < buf.Length ==> buf[p] == old(buf[p])
      {
        copied, left := ReadPiece(block_array, i, 0, buf, copied, left, ino, base, off, total);
        i := i + 1;
      }
    }

    // Lines 303-324
    method ReadDirect(node: Inode, blockstart: nat, shiftstart: nat, totalblock: nat, buf: array<Byte>, count0: nat,
                      ghost ino: nat, ghost off: nat) returns (copy: nat, count: nat)
      requires Ok() && ino in d.inodes && node == d.inodes[ino] && count0 <= buf.Length
      requires InBlocks(z, d, ino, off, count0, blockstart, shiftstart, totalblock)
      requires off + count0 <= |FileAt(ino).bytes|
      requires totalblock <= z.direct
      modifies buf
      ensures copy == count0 && count == 0
      ensures forall p :: 0 <= p < count0 ==> buf[p] == FileAt(ino).bytes[off + p]
      ensures forall p :: count0 <= p < buf.Length ==> buf[p] == old(buf[p])
    {
      hide Valid, Flat, Start;
      ListParts(z, d, owner, ino);
      copy, count := ReadPiece(node.direct, blockstart, shiftstart, buf, 0, count0, ino, 0, off, count0);
      copy, count := ReadBlocks(node.direct, blockstart + 1, totalblock, buf, copy, count, ino, 0, off, count0);
    }

    // Lines 326-360
    method ReadAcross(node: Inode, blockstart: nat, shiftstart: nat, totalblock: nat, buf: array<Byte>, count0: nat,
                      ghost ino: nat, ghost off: nat) returns (copy: nat, count: nat)
      requires Ok() && ino in d.inodes && node == d.inodes[ino] && count0 <= buf.Length
      requires InBlocks(z, d, ino, off, count0, blockstart, shiftstart, totalblock)
      requires off + count0 <= |FileAt(ino).bytes|
      requires blockstart < z.direct < totalblock
      modifies buf
      ensures copy == count0 && count == 0
      ensures forall p :: 0 <= p < count0 ==> buf[p] == FileAt(ino).bytes[off + p]
      ensures forall p :: count0 <= p < buf.Length ==> buf[p] == old(buf[p])
    {
      hide Valid, Flat, Start;
      ListParts(z, d, owner, ino);
      copy, count := ReadPiece(node.direct, blockstart, shiftstart, buf, 0, count0, ino, 0, off, count0);
      copy, count := ReadBlocks(node.direct, blockstart + 1, z.direct, buf, copy, count, ino, 0, off, count0);
      var block_array := d.arrays[node.indirect.value];
      copy, count := ReadBlocks(block_array, 0, totalblock - z.direct, buf, copy, count, ino, z.direct, off, count0);
    }

    // Lines 361-386
    method ReadIndirect(node: Inode, blockstart: nat, shiftstart: nat, totalblock: nat, buf: array<Byte>, count0: nat,
                      ghost ino: nat, ghost off: nat) returns (copy: nat, count: nat)
      requires Ok() && ino in d.inodes && node == d.inodes[ino] && count0 <= buf.Length
      requires InBlocks(z, d, ino, off, count0, blockstart, shiftstart, totalblock)
      requires off + count0 <= |FileAt(ino).bytes|
      requires z.direct <= blockstart && z.direct < totalblock
      modifies buf
      ensures copy == count0 && count == 0
      ensures forall p :: 0 <= p < count0 ==> buf[p] == FileAt(ino).bytes[off + p]
      ensures forall p :: count0 <= p < buf.Length ==> buf[p] == old(buf[p])
    {
      hide Valid, Flat, Start;
      ListParts(z, d, owner, ino);
      var block_array := d.arrays[node.indirect.value];
      copy, count := ReadPiece(block_array, blockstart - z.direct, shiftstart, buf, 0, count0, ino, z.direct, off, count0);
      copy, count := ReadBlocks(block_array, blockstart - z.direct + 1, totalblock - z.direct, buf, copy, count,
                                ino, z.direct, off, count0);
    }

    // A read returns the bytes of the file from off on, as many as are asked for and there.
    method Read(path: string, buf: array<Byte>, count: nat, off: nat) returns (result: int, newOff: nat)
      requires Ok() && count <= buf.Length
      requires path in names ==> Min(off + count, FileAt(names[path]).size) <= |FileAt(names[path]).bytes|
      modifies buf
      ensures path !in names ==> result == -1 && newOff == off
      ensures path in names ==> result == Max(0, Min(count, FileAt(names[path]).size - off)) && newOff == off + result
      ensures path in names && result > 0 ==>
        off + result <= |FileAt(names[path]).bytes| && buf[..result] == FileAt(names[path]).bytes[off..off + result]
      ensures forall p :: 0 <= p < buf.Length && result <= p ==> buf[p] == old(buf[p])
    {
      hide Valid, Flat;
      if path !in names {
        return -1, off;
      }
      var ino := names[path];
      if d.inodes[ino].size <= off {
        return 0, off;
      }
      var n := count;
      if n + off > d.inodes[ino].size {
        n := d.inodes[ino].size - off;
      }
      var copy := ReadRange(ino, buf, n, off);
      return copy, off + copy;
    }

    // Lines 294-389
    method ReadRange(ino: nat, buf: array<Byte>, count0: nat, off: nat) returns (copy: nat)
      requires Ok() && ino in d.inodes && count0 <= buf.Length && off + count0 <= |FileAt(ino).bytes|
      modifies buf
      ensures copy == count0
      ensures forall p :: 0 <= p < count0 ==> buf[p] == FileAt(ino).bytes[off + p]
      ensures forall p :: count0 <= p < buf.Length ==> buf[p] == old(buf[p])
    {
      hide Valid, Flat, Start;
      var node := d.inodes[ino];
      var blockstart, shiftstart, totalblock := BlockRange(off, count0);
      FileIsWhole(z, d, owner, ino);
      BlocksSuffice(z.block, off + count0, totalblock, |d.List(ino)|);
      var count;
      if totalblock <= z.direct {
        copy, count := ReadDirect(node, blockstart, shiftstart, totalblock, buf, count0, ino, off);
      } else if blockstart < z.direct {
        copy, count := ReadAcross(node, blockstart, shiftstart, totalblock, buf, count0, ino, off);
      } else {
        copy, count := ReadIndirect(node, blockstart, shiftstart, totalblock, buf, count0, ino, off);
      }
      assert count == 0;
    }

    // ----- Writing -----

    // One memcpy into a block.
    method CopyIn(block: nat, shift: nat, buf: array<Byte>, at: nat, n: nat)
      requires n > 0 ==> block in d.blocks && shift + n <= |d.blocks[block]|
      requires at + n <= buf.Length
      modifies `d
      ensures d.inodes == old(d).inodes && d.arrays == old(d).arrays
      ensures n == 0 ==> d == old(d)
      ensures n > 0 ==> d.blocks == old(d).blocks[block :=
        old(d).blocks[block][..shift] + buf[at..at + n] + old(d).blocks[block][shift + n..]]
    {
      if n > 0 {
        d := d.(blocks := d.blocks[block := d.blocks[block][..shift] + buf[at..at + n] + d.blocks[block][shift + n..]]);
      }
    }

    // While a write is under way: of the disk it started with, exactly the bytes copied so far
    // have changed.
    ghost predicate Writing(was: Disk, ino: nat, off: nat, data: seq<Byte>)
      reads this
    {
      && z.block > 0 && Valid(z, was, owner) && ino in was.inodes
      && d.inodes == was.inodes && d.arrays == was.arrays
      && Patched(z.block, owner, was.blocks, d.blocks, ino, off, data)
    }

    // Lines 183-192
    method WritePiece(block_array: seq<nat>, i: nat, shift: nat, buf: array<Byte>, copy: nat, count: nat,
                      ghost was: Disk, ghost ino: nat, ghost base: nat, ghost off: nat, ghost total: nat)
      returns (copied: nat, left: nat)
      requires total <= buf.Length && copy + count == total && Writing(was, ino, off, buf[..copy])
      requires shift < z.block
      requires count > 0 ==> off + copy == Start(z.block, base + i) + shift && i < |block_array|
      requires base + |block_array| <= |was.List(ino)| && block_array == was.List(ino)[base..base + |block_array|]
      modifies `d
      ensures GotTo(z.block, off, total, copied, left, base + i + 1)
      ensures Writing(was, ino, off, buf[..copied])
    {
      hide Valid, Patched;
      var numcpy := if count < z.block - shift then count else z.block - shift;
      var block := if i < |block_array| then block_array[i] else 0;
      FileIsWhole(z, was, owner, ino);
      PatchedBlocks(z.block, owner, was.blocks, d.blocks, ino, off, buf[..copy]);
      ghost var before := d.blocks;
      if numcpy > 0 {
        assert block == was.List(ino)[base + i];
      }
      CopyIn(block, shift, buf, copy, numcpy);
      if numcpy > 0 {
        OwnersDistinct(z, was, owner);
        PatchMore(z.block, owner, was.blocks, before, ino, off, buf[..copy], block, shift, buf[copy..copy + numcpy], d.blocks);
        assert buf[..copy + numcpy] == buf[..copy] + buf[copy..copy + numcpy];
      }
      copied := copy + numcpy;
      left := count - numcpy;
    }

    // Lines 193-203
    method WriteBlocks(block_array: seq<nat>, from: nat, end: nat, buf: array<Byte>, copy: nat, count: nat,
                       ghost was: Disk, ghost ino: nat, ghost base: nat, ghost off: nat, ghost total: nat)
      returns (copied: nat, left: nat)
      requires total <= buf.Length && copy <= total && Writing(was, ino, off, buf[..copy])
      requires from <= end + 1 && end <= |block_array| && GotTo(z.block, off, total, copy, count, base + from)
      requires base + |block_array| <= |was.List(ino)| && block_array == was.List(ino)[base..base + |block_array|]
      modifies `d
      ensures GotTo(z.block, off, total, copied, left, base + if from <= end then end else from)
      ensures Writing(was, ino, off, buf[..copied])
    {
      hide Valid, Patched;
      copied, left := copy, count;
      var i := from;
      while i < end
        invariant from <= i && (i <= end || i == from) && GotTo(z.block, off, total, copied, left, base + i)
        invariant Writing(was, ino, off, buf[..copied])
      {
        copied, left := WritePiece(block_array, i, 0, buf, copied, left, was, ino, base, off, total);
        i := i + 1;
      }
    }

    // Lines 182-203
    method WriteDirect(node: Inode, blockstart: nat, shiftstart: nat, totalblock: nat, buf: array<Byte>, count0: nat,
                       ghost ino: nat, ghost off: nat) returns (copy: nat, count: nat)
      requires Ok() && ino in d.inodes && node == d.inodes[ino] && count0 <= buf.Length
      requires InBlocks(z, d, ino, off, count0, blockstart, shiftstart, totalblock)
      requires totalblock <= z.direct
      modifies `d
      ensures copy == count0 && count == 0
      ensures Writing(old(d), ino, off, buf[..count0])
    {
      hide Valid, Start, Patched;
      ListParts(z, d, owner, ino);
      NothingPatched(z, d, owner, ino, off);
      assert buf[..0] == [];
      ghost var was := d;
      copy, count := WritePiece(node.direct, blockstart, shiftstart, buf, 0, count0, was, ino, 0, off, count0);
      copy, count := WriteBlocks(node.direct, blockstart + 1, totalblock, buf, copy, count, was, ino, 0, off, count0);
    }

    // Lines 205-239
    method WriteAcross(node: Inode, blockstart: nat, shiftstart: nat, totalblock: nat, buf: array<Byte>, count0: nat,
                       ghost ino: nat, ghost off: nat) returns (copy: nat, count: nat)
      requires Ok() && ino in d.inodes && node == d.inodes[ino] && count0 <= buf.Length
      requires InBlocks(z, d, ino, off, count0, blockstart, shiftstart, totalblock)
      requires blockstart < z.direct < totalblock
      modifies `d
      ensures copy == count0 && count == 0
      ensures Writing(old(d), ino, off, buf[..count0])
    {
      hide Valid, Start, Patched;
      ListParts(z, d, owner, ino);
      NothingPatched(z, d, owner, ino, off);
      assert buf[..0] == [];
      ghost var was := d;
      copy, count := WritePiece(node.direct, blockstart, shiftstart, buf, 0, count0, was, ino, 0, off, count0);
      copy, count := WriteBlocks(node.direct, blockstart + 1, z.direct, buf, copy, count, was, ino, 0, off, count0);
      var block_array := d.arrays[node.indirect.value];
      copy, count := WriteBlocks(block_array, 0, totalblock - z.direct, buf, copy, count, was, ino, z.direct, off, count0);
    }

    // Lines 240-265
    method WriteIndirect(node: Inode, blockstart: nat, shiftstart: nat, totalblock: nat, buf: array<Byte>, count0: nat,
                       ghost ino: nat, ghost off: nat) returns (copy: nat, count: nat)
      requires Ok() && ino in d.inodes && node == d.inodes[ino] && count0 <= buf.Length
      requires InBlocks(z, d, ino, off, count0, blockstart, shiftstart, totalblock)
      requires z.direct <= blockstart && z.direct < totalblock
      modifies `d
      ensures copy == count0 && count == 0
      ensures Writing(old(d), ino, off, buf[..count0])
    {
      hide Valid, Start, Patched;
      ListParts(z, d, owner, ino);
      NothingPatched(z, d, owner, ino, off);
      assert buf[..0] == [];
      ghost var was := d;
      var block_array := d.arrays[node.indirect.value];
      copy, count := WritePiece(block_array, blockstart - z.direct, shiftstart, buf, 0, count0, was, ino, z.direct, off, count0);
      copy, count := WriteBlocks(block_array, blockstart - z.direct + 1, totalblock - z.direct, buf, copy, count,
                                 was, ino, z.direct, off, count0);
    }

    // minixfs_min_blockcount: gives the file more blocks, as long as there are free ones and room
    // for their numbers. Their contents are whatever they were.
    method MinBlockcount(ino: nat, blockcount: nat) returns (enough: bool)
      requires Ok() && ino in d.inodes
      modifies `d, `owner, `denials
      ensures Ok() && d.inodes.Keys == old(d).inodes.Keys
      ensures Grown(old(FileAt(ino)), FileAt(ino))
      ensures forall o :: o in d.inodes && o != ino ==> FileAt(o) == old(FileAt(o))
      ensures enough ==> blockcount <= |d.List(ino)|
      // It fails only if there is no free block, or if no file can have so many.
      ensures old(denials) <= denials
      ensures enough <==> denials == old(denials) && blockcount <= z.direct + z.indirect
      ensures blockcount <= |old(d).List(ino)| ==> enough && d == old(d)
    {
      hide Valid, Flat;
      while |d.List(ino)| < blockcount
        invariant Ok() && d.inodes.Keys == old(d).inodes.Keys
        invariant Grown(old(FileAt(ino)), FileAt(ino)) && denials == old(denials)
        invariant forall o :: o in d.inodes && o != ino ==> FileAt(o) == old(FileAt(o))
        invariant blockcount <= |old(d).List(ino)| ==> d == old(d)
        decreases blockcount - |d.List(ino)|
      {
        var ready := AssignIndirect(ino);
        if !ready {
          return false;
        }
        var added := AddBlock(ino);
        if !added {
          return false;
        }
      }
      ListAtMost(z, d, owner, ino);
      return true;
    }

    // Once all direct block numbers are used, a block is needed to hold more.
    method AssignIndirect(ino: nat) returns (ready: bool)
      requires Ok() && ino in d.inodes
      modifies `d, `denials
      ensures Ok() && d.inodes.Keys == old(d).inodes.Keys && d.List(ino) == old(d).List(ino)
      ensures forall o :: o in d.inodes ==> FileAt(o) == old(FileAt(o))
      ensures denials == old(denials) + if ready then 0 else 1
      ensures ready ==> |d.inodes[ino].direct| < z.direct || d.inodes[ino].indirect.Some?
    {
      hide Valid, Flat;
      var node := d.inodes[ino];
      if |node.direct| < z.direct || node.indirect.Some? {
        return true;
      }
      var t: nat := *;
      if t in d.arrays || t in d.blocks {
        denials := denials + 1;
        return false;
      }
      DirectAtMost(z, d, owner, ino);
      IndirectKeeps(z, d, owner, ino, t);
      d := d.(inodes := d.inodes[ino := node.(indirect := Some(t))], arrays := d.arrays[t := []]);
      return true;
    }

    // Fails if there is no free block, or the file has as many as it can have.
    method AddBlock(ino: nat) returns (added: bool)
      requires Ok() && ino in d.inodes
      requires |d.inodes[ino].direct| < z.direct || d.inodes[ino].indirect.Some?
      modifies `d, `owner, `denials
      ensures Ok() && d.inodes.Keys == old(d).inodes.Keys
      ensures Grown(old(FileAt(ino)), FileAt(ino))
      ensures forall o :: o in d.inodes && o != ino ==> FileAt(o) == old(FileAt(o))
      ensures added ==> |d.List(ino)| == |old(d).List(ino)| + 1
      ensures old(denials) <= denials <= old(denials) + 1
      ensures added <==> denials == old(denials) && |old(d).List(ino)| < z.direct + z.indirect
    {
      hide Valid, Flat;
      ListAtMost(z, d, owner, ino);
      var b: nat := *;
      var content: seq<Byte> := *;
      var node := d.inodes[ino];
      if |node.direct| >= z.direct && |d.arrays[node.indirect.value]| >= z.indirect {
        return false;
      }
      if b in d.blocks || b in d.arrays || |content| != z.block {
        denials := denials + 1;
        return false;
      }
      BlocksRecorded(z, d, owner, b);
      var next: Disk;
      if |node.direct| < z.direct {
        next := d.(inodes := d.inodes[ino := node.(direct := node.direct + [b])], blocks := d.blocks[b := content]);
      } else {
        next := d.(arrays := d.arrays[node.indirect.value := d.arrays[node.indirect.value] + [b]],
                   blocks := d.blocks[b := content]);
      }
      DirectAtMost(z, d, owner, ino);
      GrowsList(z, d, owner, ino, b, content, next);
      GrowsValid(z, d, owner, ino, b, content, next);
      GrowsFiles(z, d, owner, ino, b, content, next, owner[b := (ino, |d.List(ino)|)]);
      owner := owner[b := (ino, |d.List(ino)|)];
      d := next;
      added := true;
    }

    // minixfs_create_inode_for_path; it may fail.
    method CreateInode(path: string) returns (created: bool)
      requires Ok() && path !in names
      modifies `d, `names, `denials
      ensures Ok() && (!created ==> d == old(d) && names == old(names))
      ensures denials == old(denials) + if created then 0 else 1
      ensures forall o :: o in old(d).inodes ==> o in d.inodes && FileAt(o) == old(FileAt(o))
      ensures created ==> path in names && names == old(names)[path := names[path]] && names[path] !in old(d).inodes
      ensures created ==> d.inodes.Keys == old(d).inodes.Keys + {names[path]} && FileAt(names[path]) == File(0, [])
    {
      hide Valid, Flat;
      var ino: nat := *;
      if ino in d.inodes {
        denials := denials + 1;
        return false;
      }
      InodeKeeps(z, d, owner, ino);
      d := d.(inodes := d.inodes[ino := Inode(0, [], None)]);
      names := names[path := ino];
      return true;
    }

    // A write changes the bytes of the file from off on to those of the buffer, adds their number
    // to its size, and changes no other file.
    method Write(path: string, buf: array<Byte>, count: nat, off: nat) returns (result: int, newOff: nat)
      requires Ok() && count <= buf.Length
      modifies `d, `names, `owner, `denials
      ensures Ok() && ((result == count && newOff == off + count) || (result == -1 && newOff == off))
      // It fails exactly if an inode or a block is missing, or if the range ends behind all blocks a file can have.
      ensures result == -1 <==> denials > old(denials) || TooLong(z, off + count)
      ensures path in old(names) && off + count <= |old(FileAt(names[path])).bytes| ==> result == count
      ensures forall p :: p in old(names) ==> p in names && names[p] == old(names[p])
      ensures forall o :: o in old(d).inodes && !(path in old(names) && o == old(names)[path]) ==>
        o in d.inodes && FileAt(o) == old(FileAt(o))
      ensures path in old(names) && result == -1 ==> Grown(old(FileAt(names[path])), FileAt(names[path]))
      ensures path !in old(names) && result == -1 ==>
        (path !in names && d == old(d)) || (path in names && Grown(File(0, []), FileAt(names[path])))
      ensures path in old(names) && result == count ==>
        Wrote(old(FileAt(names[path])), off, buf[..count], FileAt(names[path]))
      ensures path !in old(names) && result == count ==>
        path in names && names[path] !in old(d).inodes && Wrote(File(0, []), off, buf[..count], FileAt(names[path]))
    {
      hide Valid, FileOf, Wrote, Grown;
      if path !in names {
        var created := CreateInode(path);
        if !created {
          return -1, off;
        }
      }
      result, newOff := WriteFile(names[path], buf, count, off);
    }

    // Lines 167-272
    method WriteFile(ino: nat, buf: array<Byte>, count: nat, off: nat) returns (result: int, newOff: nat)
      requires Ok() && ino in d.inodes && count <= buf.Length
      modifies `d, `owner, `denials
      ensures Ok() && ((result == count && newOff == off + count) || (result == -1 && newOff == off))
      ensures old(denials) <= denials
      ensures result == -1 <==> denials > old(denials) || TooLong(z, off + count)
      ensures off + count <= |old(FileAt(ino)).bytes| ==> result == count
      ensures d.inodes.Keys == old(d).inodes.Keys
      ensures forall o :: o in d.inodes && o != ino ==> FileAt(o) == old(FileAt(o))
      ensures result == -1 ==> Grown(old(FileAt(ino)), FileAt(ino))
      ensures result == count ==> Wrote(old(FileAt(ino)), off, buf[..count], FileAt(ino))
    {
      hide Valid, Flat, Patched, Start;
      var blockstart, shiftstart, totalblock := BlockRange(off, count);
      NeededBlocks(z, off + count, totalblock);
      if off + count <= |FileAt(ino).bytes| {
        BlocksSuffice(z.block, off + count, totalblock, |d.List(ino)|);
      }
      var enough := MinBlockcount(ino, totalblock);
      if !enough {
        return -1, off;
      }
      var copy := WriteRange(ino, blockstart, shiftstart, totalblock, buf, count, off, old(FileAt(ino)));
      return copy, off + copy;
    }

    // Lines 180-269
    method WriteRange(ino: nat, blockstart: nat, shiftstart: nat, totalblock: nat, buf: array<Byte>, count0: nat,
                      ghost off: nat, ghost f: File) returns (copy: nat)
      requires Ok() && ino in d.inodes && count0 <= buf.Length && Grown(f, FileAt(ino))
      requires InBlocks(z, d, ino, off, count0, blockstart, shiftstart, totalblock)
      modifies `d
      ensures Ok() && copy == count0 && d.inodes.Keys == old(d).inodes.Keys
      ensures forall o :: o in d.inodes && o != ino ==> FileAt(o) == old(FileAt(o))
      ensures Wrote(f, off, buf[..count0], FileAt(ino))
    {
      hide Valid, Patched, Flat;
      FileIsWhole(z, d, owner, ino);
      StartGrows(z.block, totalblock, |d.List(ino)|);
      hide Start;
      ghost var was := d;
      var node := d.inodes[ino];
      var count;
      if totalblock <= z.direct {
        copy, count := WriteDirect(node, blockstart, shiftstart, totalblock, buf, count0, ino, off);
      } else if blockstart < z.direct {
        copy, count := WriteAcross(node, blockstart, shiftstart, totalblock, buf, count0, ino, off);
      } else {
        copy, count := WriteIndirect(node, blockstart, shiftstart, totalblock, buf, count0, ino, off);
      }
      assert count == 0;
      d := d.(inodes := d.inodes[ino := node.(size := node.size + copy)]);
      PatchedFiles(z, f, was, owner, ino, off, buf[..count0], d);
    }
  }

  function Min(a: int, b: int): int { if a < b then a else b }

  function Max(a: int, b: int): int { if a < b then b else a }

  // The range of total bytes from off on starts `shift` bytes into block `first` and ends before
  // block `end`; the file has those blocks.
  ghost predicate InBlocks(z: Sizes, d: Disk, ino: nat, off: nat, total: nat, first: nat, shift: nat, end: nat) {
    && ino in d.inodes && shift < z.block && Start(z.block, first) + shift == off
    && off + total <= Start(z.block, end) && first <= end <= |d.List(ino)| && (total > 0 ==> first < end)
  }

  lemma NothingPatched(z: Sizes, d: Disk, owner: Owners, ino: nat, off: nat)
    requires Valid(z, d, owner)
    ensures Patched(z.block, owner, d.blocks, d.blocks, ino, off, [])
  {
    forall x | x in d.blocks ensures x in owner && |d.blocks[x]| == z.block {
      assert ValidBlock(z, d, owner, x);
    }
  }

  // The disk once inode ino has an empty indirect block t.
  function WithIndirect(d: Disk, ino: nat, t: nat): Disk
    requires ino in d.inodes
  {
    d.(inodes := d.inodes[ino := d.inodes[ino].(indirect := Some(t))], arrays := d.arrays[t := []])
  }

  lemma IndirectLists(z: Sizes, d: Disk, owner: Owners, ino: nat, t: nat, o: nat)
    requires ValidInode(z, d, owner, o) && ino in d.inodes && t !in d.arrays && d.inodes[ino].indirect.None?
    requires o in d.inodes && |d.inodes[ino].direct| == z.direct
    ensures WithIndirect(d, ino, t).List(o) == d.List(o) && ValidInode(z, WithIndirect(d, ino, t), owner, o)
  {
  }

  lemma IndirectKeeps(z: Sizes, d: Disk, owner: Owners, ino: nat, t: nat)
    requires Valid(z, d, owner) && ino in d.inodes && t !in d.arrays
    requires d.inodes[ino].indirect.None? && |d.inodes[ino].direct| == z.direct
    ensures Valid(z, WithIndirect(d, ino, t), owner)
    ensures forall o :: o in d.inodes ==>
      WithIndirect(d, ino, t).List(o) == d.List(o) && FileOf(z, WithIndirect(d, ino, t), owner, o) == FileOf(z, d, owner, o)
  {
    hide Flat, ValidInode;
    var n := WithIndirect(d, ino, t);
    forall o | o in d.inodes ensures n.List(o) == d.List(o) && ValidInode(z, n, owner, o) {
      assert ValidInode(z, d, owner, o);
      IndirectLists(z, d, owner, ino, t, o);
    }
    forall o ensures ValidInode(z, n, owner, o) {
      NoInode(z, n, owner, o);
    }
    forall x ensures ValidBlock(z, n, owner, x) {
      assert ValidBlock(z, d, owner, x);
    }
    forall i, j ensures OwnArray(n, i, j) {
      assert OwnArray(d, i, j);
      ArrayKnown(z, d, owner, i);
      ArrayKnown(z, d, owner, j);
    }
  }

  lemma NoInode(z: Sizes, d: Disk, owner: Owners, o: nat)
    ensures o !in d.inodes ==> ValidInode(z, d, owner, o)
  {
  }

  lemma ArrayKnown(z: Sizes, d: Disk, owner: Owners, o: nat)
    requires Valid(z, d, owner)
    ensures o in d.inodes && d.inodes[o].indirect.Some? ==> d.inodes[o].indirect.value in d.arrays
  {
    assert ValidInode(z, d, owner, o);
  }

  lemma InodeKeeps(z: Sizes, d: Disk, owner: Owners, ino: nat)
    requires Valid(z, d, owner) && ino !in d.inodes
    ensures var n := d.(inodes := d.inodes[ino := Inode(0, [], None)]);
      && Valid(z, n, owner) && FileOf(z, n, owner, ino) == File(0, [])
      && forall o :: o in d.inodes ==> FileOf(z, n, owner, o) == FileOf(z, d, owner, o)
  {
    var n := d.(inodes := d.inodes[ino := Inode(0, [], None)]);
    forall o | o in d.inodes ensures n.List(o) == d.List(o) {
    }
    forall o ensures ValidInode(z, n, owner, o) {
      assert ValidInode(z, d, owner, o);
    }
    forall x ensures ValidBlock(z, n, owner, x) {
      assert ValidBlock(z, d, owner, x);
    }
    forall i, j ensures OwnArray(n, i, j) {
      assert OwnArray(d, i, j);
    }
  }

  lemma BlocksRecorded(z: Sizes, d: Disk, owner: Owners, b: nat)
    requires Valid(z, d, owner)
    ensures b in owner <==> b in d.blocks
  {
    assert ValidBlock(z, d, owner, b);
  }

  lemma DirectAtMost(z: Sizes, d: Disk, owner: Owners, ino: nat)
    requires Valid(z, d, owner) && ino in d.inodes
    ensures |d.inodes[ino].direct| <= z.direct
  {
    assert ValidInode(z, d, owner, ino);
  }

  // A range that ends behind all blocks a file can have.
  ghost predicate TooLong(z: Sizes, end: nat) { end > Start(z.block, z.direct + z.indirect) }

  lemma NeededBlocks(z: Sizes, end: nat, totalblock: nat)
    requires z.block > 0 && end <= Start(z.block, totalblock) < end + z.block
    ensures TooLong(z, end) <==> totalblock > z.direct + z.indirect
  {
    if totalblock <= z.direct + z.indirect {
      StartGrows(z.block, totalblock, z.direct + z.indirect);
    } else {
      StartGrows(z.block, z.direct + z.indirect, totalblock);
    }
  }

  lemma ListAtMost(z: Sizes, d: Disk, owner: Owners, ino: nat)
    requires Valid(z, d, owner) && ino in d.inodes
    ensures |d.List(ino)| <= z.direct + z.indirect
    ensures |d.inodes[ino].direct| < z.direct ==> |d.List(ino)| == |d.inodes[ino].direct|
    ensures d.inodes[ino].indirect.Some? ==>
      && |d.inodes[ino].direct| == z.direct && d.inodes[ino].indirect.value in d.arrays
      && |d.List(ino)| == z.direct + |d.arrays[d.inodes[ino].indirect.value]|
  {
    assert ValidInode(z, d, owner, ino);
  }

  // How the list of a file is made up.
  lemma ListParts(z: Sizes, d: Disk, owner: Owners, ino: nat)
    requires Valid(z, d, owner) && ino in d.inodes
    ensures |d.inodes[ino].direct| <= |d.List(ino)| && d.inodes[ino].direct == d.List(ino)[0..|d.inodes[ino].direct|]
    ensures |d.inodes[ino].direct| <= z.direct && (|d.List(ino)| <= z.direct ==> |d.inodes[ino].direct| == |d.List(ino)|)
    ensures |d.List(ino)| > z.direct ==>
      && |d.inodes[ino].direct| == z.direct && d.inodes[ino].indirect.Some?
      && d.inodes[ino].indirect.value in d.arrays
      && z.direct + |d.arrays[d.inodes[ino].indirect.value]| == |d.List(ino)|
      && d.arrays[d.inodes[ino].indirect.value] == d.List(ino)[z.direct..|d.List(ino)|]
  {
    assert ValidInode(z, d, owner, ino);
  }

  // No more blocks are needed than there are.
  lemma BlocksSuffice(b: nat, end: nat, needed: nat, n: nat)
    requires end <= Start(b, n) && Start(b, needed) < end + b
    ensures needed <= n
  {
  }

  lemma OwnersDistinct(z: Sizes, d: Disk, owner: Owners)
    requires Valid(z, d, owner)
    ensures forall x, y :: x in owner && y in owner && owner[x] == owner[y] ==> x == y
  {
    forall x, y | x in owner && y in owner && owner[x] == owner[y] ensures x == y {
      assert ValidBlock(z, d, owner, x) && ValidBlock(z, d, owner, y);
    }
  }

  lemma PatchedBlocks(b: nat, owner: Owners, was: map<nat, seq<Byte>>, now: map<nat, seq<Byte>>,
                      ino: nat, off: nat, data: seq<Byte>)
    requires Patched(b, owner, was, now, ino, off, data)
    ensures now.Keys == was.Keys && forall x :: x in now ==> |now[x]| == b
  {
  }
}
