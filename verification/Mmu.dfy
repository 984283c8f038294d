// ideal_indirection/mmu.c: virtual memory read and written through a TLB and two levels of tables.
module Mmu {
  import opened MmuMemory

  datatype Address = Address(pid: nat, va: nat)

  datatype Segment = Segment(start: nat, end: nat, read: bool, write: bool)

  // A segmentation fault is counted; a Panic is the kernel being out of frames.
  datatype Outcome = Done | SegmentationFault | Panic

  // ----- The flat memory -----

  // What every process has written and not overwritten, byte by byte.
  type Flat = map<Address, Byte>

  ghost predicate FlatByte(m: Memory, a: Address, b: Byte) {
    a.va < 0x1_0000_0000 && m.Walk(a.pid, PageNumber(a.va)).Some?
    && Holds(m, m.Walk(a.pid, PageNumber(a.va)).value, Offset(a.va), b)
  }

  ghost predicate Represents(m: Memory, flat: Flat) {
    forall a :: a in flat ==> FlatByte(m, a, flat[a])
  }

  // If the process has written at a, then b is what it wrote there last.
  ghost predicate LastWritten(flat: Flat, a: Address, b: Byte) {
    a in flat ==> flat[a] == b
  }

  // Every TLB entry is what the page walk gives.
  ghost predicate TlbAgrees(m: Memory, tlb: map<nat, Loc>, pid: nat) {
    forall pn :: pn in tlb ==> m.Walk(pid, pn) == Some(tlb[pn])
  }

  predicate InRange(a: Address, pid: nat, va: nat, n: nat) {
    a.pid == pid && va <= a.va < va + n
  }

  function Range(pid: nat, va: nat, n: nat): (r: set<Address>)
    ensures forall a :: a in r <==> InRange(a, pid, va, n)
  {
    if n == 0 then {} else Range(pid, va, n - 1) + {Address(pid, va + n - 1)}
  }

  function Written(flat: Flat, pid: nat, va: nat, bytes: seq<Byte>): (r: Flat)
    ensures forall a :: a in r <==> a in flat || InRange(a, pid, va, |bytes|)
    ensures forall a :: a in r ==> r[a] == if InRange(a, pid, va, |bytes|) then bytes[a.va - va] else flat[a]
  {
    map a | a in flat.Keys + Range(pid, va, |bytes|) :: if InRange(a, pid, va, |bytes|) then bytes[a.va - va] else flat[a]
  }

  function Forgotten(flat: Flat, pid: nat): Flat {
    map a | a in flat && a.pid != pid :: flat[a]
  }

  lemma KeptRepresents(m: Memory, m': Memory, flat: Flat, tlb: map<nat, Loc>, pid: nat)
    requires Keeps(m, m')
    ensures Represents(m, flat) ==> Represents(m', flat)
    ensures TlbAgrees(m, tlb, pid) ==> TlbAgrees(m', tlb, pid)
  {
  }

  lemma SamePage(va: nat, i: nat)
    requires Offset(va) + i < PAGE_SIZE
    ensures PageNumber(va + i) == PageNumber(va) && Offset(va + i) == Offset(va) + i
    ensures va < 0x1_0000_0000 ==> va + i < 0x1_0000_0000
  {
  }

  lemma StoreRepresents(m: Memory, flat: Flat, tlb: map<nat, Loc>, curr: nat,
                        pid: nat, va: nat, l: Loc, bytes: seq<Byte>)
    requires Wf(m) && Represents(m, flat) && TlbAgrees(m, tlb, curr)
    requires CanStore(m, l, Offset(va), bytes) && m.Walk(pid, PageNumber(va)) == Some(l)
    requires va < 0x1_0000_0000 && Offset(va) + |bytes| <= PAGE_SIZE
    ensures Wf(Store(m, l, Offset(va), bytes)) && TlbAgrees(Store(m, l, Offset(va), bytes), tlb, curr)
    ensures Represents(Store(m, l, Offset(va), bytes), Written(flat, pid, va, bytes))
  {
    hide Holds, Wf, Store, CanStore, PageNumber, Offset;
    var n := Store(m, l, Offset(va), bytes);
    var now := Written(flat, pid, va, bytes);
    StoreKeeps(m, l, Offset(va), bytes);
    forall a | a in now ensures FlatByte(n, a, now[a]) {
      if InRange(a, pid, va, |bytes|) {
        SamePage(va, a.va - va);
      } else {
        assert FlatByte(m, a, flat[a]);
        OtherByte(m, pid, va, l, |bytes|, a);
      }
    }
  }

  // A byte outside the range written is not at the same place of the same page.
  lemma OtherByte(m: Memory, pid: nat, va: nat, l: Loc, n: nat, a: Address)
    requires Wf(m) && m.Walk(pid, PageNumber(va)) == Some(l) && !InRange(a, pid, va, n)
    requires Offset(va) + n <= PAGE_SIZE
    ensures !(m.Walk(a.pid, PageNumber(a.va)) == Some(l) && Offset(va) <= Offset(a.va) < Offset(va) + n)
  {
    hide Wf;
    if m.Walk(a.pid, PageNumber(a.va)) == Some(l) {
      WalkOnce(m, pid, PageNumber(va), a.pid, PageNumber(a.va));
    }
  }

  // Some segment at the address permits the access; or none does, or some one does not.
  ghost predicate Allowed(segments: seq<Segment>, va: nat, read: bool, write: bool) {
    exists s :: s in segments && s.start <= va < s.end && (read ==> s.read) && (write ==> s.write)
  }

  ghost predicate Refused(segments: seq<Segment>, va: nat, read: bool, write: bool) {
    || (forall s :: s in segments ==> !(s.start <= va < s.end))
    || exists s :: s in segments && s.start <= va < s.end && !((read ==> s.read) && (write ==> s.write))
  }

  ghost predicate PagePresent(m: Memory, l: Option<Loc>) {
    l.Some? && m.IsTable(l.value) && m.Pte(l.value).present
  }

  // The page at this address of the process is in memory.
  ghost predicate Here(m: Memory, pid: nat, va: nat) { PagePresent(m, m.Walk(pid, PageNumber(va))) }

  // The page faults of an access: one for a table that is missing and one for a page that is.
  ghost function Faults(m: Memory, pid: nat, va: nat): nat {
    if m.Walk(pid, PageNumber(va)).None? then 2 else if Here(m, pid, va) then 0 else 1
  }

  ghost predicate InSegment(segments: seq<Segment>, va: nat) {
    exists s :: s in segments && s.start <= va < s.end
  }

  // An entry that describes no page, neither in memory nor on disk.
  ghost predicate Blank(m: Memory, l: Loc) {
    m.IsTable(l) && !m.Pte(l).present && l !in m.swap
  }

  // Lines 175-219
  function DefaultSegments(): seq<Segment> {
    [ Segment(0xBFFFE000, 0xC07FE000, true, true),    // STACK
      Segment(0xC07FE000, 0xC07FE000, true, true),    // MMAP
      Segment(0x08072000, 0x08072000, true, true),    // HEAP
      Segment(0x0805A000, 0x08072000, true, true),    // BSS
      Segment(0x08052000, 0x0805A000, true, true),    // DATA
      Segment(0x08048000, 0x08052000, true, false),   // TEXT
      Segment(PAGE_SIZE, 3 * PAGE_SIZE, true, true) ] // TESTING
  }

  // ----- The unit -----

  class Mmu {
    const maxProcessId: nat
    var m: Memory
    var segmentations: map<nat, seq<Segment>>
    var tlb: map<nat, Loc>
    var curr_pid: nat
    var num_tlb_misses: nat
    var num_page_faults: nat
    var num_segmentation_faults: nat

    ghost var flat: Flat
    // How often the kernel had no frame to give.
    ghost var refusals: nat

    ghost predicate Inv()
      reads this
    {
      && Wf(m) && segmentations.Keys == m.dirs.Keys
      && Represents(m, flat)
      && TlbAgrees(m, tlb, curr_pid)
    }

    constructor (maxProcessId: nat)
      ensures Inv() && flat == map[] && m.dirs == map[]
    {
      this.maxProcessId := maxProcessId;
      m := Memory(map[], map[], map[], map[], map[], map[]);
      segmentations := map[];
      tlb := map[];
      curr_pid := 0;
      num_tlb_misses := 0;
      num_page_faults := 0;
      num_segmentation_faults := 0;
      flat := map[];
      refusals := 0;
    }

    // find_segment
    method FindSegment(segments: seq<Segment>, va: nat) returns (segment: Option<Segment>)
      ensures segment.Some? ==> segment.value in segments && segment.value.start <= va < segment.value.end
      ensures segment.None? ==> forall s :: s in segments ==> !(s.start <= va < s.end)
    {
      for i := 0 to |segments|
        invariant forall s :: s in segments[..i] ==> !(s.start <= va < s.end)
      {
        if segments[i].start <= va < segments[i].end {
          return Some(segments[i]);
        }
      }
      return None;
    }

    // ask_kernel_for_frame: the kernel may first take back frames of pages (never of tables or
    // directories), whether or not it clears their dirty bits, and may have no frame to give.
    method AskKernelForFrame() returns (frame: Option<nat>)
      requires Wf(m)
      modifies `m, `refusals
      ensures Wf(m) && Keeps(old(m), m)
      ensures m.dirs == old(m).dirs && m.pdes == old(m).pdes && m.tables.Keys == old(m).tables.Keys
      ensures forall l :: old(m).IsTable(l) && !old(m).Pte(l).present ==> m.IsTable(l) && !m.Pte(l).present
      ensures forall l :: Blank(old(m), l) ==> Blank(m, l)
      ensures frame.Some? ==> Unused(m, frame.value) && frame.value < FRAMES
      ensures refusals == old(refusals) + if frame.None? then 1 else 0
    {
      hide Wf, Holds;
      var count: nat := *;
      while count > 0
        modifies `m
        invariant Wf(m) && Keeps(old(m), m)
        invariant m.dirs == old(m).dirs && m.pdes == old(m).pdes && m.tables.Keys == old(m).tables.Keys
        invariant forall l :: old(m).IsTable(l) && !old(m).Pte(l).present ==> m.IsTable(l) && !m.Pte(l).present
        invariant forall l :: Blank(old(m), l) ==> Blank(m, l)
      {
        var victim: Loc := *;
        if m.IsTable(victim) && m.Pte(victim).present {
          TakeBack(victim);
        }
        count := count - 1;
      }
      var f: nat := *;
      if f < FRAMES && f !in m.kernel && f !in m.pdes && f !in m.tables && f !in m.pages {
        return Some(f);
      }
      refusals := refusals + 1;
      return None;
    }

    // The kernel evicts one page: its data is saved if it is dirty.
    method TakeBack(l: Loc)
      requires Wf(m) && m.IsTable(l) && m.Pte(l).present
      modifies `m
      ensures Wf(m) && Keeps(old(m), m)
      ensures m.dirs == old(m).dirs && m.pdes == old(m).pdes && m.tables.Keys == old(m).tables.Keys
      ensures forall k :: old(m).IsTable(k) && !old(m).Pte(k).present ==> m.IsTable(k) && !m.Pte(k).present
      ensures forall k :: Blank(old(m), k) ==> Blank(m, k)
    {
      hide Wf, Keeps;
      var clean: bool := *;
      var e := m.Pte(l);
      EvictKeeps(m, l, e.dirty && !clean);
      var saved := if e.dirty then m.swap[l := m.pages[e.base]] else m.swap;
      m := m.WithPte(l, e.(present := false, dirty := e.dirty && !clean)).(
        swap := saved, pages := m.pages - {e.base}, kernel := m.kernel - {e.base});
    }

    // tlb_add_pte: the TLB may drop entries to make room.
    method TlbAdd(pn: nat, l: Loc)
      requires TlbAgrees(m, tlb, curr_pid) && m.Walk(curr_pid, pn) == Some(l)
      modifies `tlb
      ensures TlbAgrees(m, tlb, curr_pid) && pn in tlb && tlb[pn] == l
      ensures forall k :: k in tlb ==> k == pn || (k in old(tlb) && tlb[k] == old(tlb)[k])
    {
      var dropped: set<nat> := *;
      tlb := (tlb - dropped)[pn := l];
    }

    // Lines 43-55: the directory entry, with a new table if it has none, and the table entry.
    method WalkTables(pid: nat, va: nat) returns (r: Option<Loc>)
      requires Inv() && pid in m.dirs && va < 0x1_0000_0000
      modifies `m, `num_page_faults, `refusals
      ensures Inv() && m.dirs == old(m).dirs
      ensures r.Some? ==> m.Walk(pid, PageNumber(va)) == r
      ensures r.None? <==> refusals > old(refusals)
      ensures r.Some? ==> refusals == old(refusals)
      // A table that is there is used as it is; a new one has no page yet.
      ensures old(m).Walk(pid, PageNumber(va)).Some? ==> r == old(m).Walk(pid, PageNumber(va)) && m == old(m)
      ensures old(m).Walk(pid, PageNumber(va)).None? && r.Some? ==> m.IsTable(r.value) && !m.Pte(r.value).present
      ensures num_page_faults == old(num_page_faults) + if old(m).Walk(pid, PageNumber(va)).None? then 1 else 0
    {
      hide Wf, Keeps, Represents, TlbAgrees, Holds;
      AddressParts(va);
      var d, i := m.dirs[pid], DirectoryIndex(va);
      DirectoryIsWhole(m, pid);
      if !m.pdes[d][i].present {
        num_page_faults := num_page_faults + 1;
        var frame := AskKernelForFrame();
        KeptRepresents(old(m), m, flat, tlb, curr_pid);
        if frame.None? {
          return None;
        }
        DirectoryIsWhole(m, pid);
        ghost var before := m;
        AddTableKeeps(m, pid, i, frame.value);
        m := m.(pdes := m.pdes[d := m.pdes[d][i := Entry(true, frame.value, false, false)]],
                tables := m.tables[frame.value := seq(NUM_ENTRIES, _ => ABSENT)],
                kernel := m.kernel[frame.value := Table(pid, i)]);
        KeptRepresents(before, m, flat, tlb, curr_pid);
      }
      return Some(Loc(m.pdes[d][i].base, TableIndex(va)));
    }

    // Lines 58-66
    method PageFault(pid: nat, va: nat, pge: Loc) returns (ok: bool)
      requires Inv() && m.IsTable(pge) && !m.Pte(pge).present && m.Walk(pid, PageNumber(va)) == Some(pge)
      modifies `m, `num_page_faults, `refusals
      ensures Inv() && m.dirs == old(m).dirs && m.Walk(pid, PageNumber(va)) == Some(pge)
      ensures ok ==> m.IsTable(pge) && m.Pte(pge).present
      ensures refusals == old(refusals) + if ok then 0 else 1
      ensures num_page_faults == old(num_page_faults) + 1
    {
      hide Wf, Represents, TlbAgrees, Holds;
      num_page_faults := num_page_faults + 1;
      var frame := AskKernelForFrame();
      KeptRepresents(old(m), m, flat, tlb, curr_pid);
      if frame.None? {
        return false;
      }
      var content := ReadPageFromDisk(pge);
      ghost var before := m;
      LoadKeeps(m, pge, frame.value, content);
      m := m.WithPte(pge, m.Pte(pge).(present := true, base := frame.value)).(
        pages := m.pages[frame.value := content], kernel := m.kernel[frame.value := Page(pge)]);
      KeptRepresents(before, m, flat, tlb, curr_pid);
      return true;
    }

    // read_page_from_disk: without a swap file the frame keeps whatever it held.
    method ReadPageFromDisk(pge: Loc) returns (content: seq<Byte>)
      requires Wf(m)
      ensures |content| == PAGE_SIZE && (pge in m.swap ==> content == m.swap[pge])
    {
      if pge in m.swap {
        assert SwapShape(m, pge);
        return m.swap[pge];
      }
      content := *;
      if |content| != PAGE_SIZE {
        content := seq(PAGE_SIZE, _ => 0);
      }
    }

    // Lines 34-66: from an address to its page table entry, by the TLB or by walking the tables,
    // with the page brought in if it is not there.
    method Locate(pid: nat, va: nat) returns (r: Option<Loc>)
      requires Inv() && pid in m.dirs && curr_pid == pid && va < 0x1_0000_0000
      modifies `m, `tlb, `num_tlb_misses, `num_page_faults, `refusals
      ensures Inv() && m.dirs == old(m).dirs
      ensures r.Some? ==> m.Walk(pid, PageNumber(va)) == r && m.IsTable(r.value) && m.Pte(r.value).present
      // It only fails if the kernel gives no frame, and asks for none if the page is there.
      ensures r.None? <==> refusals > old(refusals)
      ensures Here(old(m), pid, va) ==> r.Some? && m == old(m)
      // The next access finds the page in the TLB.
      ensures r.Some? ==> PageNumber(va) in tlb && tlb[PageNumber(va)] == r.value
      ensures num_tlb_misses == old(num_tlb_misses) + if PageNumber(va) in old(tlb) then 0 else 1
      ensures r.Some? ==> num_page_faults == old(num_page_faults) + Faults(old(m), pid, va)
    {
      hide Wf, Represents, Keeps, Holds;
      WalkEndsInTable(m, pid, PageNumber(va));
      var pge: Loc;
      if PageNumber(va) in tlb {
        pge := tlb[PageNumber(va)];
      } else {
        num_tlb_misses := num_tlb_misses + 1;
        var walked := WalkTables(pid, va);
        if walked.None? {
          return None;
        }
        pge := walked.value;
        TlbAdd(PageNumber(va), pge);
      }
      WalkEndsInTable(m, pid, PageNumber(va));
      if !m.Pte(pge).present {
        var ok := PageFault(pid, va, pge);
        if !ok {
          return None;
        }
      }
      return Some(pge);
    }

    // Lines 24-27 and 88-91: another process starts with an empty TLB.
    method SwitchTo(pid: nat)
      requires Inv()
      modifies `tlb, `curr_pid
      ensures Inv() && curr_pid == pid
      ensures tlb == if pid == old(curr_pid) then old(tlb) else map[]
    {
      if pid != curr_pid {
        tlb := map[];
        curr_pid := pid;
      }
    }

    // A permitted read returns, for every byte the process has written, what it wrote there last.
    method Read(va: nat, pid: nat, buffer: array<Byte>, num_bytes: nat) returns (o: Outcome)
      requires Inv() && pid < maxProcessId && pid in m.dirs && va < 0x1_0000_0000
      requires num_bytes + Offset(va) <= PAGE_SIZE && num_bytes <= buffer.Length
      modifies this, buffer
      ensures Inv() && flat == old(flat) && m.dirs == old(m).dirs && segmentations == old(segmentations)
      ensures o == Done ==> Allowed(segmentations[pid], va, true, false)
      ensures o == Done ==> Here(m, pid, va) && m.Pte(m.Walk(pid, PageNumber(va)).value).accessed
      ensures o == Done ==> forall i :: 0 <= i < num_bytes ==> LastWritten(flat, Address(pid, va + i), buffer[i])
      ensures o == SegmentationFault ==> Refused(segmentations[pid], va, true, false)
      ensures forall i :: 0 <= i < buffer.Length && (o == Done ==> num_bytes <= i) ==> buffer[i] == old(buffer[i])
      ensures num_segmentation_faults == old(num_segmentation_faults) + if o == SegmentationFault then 1 else 0
      // Outside all segments nothing happens. Inside, it fails only if the kernel gives no frame; so if the page is there and
      // every segment permits it, the access is done.
      ensures !InSegment(segmentations[pid], va) ==> o == SegmentationFault && m == old(m)
      ensures o == Panic <==> refusals > old(refusals)
      ensures InSegment(segmentations[pid], va) && Here(old(m), pid, va) ==> o != Panic
      ensures Here(old(m), pid, va) && !Refused(segmentations[pid], va, true, false) ==> o == Done
      ensures num_tlb_misses == old(num_tlb_misses) +
        if InSegment(segmentations[pid], va) && (pid != old(curr_pid) || PageNumber(va) !in old(tlb)) then 1 else 0
      ensures InSegment(segmentations[pid], va) && o != Panic ==>
        PageNumber(va) in tlb && num_page_faults == old(num_page_faults) + Faults(old(m), pid, va)
      ensures curr_pid == pid
    {
      hide Wf, Represents, TlbAgrees, Keeps, Holds;
      SwitchTo(pid);
      var segment := FindSegment(segmentations[pid], va);
      if segment.None? {
        num_segmentation_faults := num_segmentation_faults + 1;
        return SegmentationFault;
      }
      var pge := Locate(pid, va);
      if pge.None? {
        return Panic;
      }
      if segment.value.read {
        CopyOut(pid, va, pge.value, buffer, num_bytes);
        return Done;
      } else {
        num_segmentation_faults := num_segmentation_faults + 1;
        return SegmentationFault;
      }
    }

    // Lines 68-75
    method CopyOut(pid: nat, va: nat, pge: Loc, buffer: array<Byte>, num_bytes: nat)
      requires Inv() && num_bytes + Offset(va) <= PAGE_SIZE && num_bytes <= buffer.Length
      requires m.Walk(pid, PageNumber(va)) == Some(pge) && m.IsTable(pge) && m.Pte(pge).present
      modifies `m, buffer
      ensures Inv() && m.dirs == old(m).dirs
      ensures forall i :: 0 <= i < num_bytes ==> LastWritten(flat, Address(pid, va + i), buffer[i])
      ensures forall i :: num_bytes <= i < buffer.Length ==> buffer[i] == old(buffer[i])
      ensures m.Walk(pid, PageNumber(va)) == Some(pge) && m.IsTable(pge)
      ensures m.Pte(pge) == old(m).Pte(pge).(accessed := true)
    {
      hide Wf, Represents, TlbAgrees, Keeps, Holds, LastWritten;
      PresentPage(m, pge);
      var base := m.Pte(pge).base;
      var i := 0;
      while i < num_bytes
        modifies buffer
        invariant 0 <= i <= num_bytes
        invariant forall j :: 0 <= j < i ==> LastWritten(flat, Address(pid, va + j), buffer[j])
        invariant forall j :: i <= j < buffer.Length ==> buffer[j] == old(buffer[j])
      {
        SamePage(va, i);
        ReadsByte(m, flat, Address(pid, va + i), pge);
        buffer[i] := m.pages[base][Offset(va) + i];
        i := i + 1;
      }
      ghost var before := m;
      TouchKeeps(m, pge);
      m := m.WithPte(pge, m.Pte(pge).(accessed := true));
      KeptRepresents(before, m, flat, tlb, curr_pid);
    }

    // A permitted write changes exactly the bytes written.
    method Write(va: nat, pid: nat, buffer: array<Byte>, num_bytes: nat) returns (o: Outcome)
      requires Inv() && pid < maxProcessId && pid in m.dirs && va < 0x1_0000_0000
      requires num_bytes + Offset(va) <= PAGE_SIZE && num_bytes <= buffer.Length
      modifies this
      ensures Inv() && m.dirs == old(m).dirs && segmentations == old(segmentations)
      ensures flat == if o == Done then Written(old(flat), pid, va, buffer[..num_bytes]) else old(flat)
      ensures o == Done ==> Allowed(segmentations[pid], va, false, true)
      ensures o == Done ==> Here(m, pid, va) && m.Pte(m.Walk(pid, PageNumber(va)).value).accessed
      ensures o == SegmentationFault ==> Refused(segmentations[pid], va, false, true)
      ensures num_segmentation_faults == old(num_segmentation_faults) + if o == SegmentationFault then 1 else 0
      // Outside all segments nothing happens. Inside, it fails only if the kernel gives no frame; so if the page is there and
      // every segment permits it, the access is done.
      ensures !InSegment(segmentations[pid], va) ==> o == SegmentationFault && m == old(m)
      ensures o == Panic <==> refusals > old(refusals)
      ensures InSegment(segmentations[pid], va) && Here(old(m), pid, va) ==> o != Panic
      ensures Here(old(m), pid, va) && !Refused(segmentations[pid], va, false, true) ==> o == Done
      ensures num_tlb_misses == old(num_tlb_misses) +
        if InSegment(segmentations[pid], va) && (pid != old(curr_pid) || PageNumber(va) !in old(tlb)) then 1 else 0
      ensures InSegment(segmentations[pid], va) && o != Panic ==>
        PageNumber(va) in tlb && num_page_faults == old(num_page_faults) + Faults(old(m), pid, va)
      ensures curr_pid == pid
    {
      hide Wf, Represents, TlbAgrees, Keeps, Holds;
      SwitchTo(pid);
      var segment := FindSegment(segmentations[pid], va);
      if segment.None? {
        num_segmentation_faults := num_segmentation_faults + 1;
        return SegmentationFault;
      }
      var pge := Locate(pid, va);
      if pge.None? {
        return Panic;
      }
      if segment.value.write {
        CopyIn(pid, va, pge.value, buffer, num_bytes);
        return Done;
      } else {
        num_segmentation_faults := num_segmentation_faults + 1;
        return SegmentationFault;
      }
    }

    // Lines 136-144
    method CopyIn(pid: nat, va: nat, pge: Loc, buffer: array<Byte>, num_bytes: nat)
      requires Inv() && va < 0x1_0000_0000 && num_bytes + Offset(va) <= PAGE_SIZE && num_bytes <= buffer.Length
      requires m.Walk(pid, PageNumber(va)) == Some(pge) && m.IsTable(pge) && m.Pte(pge).present
      modifies `m, `flat
      ensures Inv() && m.dirs == old(m).dirs
      ensures flat == Written(old(flat), pid, va, buffer[..num_bytes])
      ensures m.Walk(pid, PageNumber(va)) == Some(pge) && m.IsTable(pge)
      ensures m.Pte(pge) == old(m).Pte(pge).(accessed := true, dirty := true)
    {
      hide Wf, Represents, TlbAgrees, Keeps, Holds;
      PresentPage(m, pge);
      var base := m.Pte(pge).base;
      ghost var before := m;
      var i := 0;
      assert m.pages[base := m.pages[base]] == m.pages;
      while i < num_bytes
        modifies `m
        invariant 0 <= i <= num_bytes
        invariant base in m.pages && m == before.(pages := before.pages[base := m.pages[base]])
        invariant m.pages[base] == Overwrite(before.pages[base], Offset(va), buffer[..i])
      {
        assert buffer[..i + 1] == buffer[..i] + [buffer[i]];
        m := m.(pages := m.pages[base := m.pages[base][Offset(va) + i := buffer[i]]]);
        i := i + 1;
      }
      StoreRepresents(before, flat, tlb, curr_pid, pid, va, pge, buffer[..num_bytes]);
      m := m.WithPte(pge, m.Pte(pge).(accessed := true, dirty := true));
      assert m == Store(before, pge, Offset(va), buffer[..num_bytes]);
      flat := Written(flat, pid, va, buffer[..num_bytes]);
    }

    // A new process has nothing in its flat memory, and no other process notices.
    method AddProcess(pid: nat) returns (ok: bool)
      requires Inv() && pid < maxProcessId && pid !in m.dirs
      modifies `m, `segmentations, `refusals
      ensures ok <==> refusals == old(refusals)
      ensures Inv() && (forall q :: q in old(m).dirs ==> q in m.dirs && m.dirs[q] == old(m).dirs[q])
      ensures forall q :: q in m.dirs ==> q in old(m).dirs || q == pid
      ensures ok ==> pid in m.dirs && segmentations == old(segmentations)[pid := DefaultSegments()]
      ensures ok ==> m.Walk(pid, 1).Some? && PagePresent(m, m.Walk(pid, 2))
    {
      hide Wf, Represents, TlbAgrees, Keeps, Holds;
      var frame := AskKernelForFrame();
      KeptRepresents(old(m), m, flat, tlb, curr_pid);
      if frame.None? {
        return false;
      }
      ghost var before := m;
      AddDirectoryKeeps(m, pid, frame.value);
      m := m.(dirs := m.dirs[pid := frame.value], pdes := m.pdes[frame.value := seq(NUM_ENTRIES, _ => ABSENT)],
              kernel := m.kernel[frame.value := Directory(pid)]);
      KeptRepresents(before, m, flat, tlb, curr_pid);
      segmentations := segmentations[pid := DefaultSegments()];
      ok := AddTestingTable(pid);
    }

    // Lines 231-236: a frame for one entry of the first table.
    method AddTestingPage(pte: Loc) returns (ok: bool)
      requires Inv() && Blank(m, pte)
      modifies `m, `refusals
      ensures refusals == old(refusals) + if ok then 0 else 1
      ensures Inv() && m.dirs == old(m).dirs && m.pdes == old(m).pdes
      ensures ok ==> m.IsTable(pte) && m.Pte(pte).present
      ensures forall l :: l != pte && Blank(old(m), l) ==> Blank(m, l)
    {
      hide Wf, Represents, TlbAgrees, Keeps, Holds;
      var frame := AskKernelForFrame();
      KeptRepresents(old(m), m, flat, tlb, curr_pid);
      if frame.None? {
        return false;
      }
      ghost var before := m;
      assert Blank(m, pte);
      var content: seq<Byte> := *;
      if |content| != PAGE_SIZE {
        content := seq(PAGE_SIZE, _ => 0);
      }
      LoadKeeps(m, pte, frame.value, content);
      m := m.WithPte(pte, m.Pte(pte).(present := true, base := frame.value)).(
        pages := m.pages[frame.value := content], kernel := m.kernel[frame.value := Page(pte)]);
      KeptRepresents(before, m, flat, tlb, curr_pid);
      return true;
    }

    // Lines 221-237: the first table, and two pages in it.
    method AddTestingTable(pid: nat) returns (ok: bool)
      requires Inv() && pid in m.dirs && m.dirs[pid] in m.pdes && |m.pdes[m.dirs[pid]]| == NUM_ENTRIES
      requires !m.pdes[m.dirs[pid]][0].present
      modifies `m, `refusals
      ensures refusals == old(refusals) + if ok then 0 else 1
      ensures Inv() && m.dirs == old(m).dirs
      ensures ok ==> m.Walk(pid, 1).Some? && PagePresent(m, m.Walk(pid, 2))
    {
      hide Wf, Represents, TlbAgrees, Keeps, Holds;
      var table := AskKernelForFrame();
      KeptRepresents(old(m), m, flat, tlb, curr_pid);
      if table.None? {
        return false;
      }
      DirectoryIsWhole(m, pid);
      ghost var before := m;
      var d := m.dirs[pid];
      AddTableKeeps(m, pid, 0, table.value);
      NewTableIsBlank(m, pid, 0, table.value);
      m := m.(pdes := m.pdes[d := m.pdes[d][0 := Entry(true, table.value, false, false)]],
              tables := m.tables[table.value := seq(NUM_ENTRIES, _ => ABSENT)],
              kernel := m.kernel[table.value := Table(pid, 0)]);
      KeptRepresents(before, m, flat, tlb, curr_pid);
      var i := 1;
      while i < 3
        invariant refusals == old(refusals)
        invariant 1 <= i <= 3 && Inv() && m.dirs == old(m).dirs && d in m.pdes && |m.pdes[d]| == NUM_ENTRIES
        invariant m.pdes[d][0] == Entry(true, table.value, false, false)
        invariant forall k :: i <= k < NUM_ENTRIES ==> Blank(m, Loc(table.value, k))
        invariant i > 1 ==> m.IsTable(Loc(table.value, i - 1)) && m.Pte(Loc(table.value, i - 1)).present
      {
        before := m;
        ok := AddTestingPage(Loc(m.pdes[d][0].base, i));
        if !ok {
          return false;
        }
        assert forall k :: i < k < NUM_ENTRIES && Blank(before, Loc(table.value, k)) ==> Blank(m, Loc(table.value, k));
        i := i + 1;
      }
      return true;
    }

    // All that the process had is given back, and no other process notices.
    method RemoveProcess(pid: nat)
      requires Inv() && pid < maxProcessId
      modifies `m, `segmentations, `tlb, `flat
      ensures Inv() && m == Without(old(m), pid) && m.dirs == old(m).dirs - {pid}
      ensures segmentations == old(segmentations) - {pid}
      ensures flat == Forgotten(old(flat), pid)
    {
      hide Wf, Represents, TlbAgrees, Holds, Without;
      ghost var o := m;
      if pid in m.dirs {
        ReturnFrames(pid);
      } else {
        NothingToReturn(m, pid);
      }
      segmentations := segmentations - {pid};
      if curr_pid == pid {
        tlb := map[];
      }
      flat := Forgotten(flat, pid);
      WithoutRepresents(o, pid, old(flat), tlb, curr_pid);
    }

    // Lines 245-263
    method ReturnFrames(pid: nat)
      requires Wf(m) && pid in m.dirs
      modifies `m
      ensures m == Without(old(m), pid)
    {
      hide Wf, Partly;
      ghost var o := m;
      var d := m.dirs[pid];
      DirectoryIsWhole(m, pid);
      NoneReturned(m, pid);
      var vpn1 := 0;
      while vpn1 < NUM_ENTRIES
        invariant 0 <= vpn1 <= NUM_ENTRIES && Partly(o, m, pid, vpn1, 0)
        invariant m.dirs == o.dirs && m.pdes == o.pdes
      {
        var pde := m.pdes[d][vpn1];
        if pde.present {
          var pt := pde.base;
          TableIsWhole(o, m, pid, vpn1);
          var vpn2 := 0;
          while vpn2 < NUM_ENTRIES
            invariant 0 <= vpn2 <= NUM_ENTRIES && Partly(o, m, pid, vpn1, vpn2)
            invariant m.dirs == o.dirs && m.pdes == o.pdes && pt in m.tables && m.tables[pt] == o.tables[pt]
          {
            var pte := m.tables[pt][vpn2];
            ghost var before := m;
            if pte.present {
              m := m.(pages := m.pages - {pte.base}, kernel := m.kernel - {pte.base});
            }
            m := m.(swap := m.swap - {Loc(pt, vpn2)});
            PageReturned(o, before, m, pid, vpn1, vpn2);
            vpn2 := vpn2 + 1;
          }
          TableReturned(o, m, pid, vpn1);
          m := m.(tables := m.tables - {pt}, kernel := m.kernel - {pt});
        } else {
          TableMissing(o, m, pid, vpn1);
        }
        vpn1 := vpn1 + 1;
      }
      DirectoryReturned(o, m, pid);
      m := m.(dirs := m.dirs - {pid}, pdes := m.pdes - {d}, kernel := m.kernel - {d});
    }
  }

  // What AddProcess would do for a process number in use, with its new directory and then with its first table: the TLB
  // is not flushed, and no entry of the process in it is right any more.
  lemma AddedAgain(m: Memory, tlb: map<nat, Loc>, curr: nat, pid: nat, directory: nat, table: nat)
    requires Wf(m) && TlbAgrees(m, tlb, curr) && pid in m.dirs
    requires Unused(m, directory) && CanAddTable(AddDirectory(m, pid, directory), pid, 0, table)
    ensures TlbAgrees(AddDirectory(m, pid, directory), tlb, curr) <==> pid != curr || tlb == map[]
    ensures TlbAgrees(AddTable(AddDirectory(m, pid, directory), pid, 0, table), tlb, curr) <==> pid != curr || tlb == map[]
  {
    hide Recorded, TableOwns, SwapShape;
    var n := AddDirectory(m, pid, directory);
    var n' := AddTable(n, pid, 0, table);
    if pid != curr {
      assert forall pn :: n'.Walk(curr, pn) == n.Walk(curr, pn) == m.Walk(curr, pn);
    } else if pn :| pn in tlb {
      assert n.Walk(pid, pn).None?;
      assert DirectoryOwns(m, m.dirs[pid], pn / NUM_ENTRIES);
      assert n'.Walk(pid, pn).Some? ==> n'.Walk(pid, pn).value.table == table;
    }
  }

  lemma NewTableIsBlank(m: Memory, p: nat, i: nat, frame: nat)
    requires Wf(m) && CanAddTable(m, p, i, frame)
    ensures forall k :: 0 <= k < NUM_ENTRIES ==> Blank(AddTable(m, p, i, frame), Loc(frame, k))
  {
    forall k | 0 <= k < NUM_ENTRIES ensures Loc(frame, k) !in m.swap {
      assert SwapShape(m, Loc(frame, k));
    }
  }

  lemma WithoutRepresents(m: Memory, pid: nat, flat: Flat, tlb: map<nat, Loc>, curr: nat)
    requires Wf(m) && Represents(m, flat)
    ensures Wf(Without(m, pid)) && Represents(Without(m, pid), Forgotten(flat, pid))
    ensures TlbAgrees(m, tlb, curr) && curr != pid ==> TlbAgrees(Without(m, pid), tlb, curr)
    ensures TlbAgrees(Without(m, pid), map[], curr) && Without(m, pid).dirs == m.dirs - {pid}
  {
    hide Wf, Holds;
    WithoutKeeps(m, pid);
    forall a | a in Forgotten(flat, pid) ensures FlatByte(Without(m, pid), a, flat[a]) {
      assert FlatByte(m, a, flat[a]);
    }
  }

  // ----- Giving back the frames of a process, one by one -----

  // Table entry l, of directory entry number `at` of the process, comes before place (i, j).
  predicate Passed(m: Memory, l: Loc, p: nat, i: nat, j: nat) {
    TableOf(m, l.table, p) && (m.kernel[l.table].index < i || (m.kernel[l.table].index == i && l.index < j))
  }

  predicate Returned(m: Memory, f: nat, p: nat, i: nat, j: nat) {
    f in m.kernel &&
    match m.kernel[f]
    case Page(l) => Passed(m, l, p, i, j)
    case Table(q, k) => q == p && k < i
    case Directory(_) => false
  }

  // n is o with everything given back up to place (i, j).
  ghost predicate Partly(o: Memory, n: Memory, p: nat, i: nat, j: nat) {
    && n.dirs == o.dirs && n.pdes == o.pdes
    && n.tables == (map f | f in o.tables && !Returned(o, f, p, i, j) :: o.tables[f])
    && n.pages == (map f | f in o.pages && !Returned(o, f, p, i, j) :: o.pages[f])
    && n.swap == (map l | l in o.swap && !Passed(o, l, p, i, j) :: o.swap[l])
    && n.kernel == (map f | f in o.kernel && !Returned(o, f, p, i, j) :: o.kernel[f])
  }

  lemma NoneReturned(o: Memory, p: nat)
    ensures Partly(o, o, p, 0, 0)
  {
  }

  lemma TableIsWhole(o: Memory, n: Memory, p: nat, i: nat)
    requires Wf(o) && Partly(o, n, p, i, 0) && p in o.dirs && i < NUM_ENTRIES
    requires o.dirs[p] in o.pdes && i < |o.pdes[o.dirs[p]]| && o.pdes[o.dirs[p]][i].present
    ensures var t := o.pdes[o.dirs[p]][i].base;
            t in n.tables && t in o.tables && n.tables[t] == o.tables[t] && |o.tables[t]| == NUM_ENTRIES
            && t in o.kernel && o.kernel[t] == Table(p, i)
  {
    assert FrameShape(o, o.dirs[p]) && DirectoryOwns(o, o.dirs[p], i);
    assert FrameShape(o, o.pdes[o.dirs[p]][i].base);
  }

  lemma PageReturned(o: Memory, before: Memory, n: Memory, p: nat, i: nat, j: nat)
    requires Wf(o) && Partly(o, before, p, i, j) && p in o.dirs && i < NUM_ENTRIES && j < NUM_ENTRIES
    requires o.dirs[p] in o.pdes && i < |o.pdes[o.dirs[p]]| && o.pdes[o.dirs[p]][i].present
    requires var t := o.pdes[o.dirs[p]][i].base;
      && t in o.tables && |o.tables[t]| == NUM_ENTRIES && t in o.kernel && o.kernel[t] == Table(p, i)
      && n == before.(
           pages := if o.tables[t][j].present then before.pages - {o.tables[t][j].base} else before.pages,
           kernel := if o.tables[t][j].present then before.kernel - {o.tables[t][j].base} else before.kernel,
           swap := before.swap - {Loc(t, j)})
    ensures Partly(o, n, p, i, j + 1)
  {
    var t := o.pdes[o.dirs[p]][i].base;
    assert TableOwns(o, t, j) && FrameShape(o, o.tables[t][j].base);
    forall f ensures Returned(o, f, p, i, j + 1) <==>
      Returned(o, f, p, i, j) || (o.tables[t][j].present && f == o.tables[t][j].base)
    {
      assert Recorded(o, f);
      OneTable(o, p, i, f);
    }
    forall l ensures Passed(o, l, p, i, j + 1) <==> Passed(o, l, p, i, j) || l == Loc(t, j) {
      assert Recorded(o, l.table);
    }
  }

  lemma OneTable(o: Memory, p: nat, i: nat, f: nat)
    requires Wf(o) && p in o.dirs && i < NUM_ENTRIES
    requires o.dirs[p] in o.pdes && i < |o.pdes[o.dirs[p]]|
    ensures f in o.kernel && o.kernel[f].Page? && TableOf(o, o.kernel[f].loc.table, p) &&
            o.kernel[o.kernel[f].loc.table].index == i ==>
      o.kernel[f].loc.table == o.pdes[o.dirs[p]][i].base
  {
    if f in o.kernel && o.kernel[f].Page? {
      assert Recorded(o, o.kernel[f].loc.table);
    }
  }

  lemma TableReturned(o: Memory, n: Memory, p: nat, i: nat)
    requires Wf(o) && Partly(o, n, p, i, NUM_ENTRIES) && p in o.dirs && i < NUM_ENTRIES
    requires o.dirs[p] in o.pdes && i < |o.pdes[o.dirs[p]]| && o.pdes[o.dirs[p]][i].present
    requires var t := o.pdes[o.dirs[p]][i].base; t in o.tables && t in o.kernel && o.kernel[t] == Table(p, i)
    ensures var t := o.pdes[o.dirs[p]][i].base;
      Partly(o, n.(tables := n.tables - {t}, kernel := n.kernel - {t}), p, i + 1, 0)
  {
    var t := o.pdes[o.dirs[p]][i].base;
    forall f ensures Returned(o, f, p, i + 1, 0) <==> Returned(o, f, p, i, NUM_ENTRIES) || f == t {
      assert Recorded(o, f);
      if f in o.kernel && o.kernel[f].Page? {
        assert FrameShape(o, o.kernel[f].loc.table);
      }
    }
    forall l | l in o.swap ensures Passed(o, l, p, i + 1, 0) <==> Passed(o, l, p, i, NUM_ENTRIES) {
      assert SwapShape(o, l) && FrameShape(o, l.table);
    }
    forall f | f in o.pages ensures f != t {
      assert FrameShape(o, f);
    }
  }

  lemma TableMissing(o: Memory, n: Memory, p: nat, i: nat)
    requires Wf(o) && Partly(o, n, p, i, 0) && p in o.dirs && i < NUM_ENTRIES
    requires o.dirs[p] in o.pdes && i < |o.pdes[o.dirs[p]]| && !o.pdes[o.dirs[p]][i].present
    ensures Partly(o, n, p, i + 1, 0)
  {
    forall t ensures !(t in o.kernel && o.kernel[t] == Table(p, i)) {
      assert Recorded(o, t);
    }
  }

  lemma DirectoryReturned(o: Memory, n: Memory, p: nat)
    requires Wf(o) && Partly(o, n, p, NUM_ENTRIES, 0) && p in o.dirs
    ensures n.(dirs := n.dirs - {p}, pdes := n.pdes - {o.dirs[p]}, kernel := n.kernel - {o.dirs[p]}) == Without(o, p)
  {
    hide Wf, FrameOf, Returned;
    FramesToReturn(o, p);
    var d := n.(dirs := n.dirs - {p}, pdes := n.pdes - {o.dirs[p]}, kernel := n.kernel - {o.dirs[p]});
    var w := Without(o, p);
    assert d.pdes == w.pdes && d.tables == w.tables;
    assert d.pages == w.pages && d.swap == w.swap && d.kernel == w.kernel;
  }

  // At the end all frames of the process but its directory have been returned.
  lemma FramesToReturn(o: Memory, p: nat)
    requires Wf(o) && p in o.dirs
    ensures forall t :: TableOf(o, t, p) ==> o.kernel[t].index < NUM_ENTRIES
    ensures forall f :: FrameOf(o, f, p) <==> Returned(o, f, p, NUM_ENTRIES, 0) || f == o.dirs[p]
    ensures forall f :: f in o.pages || f in o.tables ==> f != o.dirs[p]
    ensures forall f :: f in o.pdes && FrameOf(o, f, p) ==> f == o.dirs[p]
  {
    hide DirectoryOwns, TableOwns, SwapShape;
    forall t ensures TableOf(o, t, p) ==> o.kernel[t].index < NUM_ENTRIES {
      assert Recorded(o, t);
    }
    forall f ensures FrameOf(o, f, p) <==> Returned(o, f, p, NUM_ENTRIES, 0) || f == o.dirs[p] {
      assert Recorded(o, f) && FrameShape(o, f);
    }
    forall f ensures (f in o.pages || f in o.tables ==> f != o.dirs[p]) && (f in o.pdes && FrameOf(o, f, p) ==> f == o.dirs[p]) {
      assert FrameShape(o, f);
    }
  }

  lemma NothingToReturn(m: Memory, p: nat)
    requires Wf(m) && p !in m.dirs
    ensures m == Without(m, p)
  {
    forall f ensures !FrameOf(m, f, p) && !TableOf(m, f, p) {
      assert Recorded(m, f);
      if f in m.kernel && m.kernel[f].Page? {
        assert Recorded(m, m.kernel[f].loc.table);
      }
    }
  }

  lemma PresentPage(m: Memory, l: Loc)
    requires Wf(m) && m.IsTable(l) && m.Pte(l).present
    ensures m.Pte(l).base in m.pages && |m.pages[m.Pte(l).base]| == PAGE_SIZE && TableOwns(m, l.table, l.index)
  {
    assert TableOwns(m, l.table, l.index) && FrameShape(m, m.Pte(l).base);
  }

  // The bytes of a present page are those written.
  lemma ReadsByte(m: Memory, flat: Flat, a: Address, l: Loc)
    requires Represents(m, flat) && m.Walk(a.pid, PageNumber(a.va)) == Some(l)
    requires m.IsTable(l) && m.Pte(l).present && m.Pte(l).base in m.pages
    requires |m.pages[m.Pte(l).base]| == PAGE_SIZE
    ensures LastWritten(flat, a, m.pages[m.Pte(l).base][Offset(a.va)])
  {
  }

  lemma DirectoryIsWhole(m: Memory, pid: nat)
    requires Wf(m) && pid in m.dirs
    ensures m.dirs[pid] in m.pdes && |m.pdes[m.dirs[pid]]| == NUM_ENTRIES
    ensures m.dirs[pid] in m.kernel && m.kernel[m.dirs[pid]] == Directory(pid)
  {
    assert FrameShape(m, m.dirs[pid]);
  }

  lemma WalkEndsInTable(m: Memory, pid: nat, pn: nat)
    requires Wf(m)
    ensures m.Walk(pid, pn).Some? ==> m.IsTable(m.Walk(pid, pn).value)
  {
    if m.Walk(pid, pn).Some? {
      assert FrameShape(m, m.dirs[pid]) && DirectoryOwns(m, m.dirs[pid], pn / NUM_ENTRIES);
      assert FrameShape(m, m.Walk(pid, pn).value.table);
    }
  }
}
