// The memory behind ideal_indirection/mmu.c: page directories, page tables, pages, swap files,
// and the kernel's record of what each frame is used for.
module MmuMemory {

  const PAGE_SIZE := 4096
  const NUM_ENTRIES := 1024
  const FRAMES := 0x10_0000  // base_addr has 20 bits

  type Byte = bv8

  datatype Option<T> = None | Some(value: T)

  // ----- Addresses -----

  // What the masks and shifts of lines 34-39 and of line 68 compute.
  lemma MasksAreDivisions(va: bv32, frame: bv32, base: bv32, offset: bv32)
    requires base < 0x100000 && offset < 0x1000
    ensures (va & 0xffc00000) >> 22 == va / 0x400000
    ensures (va & 0x003ff000) >> 12 == (va / 0x1000) % 0x400
    ensures va & 0x00000fff == va % 0x1000
    ensures (va & 0xfffff000) >> 12 == va / 0x1000 && (frame & 0xfffff000) >> 12 == frame / 0x1000
    ensures (base << 12) | offset == base * 0x1000 + offset
  {
  }

  function PageNumber(va: nat): nat { va / PAGE_SIZE }
  function Offset(va: nat): nat { va % PAGE_SIZE }
  function DirectoryIndex(va: nat): nat { va / 0x40_0000 }
  function TableIndex(va: nat): nat { va / PAGE_SIZE % NUM_ENTRIES }

  // Directory index, table index and offset name each address once.
  lemma AddressParts(va: nat)
    requires va < 0x1_0000_0000
    ensures DirectoryIndex(va) < NUM_ENTRIES && TableIndex(va) < NUM_ENTRIES && Offset(va) < PAGE_SIZE
    ensures va == DirectoryIndex(va) * 0x40_0000 + TableIndex(va) * PAGE_SIZE + Offset(va)
    ensures DirectoryIndex(va) == PageNumber(va) / NUM_ENTRIES && TableIndex(va) == PageNumber(va) % NUM_ENTRIES
  {
  }

  lemma PartsAddress(d: nat, t: nat, o: nat)
    requires d < NUM_ENTRIES && t < NUM_ENTRIES && o < PAGE_SIZE
    ensures var va := d * 0x40_0000 + t * PAGE_SIZE + o;
            va < 0x1_0000_0000 && DirectoryIndex(va) == d && TableIndex(va) == t && Offset(va) == o
  {
    var va := d * 0x40_0000 + t * PAGE_SIZE + o;
    var page := d * NUM_ENTRIES + t;
    assert va == page * PAGE_SIZE + o;
    assert va / PAGE_SIZE == page && va % PAGE_SIZE == o;
    assert page / NUM_ENTRIES == d && page % NUM_ENTRIES == t;
  }

  // ----- Memory -----

  // A directory or table entry. (Its protection bits are never looked at again.)
  datatype Entry = Entry(present: bool, base: nat, dirty: bool, accessed: bool)

  const ABSENT := Entry(false, 0, false, false)

  // Where a page table entry is: what a pointer to it means.
  datatype Loc = Loc(table: nat, index: nat)

  datatype Use = Directory(pid: nat) | Table(pid: nat, index: nat) | Page(loc: Loc)

  datatype Memory = Memory(
    dirs: map<nat, nat>,             // page_directories, by process
    pdes: map<nat, seq<Entry>>,      // page directories, by frame
    tables: map<nat, seq<Entry>>,    // page tables, by frame
    pages: map<nat, seq<Byte>>,      // pages, by frame
    swap: map<Loc, seq<Byte>>,       // swap files
    kernel: map<nat, Use>)           // frames in use
  {
    predicate IsTable(l: Loc) {
      l.table in tables && l.index < |tables[l.table]|
    }

    function Pte(l: Loc): Entry
      requires IsTable(l)
    {
      tables[l.table][l.index]
    }

    function WithPte(l: Loc, e: Entry): Memory
      requires IsTable(l)
    {
      this.(tables := tables[l.table := tables[l.table][l.index := e]])
    }

    // The page walk: the entry that describes page number pn of a process.
    function Walk(pid: nat, pn: nat): Option<Loc> {
      if pid in dirs && dirs[pid] in pdes && pn / NUM_ENTRIES < |pdes[dirs[pid]]|
         && pdes[dirs[pid]][pn / NUM_ENTRIES].present
      then Some(Loc(pdes[dirs[pid]][pn / NUM_ENTRIES].base, pn % NUM_ENTRIES))
      else None
    }
  }

  // Directories, tables and pages are whole, and are the frames the kernel has recorded as such.
  ghost predicate Shape(m: Memory) {
    && (forall p :: p in m.dirs ==> m.dirs[p] in m.kernel && m.kernel[m.dirs[p]] == Directory(p))
    && (forall f :: FrameShape(m, f))
    && (forall l :: SwapShape(m, l))
  }

  ghost predicate FrameShape(m: Memory, f: nat) {
    && (f in m.pdes <==> f in m.kernel && m.kernel[f].Directory?)
    && (f in m.tables <==> f in m.kernel && m.kernel[f].Table?)
    && (f in m.pages <==> f in m.kernel && m.kernel[f].Page?)
    && (f in m.pdes ==> |m.pdes[f]| == NUM_ENTRIES)
    && (f in m.tables ==> |m.tables[f]| == NUM_ENTRIES)
    && (f in m.pages ==> |m.pages[f]| == PAGE_SIZE)
  }

  ghost predicate SwapShape(m: Memory, l: Loc) {
    l in m.swap ==> |m.swap[l]| == PAGE_SIZE && m.IsTable(l)
  }

  // A present entry owns the frame it names.
  ghost predicate DirectoryOwns(m: Memory, f: nat, i: nat) {
    f in m.pdes && f in m.kernel && m.kernel[f].Directory? && i < |m.pdes[f]| && m.pdes[f][i].present ==>
      m.pdes[f][i].base in m.kernel && m.kernel[m.pdes[f][i].base] == Table(m.kernel[f].pid, i)
  }

  ghost predicate TableOwns(m: Memory, f: nat, i: nat) {
    f in m.tables && i < |m.tables[f]| && m.tables[f][i].present ==>
      m.tables[f][i].base in m.kernel && m.kernel[m.tables[f][i].base] == Page(Loc(f, i))
  }

  // The kernel's record of frame f is exact.
  ghost predicate Recorded(m: Memory, f: nat) {
    f in m.kernel ==>
      match m.kernel[f]
      case Directory(p) => p in m.dirs && m.dirs[p] == f
      case Table(p, i) => m.Walk(p, i * NUM_ENTRIES) == Some(Loc(f, 0)) && i < NUM_ENTRIES
      case Page(l) => m.IsTable(l) && m.Pte(l).present && m.Pte(l).base == f
  }

  ghost predicate Wf(m: Memory) {
    && Shape(m)
    && (forall f, i :: DirectoryOwns(m, f, i))
    && (forall f, i :: TableOwns(m, f, i))
    && (forall f :: Recorded(m, f))
  }

  // Byte `off` of the page of l is b, in the page itself or, if that may be lost, in its swap file.
  ghost predicate Holds(m: Memory, l: Loc, off: nat, b: Byte) {
    && m.IsTable(l)
    && (m.Pte(l).present ==>
          && m.Pte(l).base in m.pages && off < |m.pages[m.Pte(l).base]| && m.pages[m.Pte(l).base][off] == b)
    && (!m.Pte(l).present || !m.Pte(l).dirty ==>
          && l in m.swap && off < |m.swap[l]| && m.swap[l][off] == b)
  }

  // m' keeps every walk and every byte of m.
  ghost predicate Keeps(m: Memory, m': Memory) {
    && (forall p, pn :: m.Walk(p, pn).Some? ==> m'.Walk(p, pn) == m.Walk(p, pn))
    && (forall l, off, b :: Holds(m, l, off, b) ==> Holds(m', l, off, b))
  }

  // What Wf says of one frame, and what it and Keeps say of one byte.
  ghost predicate FrameFacts(m: Memory, f: nat, i: nat) {
    FrameShape(m, f) && Recorded(m, f) && DirectoryOwns(m, f, i) && TableOwns(m, f, i)
  }

  ghost predicate PageKept(m: Memory, m': Memory, l: Loc, off: nat, b: Byte) {
    SwapShape(m', l) && (Holds(m, l, off, b) ==> Holds(m', l, off, b))
  }

  lemma WfFrom(m: Memory)
    requires forall p :: p in m.dirs ==> m.dirs[p] in m.kernel && m.kernel[m.dirs[p]] == Directory(p)
    requires forall f, i :: FrameFacts(m, f, i)
    requires forall l :: SwapShape(m, l)
    ensures Wf(m)
  {
    hide FrameShape, Recorded, DirectoryOwns, TableOwns, SwapShape;
    forall f, i ensures FrameShape(m, f) && Recorded(m, f) && DirectoryOwns(m, f, i) && TableOwns(m, f, i) {
      assert FrameFacts(m, f, i);
    }
    forall f ensures FrameShape(m, f) && Recorded(m, f) {
      assert FrameFacts(m, f, 0);
    }
  }

  lemma WfAgain(m: Memory, m': Memory)
    requires forall p :: p in m'.dirs ==> m'.dirs[p] in m'.kernel && m'.kernel[m'.dirs[p]] == Directory(p)
    requires forall f, i :: FrameFacts(m', f, i)
    requires forall l, off, b :: PageKept(m, m', l, off, b)
    ensures Wf(m') && forall l, off, b :: Holds(m, l, off, b) ==> Holds(m', l, off, b)
  {
    hide SwapShape, Holds;
    forall l, off, b ensures SwapShape(m', l) && (Holds(m, l, off, b) ==> Holds(m', l, off, b)) {
      assert PageKept(m, m', l, off, b);
    }
    forall l ensures SwapShape(m', l) {
      assert PageKept(m, m', l, 0, 0);
    }
    WfFrom(m');
  }

  // Different pages have different entries, and so different frames.
  lemma WalkOnce(m: Memory, p: nat, pn: nat, q: nat, pm: nat)
    requires Wf(m) && m.Walk(p, pn).Some? && m.Walk(p, pn) == m.Walk(q, pm)
    ensures p == q && pn == pm
  {
    assert DirectoryOwns(m, m.dirs[p], pn / NUM_ENTRIES);
    assert DirectoryOwns(m, m.dirs[q], pm / NUM_ENTRIES);
  }

  // No two pages, of one process or of two, are ever in one frame.
  lemma PagesApart(m: Memory, p: nat, pn: nat, q: nat, pm: nat)
    requires Wf(m) && m.Walk(p, pn).Some? && m.Walk(q, pm).Some?
    requires m.IsTable(m.Walk(p, pn).value) && m.IsTable(m.Walk(q, pm).value)
    requires m.Pte(m.Walk(p, pn).value).present && m.Pte(m.Walk(q, pm).value).present
    requires m.Pte(m.Walk(p, pn).value).base == m.Pte(m.Walk(q, pm).value).base
    ensures p == q && pn == pm
  {
    var k, l := m.Walk(p, pn).value, m.Walk(q, pm).value;
    assert TableOwns(m, k.table, k.index) && TableOwns(m, l.table, l.index);
    WalkOnce(m, p, pn, q, pm);
  }

  // ----- What the kernel and the page faults do -----

  ghost predicate CanEvict(m: Memory, l: Loc) {
    && m.IsTable(l) && m.Pte(l).present && TableOwns(m, l.table, l.index)
    && m.Pte(l).base in m.pages && |m.pages[m.Pte(l).base]| == PAGE_SIZE
  }

  // The kernel takes the frame of a present page, whose data goes to its swap file if it is dirty.
  ghost function Evict(m: Memory, l: Loc, dirty: bool): Memory
    requires CanEvict(m, l)
  {
    var e := m.Pte(l);
    m.WithPte(l, e.(present := false, dirty := dirty)).(
      swap := if e.dirty then m.swap[l := m.pages[e.base]] else m.swap,
      pages := m.pages - {e.base}, kernel := m.kernel - {e.base})
  }

  lemma EvictKeeps(m: Memory, l: Loc, dirty: bool)
    requires Wf(m) && m.IsTable(l) && m.Pte(l).present
    ensures CanEvict(m, l)
    ensures Wf(Evict(m, l, dirty)) && Keeps(m, Evict(m, l, dirty))
  {
    hide DirectoryOwns, Recorded, Holds, SwapShape;
    assert TableOwns(m, l.table, l.index) && FrameShape(m, m.Pte(l).base);
    var n := Evict(m, l, dirty);
    hide TableOwns, FrameShape;
    forall f, j ensures FrameFacts(n, f, j) {
      assert FrameFacts(m, f, j);
      EvictFrame(m, l, dirty, f, j);
    }
    forall k, off, b ensures PageKept(m, n, k, off, b) {
      assert SwapShape(m, k) && TableOwns(m, k.table, k.index);
      EvictPage(m, l, dirty, k, off, b);
    }
    WfAgain(m, n);
  }

  lemma EvictFrame(m: Memory, l: Loc, dirty: bool, f: nat, j: nat)
    requires CanEvict(m, l) && FrameFacts(m, f, j)
    ensures FrameFacts(Evict(m, l, dirty), f, j)
  {
  }

  lemma EvictPage(m: Memory, l: Loc, dirty: bool, k: Loc, off: nat, b: Byte)
    requires CanEvict(m, l) && SwapShape(m, k) && TableOwns(m, k.table, k.index)
    ensures PageKept(m, Evict(m, l, dirty), k, off, b)
  {
  }

  // A frame that nothing uses.
  ghost predicate Unused(m: Memory, frame: nat) {
    frame !in m.kernel && frame !in m.pdes && frame !in m.tables && frame !in m.pages
  }

  ghost predicate CanAddTable(m: Memory, p: nat, i: nat, frame: nat) {
    && p in m.dirs && m.dirs[p] in m.pdes && m.dirs[p] in m.kernel && m.kernel[m.dirs[p]] == Directory(p)
    && i < |m.pdes[m.dirs[p]]| == NUM_ENTRIES && !m.pdes[m.dirs[p]][i].present && Unused(m, frame)
  }

  // Lines 47-51: a new, empty table for directory entry i of process p.
  ghost function AddTable(m: Memory, p: nat, i: nat, frame: nat): Memory
    requires CanAddTable(m, p, i, frame)
  {
    var d := m.dirs[p];
    m.(pdes := m.pdes[d := m.pdes[d][i := Entry(true, frame, false, false)]],
       tables := m.tables[frame := seq(NUM_ENTRIES, _ => ABSENT)],
       kernel := m.kernel[frame := Table(p, i)])
  }

  lemma AddTableKeeps(m: Memory, p: nat, i: nat, frame: nat)
    requires Wf(m) && CanAddTable(m, p, i, frame)
    ensures Wf(AddTable(m, p, i, frame)) && Keeps(m, AddTable(m, p, i, frame))
  {
    hide DirectoryOwns, Recorded, Holds, SwapShape, TableOwns, FrameShape;
    var n := AddTable(m, p, i, frame);
    forall f, j ensures FrameFacts(n, f, j) {
      assert FrameFacts(m, f, j);
      AddTableFrame(m, p, i, frame, f, j);
    }
    forall k, off, b ensures PageKept(m, n, k, off, b) {
      assert SwapShape(m, k);
      AddTablePage(m, p, i, frame, k, off, b);
    }
    WfAgain(m, n);
  }

  lemma AddTableFrame(m: Memory, p: nat, i: nat, frame: nat, f: nat, j: nat)
    requires CanAddTable(m, p, i, frame) && FrameFacts(m, f, j)
    ensures FrameFacts(AddTable(m, p, i, frame), f, j)
  {
  }

  lemma AddTablePage(m: Memory, p: nat, i: nat, frame: nat, k: Loc, off: nat, b: Byte)
    requires CanAddTable(m, p, i, frame) && SwapShape(m, k)
    ensures PageKept(m, AddTable(m, p, i, frame), k, off, b)
  {
  }

  ghost predicate CanLoad(m: Memory, l: Loc, frame: nat, content: seq<Byte>) {
    && m.IsTable(l) && !m.Pte(l).present && Unused(m, frame) && |content| == PAGE_SIZE
    && (l in m.swap ==> content == m.swap[l])
  }

  // Lines 60-65: a frame for an absent page, filled from its swap file if there is one.
  ghost function Load(m: Memory, l: Loc, frame: nat, content: seq<Byte>): Memory
    requires CanLoad(m, l, frame, content)
  {
    m.WithPte(l, m.Pte(l).(present := true, base := frame)).(
      pages := m.pages[frame := content], kernel := m.kernel[frame := Page(l)])
  }

  lemma LoadKeeps(m: Memory, l: Loc, frame: nat, content: seq<Byte>)
    requires Wf(m) && CanLoad(m, l, frame, content)
    ensures Wf(Load(m, l, frame, content)) && Keeps(m, Load(m, l, frame, content))
  {
    hide DirectoryOwns, Recorded, Holds, SwapShape, TableOwns, FrameShape;
    var n := Load(m, l, frame, content);
    forall f, j ensures FrameFacts(n, f, j) {
      assert FrameFacts(m, f, j);
      LoadFrame(m, l, frame, content, f, j);
    }
    forall k, off, b ensures PageKept(m, n, k, off, b) {
      assert SwapShape(m, k);
      LoadPage(m, l, frame, content, k, off, b);
    }
    WfAgain(m, n);
  }

  lemma LoadFrame(m: Memory, l: Loc, frame: nat, content: seq<Byte>, f: nat, j: nat)
    requires CanLoad(m, l, frame, content) && FrameFacts(m, f, j)
    ensures FrameFacts(Load(m, l, frame, content), f, j)
  {
  }

  lemma LoadPage(m: Memory, l: Loc, frame: nat, content: seq<Byte>, k: Loc, off: nat, b: Byte)
    requires CanLoad(m, l, frame, content) && SwapShape(m, k)
    ensures PageKept(m, Load(m, l, frame, content), k, off, b)
  {
  }

  // Line 75: only the accessed bit changes.
  ghost function Touch(m: Memory, l: Loc): Memory
    requires m.IsTable(l)
  {
    m.WithPte(l, m.Pte(l).(accessed := true))
  }

  lemma TouchKeeps(m: Memory, l: Loc)
    requires Wf(m) && m.IsTable(l)
    ensures Wf(Touch(m, l)) && Keeps(m, Touch(m, l))
  {
    hide DirectoryOwns, Recorded, Holds, SwapShape, TableOwns, FrameShape;
    var n := Touch(m, l);
    forall f, j ensures FrameFacts(n, f, j) {
      assert FrameFacts(m, f, j);
      TouchFrame(m, l, f, j);
    }
    forall k, off, b ensures PageKept(m, n, k, off, b) {
      assert SwapShape(m, k);
      TouchPage(m, l, k, off, b);
    }
    WfAgain(m, n);
  }

  lemma TouchFrame(m: Memory, l: Loc, f: nat, j: nat)
    requires m.IsTable(l) && FrameFacts(m, f, j)
    ensures FrameFacts(Touch(m, l), f, j)
  {
  }

  lemma TouchPage(m: Memory, l: Loc, k: Loc, off: nat, b: Byte)
    requires m.IsTable(l) && SwapShape(m, k)
    ensures PageKept(m, Touch(m, l), k, off, b)
  {
  }

  // ----- Writing -----

  function Overwrite(page: seq<Byte>, off: nat, bytes: seq<Byte>): (r: seq<Byte>)
    requires off + |bytes| <= |page|
    ensures |r| == |page|
    ensures forall o :: 0 <= o < |page| ==> r[o] == if off <= o < off + |bytes| then bytes[o - off] else page[o]
  {
    page[..off] + bytes + page[off + |bytes|..]
  }

  ghost predicate CanStore(m: Memory, l: Loc, off: nat, bytes: seq<Byte>) {
    && m.IsTable(l) && m.Pte(l).present && TableOwns(m, l.table, l.index)
    && m.Pte(l).base in m.pages && off + |bytes| <= |m.pages[m.Pte(l).base]|
  }

  // Lines 138-144
  ghost function Store(m: Memory, l: Loc, off: nat, bytes: seq<Byte>): Memory
    requires CanStore(m, l, off, bytes)
  {
    var e := m.Pte(l);
    m.WithPte(l, e.(accessed := true, dirty := true)).(
      pages := m.pages[e.base := Overwrite(m.pages[e.base], off, bytes)])
  }

  // Exactly the bytes written change.
  lemma StoreKeeps(m: Memory, l: Loc, off: nat, bytes: seq<Byte>)
    requires Wf(m) && CanStore(m, l, off, bytes)
    ensures Wf(Store(m, l, off, bytes))
    ensures forall p, pn :: Store(m, l, off, bytes).Walk(p, pn) == m.Walk(p, pn)
    ensures forall i :: 0 <= i < |bytes| ==> Holds(Store(m, l, off, bytes), l, off + i, bytes[i])
    ensures forall k, o: nat, b :: Holds(m, k, o, b) && !(k == l && off <= o < off + |bytes|)
              ==> Holds(Store(m, l, off, bytes), k, o, b)
  {
    hide DirectoryOwns, Recorded, SwapShape, TableOwns, FrameShape;
    var n := Store(m, l, off, bytes);
    forall f, j ensures FrameFacts(n, f, j) {
      assert FrameFacts(m, f, j);
      StoreFrame(m, l, off, bytes, f, j);
    }
    forall k ensures SwapShape(n, k) {
      assert SwapShape(m, k) && TableOwns(m, k.table, k.index);
      StorePage(m, l, off, bytes, k, 0, 0);
    }
    WfFrom(n);
    forall k, o: nat, b | Holds(m, k, o, b) && !(k == l && off <= o < off + |bytes|) ensures Holds(n, k, o, b) {
      assert SwapShape(m, k) && TableOwns(m, k.table, k.index);
      StorePage(m, l, off, bytes, k, o, b);
    }
  }

  lemma StoreFrame(m: Memory, l: Loc, off: nat, bytes: seq<Byte>, f: nat, j: nat)
    requires CanStore(m, l, off, bytes)
    requires FrameFacts(m, f, j)
    ensures FrameFacts(Store(m, l, off, bytes), f, j)
  {
  }

  lemma StorePage(m: Memory, l: Loc, off: nat, bytes: seq<Byte>, k: Loc, o: nat, b: Byte)
    requires CanStore(m, l, off, bytes) && SwapShape(m, k) && TableOwns(m, k.table, k.index)
    ensures SwapShape(Store(m, l, off, bytes), k)
    ensures Holds(m, k, o, b) && !(k == l && off <= o < off + |bytes|) ==> Holds(Store(m, l, off, bytes), k, o, b)
  {
  }

  // ----- Processes come and go -----

  // Lines 165-169: an empty directory for a new process.
  ghost function AddDirectory(m: Memory, p: nat, frame: nat): Memory {
    m.(dirs := m.dirs[p := frame], pdes := m.pdes[frame := seq(NUM_ENTRIES, _ => ABSENT)],
       kernel := m.kernel[frame := Directory(p)])
  }

  lemma AddDirectoryKeeps(m: Memory, p: nat, frame: nat)
    requires Wf(m) && p !in m.dirs && Unused(m, frame)
    ensures Wf(AddDirectory(m, p, frame)) && Keeps(m, AddDirectory(m, p, frame))
  {
    hide DirectoryOwns, Recorded, Holds, SwapShape, TableOwns, FrameShape;
    var n := AddDirectory(m, p, frame);
    forall f, j ensures FrameFacts(n, f, j) {
      assert FrameFacts(m, f, j);
      AddDirectoryFrame(m, p, frame, f, j);
    }
    forall k, off, b ensures PageKept(m, n, k, off, b) {
      assert SwapShape(m, k);
      AddDirectoryPage(m, p, frame, k, off, b);
    }
    WfAgain(m, n);
  }

  lemma AddDirectoryFrame(m: Memory, p: nat, frame: nat, f: nat, j: nat)
    requires p !in m.dirs && Unused(m, frame) && FrameFacts(m, f, j)
    ensures FrameFacts(AddDirectory(m, p, frame), f, j)
  {
  }

  lemma AddDirectoryPage(m: Memory, p: nat, frame: nat, k: Loc, off: nat, b: Byte)
    requires p !in m.dirs && Unused(m, frame) && SwapShape(m, k)
    ensures PageKept(m, AddDirectory(m, p, frame), k, off, b)
  {
  }

  // Entries and frames that belong to process p.
  predicate TableOf(m: Memory, t: nat, p: nat) {
    t in m.kernel && m.kernel[t].Table? && m.kernel[t].pid == p
  }

  predicate FrameOf(m: Memory, f: nat, p: nat) {
    f in m.kernel &&
    match m.kernel[f]
    case Page(l) => TableOf(m, l.table, p)
    case u => u.pid == p
  }

  // All that process p had is gone, and nothing else.
  function Without(m: Memory, p: nat): Memory {
    Memory(
      m.dirs - {p},
      map f | f in m.pdes && !FrameOf(m, f, p) :: m.pdes[f],
      map f | f in m.tables && !FrameOf(m, f, p) :: m.tables[f],
      map f | f in m.pages && !FrameOf(m, f, p) :: m.pages[f],
      map l | l in m.swap && !TableOf(m, l.table, p) :: m.swap[l],
      map f | f in m.kernel && !FrameOf(m, f, p) :: m.kernel[f])
  }

  lemma WithoutKeeps(m: Memory, p: nat)
    requires Wf(m)
    ensures Wf(Without(m, p))
    ensures forall q, pn :: q != p ==> Without(m, p).Walk(q, pn) == m.Walk(q, pn)
    ensures forall q: nat, pn: nat, off: nat, b :: q != p && m.Walk(q, pn).Some? && Holds(m, m.Walk(q, pn).value, off, b)
              ==> Holds(Without(m, p), m.Walk(q, pn).value, off, b)
  {
    hide DirectoryOwns, Recorded, Holds, SwapShape, TableOwns, FrameShape;
    var n := Without(m, p);
    forall f ensures FrameShape(n, f) && Recorded(n, f) {
      assert FrameShape(m, f) && Recorded(m, f);
      WithoutFrame(m, p, f);
    }
    forall k ensures SwapShape(n, k) {
      assert SwapShape(m, k) && FrameShape(m, k.table);
      WithoutSwap(m, p, k);
    }
    forall f, j ensures DirectoryOwns(n, f, j) && TableOwns(n, f, j) {
      assert DirectoryOwns(m, f, j) && TableOwns(m, f, j) && FrameShape(m, f);
      WithoutOwners(m, p, f, j);
    }
    forall q, pn | q != p ensures n.Walk(q, pn) == m.Walk(q, pn) {
      WithoutWalk(m, p, q, pn);
    }
    forall q: nat, pn: nat, off: nat, b | q != p && m.Walk(q, pn).Some? && Holds(m, m.Walk(q, pn).value, off, b)
      ensures Holds(n, m.Walk(q, pn).value, off, b)
    {
      var l := m.Walk(q, pn).value;
      assert DirectoryOwns(m, m.dirs[q], pn / NUM_ENTRIES) && TableOwns(m, l.table, l.index);
      assert FrameShape(m, m.dirs[q]) && FrameShape(m, l.table);
      WithoutHolds(m, p, q, pn, off, b);
    }
  }

  lemma WithoutFrame(m: Memory, p: nat, f: nat)
    requires Shape(m) && FrameShape(m, f) && Recorded(m, f)
    ensures FrameShape(Without(m, p), f) && Recorded(Without(m, p), f)
  {
    if f in m.kernel && !FrameOf(m, f, p) {
      match m.kernel[f]
      case Table(q, i) => WithoutWalk(m, p, q, i * NUM_ENTRIES);
      case Page(l) => assert FrameShape(m, l.table);
      case _ =>
    }
  }

  lemma WithoutWalk(m: Memory, p: nat, q: nat, pn: nat)
    requires Shape(m) && q != p
    ensures Without(m, p).Walk(q, pn) == m.Walk(q, pn)
  {
  }

  lemma WithoutSwap(m: Memory, p: nat, k: Loc)
    requires SwapShape(m, k) && FrameShape(m, k.table)
    ensures SwapShape(Without(m, p), k)
  {
  }

  lemma WithoutOwners(m: Memory, p: nat, f: nat, j: nat)
    requires DirectoryOwns(m, f, j) && TableOwns(m, f, j) && FrameShape(m, f)
    ensures DirectoryOwns(Without(m, p), f, j) && TableOwns(Without(m, p), f, j)
  {
  }

  lemma WithoutHolds(m: Memory, p: nat, q: nat, pn: nat, off: nat, b: Byte)
    requires q != p && m.Walk(q, pn).Some? && Holds(m, m.Walk(q, pn).value, off, b)
    requires m.dirs[q] in m.kernel && m.kernel[m.dirs[q]] == Directory(q)
    requires DirectoryOwns(m, m.dirs[q], pn / NUM_ENTRIES)
    requires TableOwns(m, m.Walk(q, pn).value.table, m.Walk(q, pn).value.index)
    ensures Holds(Without(m, p), m.Walk(q, pn).value, off, b)
  {
  }
}
