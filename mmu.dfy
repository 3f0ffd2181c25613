/**
 * The base of the memory management unit (mmu_base in mmu.h): the page size chosen by
 * the page-size bits, the flags of a page-table assignment, the lookup of page tables
 * by id, and the documented contracts of the operations each memory model provides:
 * creating page tables, rolling over address spaces, switching the current one and
 * assigning page tables to page directories.
 *
 * The memory models themselves are not part of this model. Where a model decides
 * something (which address space a rollover yields), the decision is a parameter.
 */
module Mmu {
  import opened Opt

  const PageSizeBytes12: nat := 0x1000
  const PageSizeBytes20: nat := 0x100000

  /** Assignment flags: the table goes to the local/global region, or is global. */
  const AssignLocalGlobalRegion: bv32 := 1 << 0
  const AssignGlobal: bv32 := 1 << 1

  /** The constructor's default number of page-size bits. */
  const DefaultPageSizeBits: nat := 10

  /** An address-space id; -1 stands for none. */
  type Asid = int

  const NoAsid: Asid := -1

  function Pow2(k: nat): (r: nat)
    ensures r >= 1
  {
    if k == 0 then 1 else 2 * Pow2(k - 1)
  }

  lemma {:induction false} Pow2Add(a: nat, b: nat)
    ensures Pow2(a + b) == Pow2(a) * Pow2(b)
  {
    if a > 0 {
      Pow2Add(a - 1, b);
      assert Pow2(a + b) == 2 * Pow2(a - 1 + b);
    }
  }

  /** page_size(): 4 KiB for 12 page-size bits, 1 MiB for every other value. */
  function PageSizeOf(bits: nat): (r: nat)
    ensures r == PageSizeBytes12 <==> bits == 12
    ensures r == PageSizeBytes20 <==> bits != 12
  {
    if bits == 12 then PageSizeBytes12 else PageSizeBytes20
  }

  /** The two page sizes are 2^12 and 2^20 bytes. */
  lemma PageSizesArePowersOfTwo()
    ensures PageSizeBytes12 == Pow2(12) && PageSizeBytes20 == Pow2(20)
  {
    assert Pow2(4) == 16;
    Pow2Add(4, 4);
    Pow2Add(4, 8);
    Pow2Add(8, 12);
  }

  /**
   * A page is always 2^12 or 2^20 bytes; the constructor's default of 10 page-size
   * bits gives 1 MiB pages, not 2^10-byte ones.
   */
  lemma PageSizeIsPowerOfTwo(bits: nat)
    ensures PageSizeOf(bits) == Pow2(12) || PageSizeOf(bits) == Pow2(20)
    ensures PageSizeOf(DefaultPageSizeBits) == Pow2(20) != Pow2(DefaultPageSizeBits)
  {
    PageSizesArePowersOfTwo();
    assert Pow2(10) == 1024 by {
      assert Pow2(4) == 16;
      Pow2Add(4, 6);
      assert Pow2(6) == 64;
    }
  }

  /** Each assignment flag is a single bit, and the two are different bits. */
  lemma AssignFlagsAreDistinctBits()
    ensures AssignLocalGlobalRegion == 1 && AssignGlobal == 2
    ensures AssignLocalGlobalRegion & AssignGlobal == 0
  {
  }

  /** Either flag can be set in flags without changing whether the other one is set. */
  lemma AssignFlagsIndependent(flags: bv32)
    ensures (flags | AssignGlobal) & AssignLocalGlobalRegion == flags & AssignLocalGlobalRegion
    ensures (flags | AssignLocalGlobalRegion) & AssignGlobal == flags & AssignGlobal
  {
  }

  /** A page table, known by the id the allocator gave it. */
  datatype PageTable = PageTable(id: nat)

  /**
   * The page-table allocator the MMU refers to. Its own policy is not part of this
   * model; this one hands out ids in increasing order.
   */
  class PageTableAllocator {
    var tables: map<nat, PageTable>
    var nextId: nat

    ghost predicate Valid()
      reads this
    {
      forall id :: id in tables ==> tables[id].id == id && id < nextId
    }

    constructor ()
      ensures Valid() && tables == map[]
    {
      tables := map[];
      nextId := 0;
    }

    /** The table with that id, or nothing for an id the allocator has not handed out. */
    function GetPageTableById(id: nat): (r: Option<PageTable>)
      reads this
      ensures r.Some? <==> id in tables
      ensures r.Some? ==> r.value == tables[id]
    {
      if id in tables then Some(tables[id]) else None
    }

    method CreatePageTable() returns (t: PageTable)
      requires Valid()
      modifies this
      ensures Valid()
      ensures t.id !in old(tables) && tables == old(tables)[t.id := t]
    {
      t := PageTable(nextId);
      tables := tables[nextId := t];
      nextId := nextId + 1;
    }
  }

  /** Where a page table is attached: in the page directory of an address space, at a linear address. */
  datatype Slot = Slot(asid: Asid, linearAddr: nat, flags: bv32)

  class MmuBase {
    const alloc: PageTableAllocator
    const pageSizeBits: nat
    const memMapOld: bool

    /** The address spaces the memory model has created or renewed. */
    var spaces: set<Asid>
    /** The current address space; none before the first switch. */
    var current: Asid
    /** Where each page table is attached; a table with no slot is unattached. */
    var attached: map<nat, set<Slot>>

    ghost predicate Valid()
      reads this, alloc
    {
      && alloc.Valid()
      && (forall id :: id in attached ==> id in alloc.tables)
      && (forall a :: a in spaces ==> a >= 0)
      && (current == NoAsid || current in spaces)
      && (forall id, s :: id in attached && s in attached[id] ==> s.asid in spaces)
    }

    constructor (alloc: PageTableAllocator, pageSizeBits: nat := DefaultPageSizeBits, memMapOld: bool := false)
      requires alloc.Valid()
      ensures Valid()
      ensures this.alloc == alloc && this.pageSizeBits == pageSizeBits
      ensures UsingOldMemMap() == memMapOld
      ensures PageSize() == if pageSizeBits == 12 then PageSizeBytes12 else PageSizeBytes20
      ensures spaces == {} && current == NoAsid && attached == map[]
    {
      this.alloc := alloc;
      this.pageSizeBits := pageSizeBits;
      this.memMapOld := memMapOld;
      spaces := {};
      current := NoAsid;
      attached := map[];
    }

    /** page_size(): fixed at construction. */
    function PageSize(): (r: nat)
      ensures r == PageSizeBytes12 || r == PageSizeBytes20
      ensures r == PageSizeBytes12 <==> pageSizeBits == 12
    {
      PageSizeOf(pageSizeBits)
    }

    /** using_old_mem_map(): the choice made at construction. */
    function UsingOldMemMap(): bool
    {
      memMapOld
    }

    /** get_page_table_by_id: exactly the allocator's answer. */
    function GetPageTableById(id: nat): (r: Option<PageTable>)
      reads alloc
      ensures r == alloc.GetPageTableById(id)
      ensures r.Some? ==> r.value == alloc.tables[id]
    {
      alloc.GetPageTableById(id)
    }

    function CurrentAddrSpace(): Asid
      reads this
    {
      current
    }

    /** The table is attached to at least one page directory. */
    predicate IsAttached(id: nat)
      reads this
    {
      id in attached && attached[id] != {}
    }

    /** The slots the table occupies. */
    function SlotsOf(id: nat): set<Slot>
      reads this
    {
      if id in attached then attached[id] else {}
    }

    /** create_new_page_table: a new table from the allocator, attached to no page directory. */
    method CreateNewPageTable() returns (t: PageTable)
      requires Valid()
      modifies alloc
      ensures Valid()
      ensures t.id !in old(alloc.tables) && GetPageTableById(t.id) == Some(t)
      ensures alloc.tables == old(alloc.tables)[t.id := t]
      ensures !IsAttached(t.id)
      ensures forall id :: id in old(alloc.tables) ==> GetPageTableById(id) == old(GetPageTableById(id))
    {
      t := alloc.CreatePageTable();
    }

    /**
     * rollover_fresh_addr_space: the address space the memory model creates or renews
     * (granted), or -1 when it cannot create one.
     */
    method RolloverFreshAddrSpace(granted: Option<nat>) returns (id: Asid)
      requires Valid()
      modifies this
      ensures Valid()
      ensures id == NoAsid <==> granted.None?
      ensures granted.Some? ==> id == granted.value
      ensures id != NoAsid ==> id >= 0 && id in spaces
      ensures spaces == if id == NoAsid then old(spaces) else old(spaces) + {id}
      ensures current == old(current) && attached == old(attached)
    {
      if granted.None? {
        return NoAsid;
      }
      id := granted.value;
      spaces := spaces + {id};
    }

    /** set_current_addr_space: switches to a known address space; otherwise fails and changes nothing. */
    method SetCurrentAddrSpace(id: Asid) returns (ok: bool)
      requires Valid()
      modifies this
      ensures Valid()
      ensures ok <==> id in old(spaces)
      ensures ok ==> CurrentAddrSpace() == id
      ensures !ok ==> current == old(current)
      ensures spaces == old(spaces) && attached == old(attached)
    {
      ok := id in spaces;
      if ok {
        current := id;
      }
    }

    /**
     * assign_page_table: attaches the table at linearAddr in the page directories of
     * the listed address spaces, or of the current one when the list is empty. Only a
     * live address space has a page directory: a target that is not one gets nothing,
     * so with no list and no current address space the table stays where it was.
     */
    method AssignPageTable(tab: PageTable, linearAddr: nat, flags: bv32, idList: seq<Asid>)
      requires Valid()
      requires GetPageTableById(tab.id) == Some(tab)
      modifies this
      ensures Valid()
      ensures |idList| == 0 ==>
                SlotsOf(tab.id) == old(SlotsOf(tab.id)) + (if current != NoAsid then {Slot(current, linearAddr, flags)} else {})
      ensures |idList| > 0 ==>
                SlotsOf(tab.id) == old(SlotsOf(tab.id)) + set a | a in idList && a in spaces :: Slot(a, linearAddr, flags)
      ensures IsAttached(tab.id) <==>
                || old(IsAttached(tab.id))
                || (|idList| == 0 && current != NoAsid)
                || (exists a :: a in idList && a in spaces)
      ensures forall id :: id != tab.id ==> SlotsOf(id) == old(SlotsOf(id))
      ensures spaces == old(spaces) && current == old(current)
    {
      var added := if |idList| == 0 then (if current != NoAsid then {Slot(current, linearAddr, flags)} else {})
                   else set a | a in idList && a in spaces :: Slot(a, linearAddr, flags);
      if exists a :: a in idList && a in spaces {
        var a :| a in idList && a in spaces;
        assert Slot(a, linearAddr, flags) in added;
      }
      attached := attached[tab.id := SlotsOf(tab.id) + added];
    }
  }

  /**
   * A page table's life with 4 KiB pages: fresh from the MMU it is attached nowhere,
   * and assigning it before any address space exists leaves it so; after an address
   * space is rolled over and made current, assigning the table without a list
   * attaches it to that address space only.
   */
  method PageTableLifecycle() returns (pageSize: nat, asid: Asid, attachedBefore: bool, attachedEarly: bool,
                                       attachedAfter: bool, slots: set<Slot>)
    ensures pageSize == 0x1000
    ensures asid == 1
    ensures !attachedBefore && !attachedEarly && attachedAfter
    ensures slots == {Slot(1, 0x4000_0000, AssignLocalGlobalRegion)}
  {
    var alloc := new PageTableAllocator();
    var mmu := new MmuBase(alloc, 12);
    pageSize := mmu.PageSize();
    var tab := mmu.CreateNewPageTable();
    attachedBefore := mmu.IsAttached(tab.id);
    mmu.AssignPageTable(tab, 0x4000_0000, AssignGlobal, []);
    attachedEarly := mmu.IsAttached(tab.id);
    asid := mmu.RolloverFreshAddrSpace(Some(1));
    var ok := mmu.SetCurrentAddrSpace(asid);
    mmu.AssignPageTable(tab, 0x4000_0000, AssignLocalGlobalRegion, []);
    attachedAfter := mmu.IsAttached(tab.id);
    slots := mmu.SlotsOf(tab.id);
  }
}
