/** Two-level page tables (32-bit paging, kernel/mmu.h) over typed physical pages, and the
    ownership of every physical page (kernel/vm.c, kernel/kalloc.c). */
module Paging {
  import opened Disk

  const PGSIZE := 4096
  const NPTENTRIES := 1024
  /** Physical pages up to PHYSTOP, and virtual pages below KERNBASE. */
  const NPHYS := 0xE00_0000 / PGSIZE
  const USERPAGES := 0x8000_0000 / PGSIZE
  const VPAGES := NPTENTRIES * NPTENTRIES

  const PTE_P := 1
  const PTE_W := 2
  const PTE_U := 4

  type Table = t: seq<Word> | |t| == NPTENTRIES witness seq(NPTENTRIES, _ => 0)
  type Frame = f: seq<Byte> | |f| == PGSIZE witness seq(PGSIZE, _ => 0)
  type Tables = map<nat, Table>

  function NoEntries(): (t: Table) {
    seq(NPTENTRIES, _ => 0)
  }

  function ZeroFrame(): (f: Frame) {
    seq(PGSIZE, _ => 0)
  }

  // ----- entries

  predicate Present(e: Word) {
    e % 2 == 1
  }

  /** PTE_ADDR as a page number, and PTE_FLAGS. */
  function PageOf(e: Word): (p: nat) {
    e / PGSIZE
  }

  function Flags(e: Word): (f: nat) {
    e % PGSIZE
  }

  /** `pa | perm | PTE_P` for a page-aligned `pa`. */
  function Entry(page: nat, perm: nat): (e: Word)
    requires page < VPAGES && perm < PGSIZE
    ensures Present(e) && PageOf(e) == page && Flags(e) == if perm % 2 == 1 then perm else perm + 1
  {
    EntryFields(page, if perm % 2 == 1 then perm else perm + 1);
    page * PGSIZE + if perm % 2 == 1 then perm else perm + 1
  }

  lemma EntryFields(page: nat, f: nat)
    requires page < VPAGES && f < PGSIZE && f % 2 == 1
    ensures 0 <= page * PGSIZE + f < 0x1_0000_0000
    ensures (page * PGSIZE + f) / PGSIZE == page && (page * PGSIZE + f) % PGSIZE == f && (page * PGSIZE + f) % 2 == 1
  {
    var e := page * PGSIZE + f;
    assert e == PGSIZE * page + f && e == 2 * (2048 * page) + f;
  }

  /** The flat map that a page directory stands for; 0 where there is no page table. */
  function Pde(t: Tables, d: nat, i: nat): (e: Word) {
    if d in t && i < NPTENTRIES then t[d][i] else 0
  }

  function Pte(t: Tables, d: nat, v: nat): (e: Word) {
    var e := Pde(t, d, v / NPTENTRIES);
    if Present(e) && PageOf(e) in t then t[PageOf(e)][v % NPTENTRIES] else 0
  }

  // ----- ownership

  /** Held: taken off the free list by an operation that has not placed it yet. Other: used
      for something that is not part of an address space. */
  datatype Owner = Free | Held | Other | Dir | Tab(dir: nat, i: nat) | User(dir: nat, v: nat)

  /** What a physical page contains is determined by its owner. */
  ghost predicate Typed(t: Tables, frames: map<nat, Frame>, owner: seq<Owner>) {
    && |owner| == NPHYS
    && (forall p: nat :: p in t <==> p < NPHYS && (owner[p].Dir? || owner[p].Tab?))
    && (forall p: nat :: p in frames <==> p < NPHYS && owner[p].User?)
  }

  /** The free list holds every free page once and nothing else. */
  ghost predicate Listed(free: seq<nat>, owner: seq<Owner>) {
    && (forall i, j | 0 <= i < j < |free| :: free[i] != free[j])
    && (forall i | 0 <= i < |free| :: free[i] < |owner| && owner[free[i]] == Free)
    && (forall p: nat | p < |owner| && owner[p] == Free :: p in free)
  }

  /** Directory entries and page-table pages correspond one to one. */
  ghost predicate TablesOwned(t: Tables, owner: seq<Owner>) {
    && (forall d: nat, i: nat | d < |owner| && owner[d] == Dir && i < NPTENTRIES && Present(Pde(t, d, i)) ::
          PageOf(Pde(t, d, i)) < |owner| && owner[PageOf(Pde(t, d, i))] == Tab(d, i))
    && (forall p: nat | p < |owner| && owner[p].Tab? ::
          && owner[p].dir < |owner| && owner[owner[p].dir] == Dir && owner[p].i < NPTENTRIES
          && Present(Pde(t, owner[p].dir, owner[p].i)) && PageOf(Pde(t, owner[p].dir, owner[p].i)) == p)
  }

  /** Present user entries and user frames correspond one to one. */
  ghost predicate UsersOwned(t: Tables, owner: seq<Owner>) {
    && (forall d: nat, v: nat | d < |owner| && owner[d] == Dir && v < USERPAGES && Present(Pte(t, d, v)) ::
          PageOf(Pte(t, d, v)) < |owner| && owner[PageOf(Pte(t, d, v))] == User(d, v))
    && (forall p: nat | p < |owner| && owner[p].User? ::
          && owner[p].dir < |owner| && owner[owner[p].dir] == Dir && owner[p].v < USERPAGES
          && Present(Pte(t, owner[p].dir, owner[p].v)) && PageOf(Pte(t, owner[p].dir, owner[p].v)) == p)
  }

  ghost predicate Owned(t: Tables, frames: map<nat, Frame>, owner: seq<Owner>) {
    Typed(t, frames, owner) && TablesOwned(t, owner) && UsersOwned(t, owner)
  }

  ghost predicate IsDir(owner: seq<Owner>, d: nat) {
    d < |owner| && owner[d] == Dir
  }

  /** All directories map what they mapped before. */
  ghost predicate SameMaps(t: Tables, t': Tables, owner: seq<Owner>) {
    forall d: nat, v: nat | IsDir(owner, d) && v < VPAGES :: Pte(t', d, v) == Pte(t, d, v)
  }

  /** All directories map what they mapped before, except that page `v` of `d` has entry `e`. */
  ghost predicate MapSet(t: Tables, t': Tables, owner: seq<Owner>, d: nat, v: nat, e: Word) {
    forall d2: nat, v2: nat | IsDir(owner, d2) && v2 < VPAGES ::
      Pte(t', d2, v2) == if d2 == d && v2 == v then e else Pte(t, d2, v2)
  }

  // ----- a new page table

  /** The state after walkpgdir installed the empty page `p` as table `i` of `d`. */
  function WithTable(t: Tables, d: nat, i: nat, p: nat): (t': Tables)
    requires d in t && i < NPTENTRIES && p < VPAGES
  {
    t[p := NoEntries()][d := t[d][i := Entry(p, PTE_W + PTE_U)]]
  }

  lemma NewTableMaps(t: Tables, frames: map<nat, Frame>, owner: seq<Owner>, d: nat, i: nat, p: nat)
    requires Owned(t, frames, owner) && IsDir(owner, d) && i < NPTENTRIES && !Present(Pde(t, d, i))
    requires p < NPHYS && owner[p] == Held
    ensures d in t && p !in t
    ensures SameMaps(t, WithTable(t, d, i, p), owner)
    ensures forall d2: nat, i2: nat | IsDir(owner, d2) && i2 < NPTENTRIES ::
              Pde(WithTable(t, d, i, p), d2, i2) == if d2 == d && i2 == i then Entry(p, PTE_W + PTE_U)
                else Pde(t, d2, i2)
  {
    var t' := WithTable(t, d, i, p);
    forall d2: nat, v: nat | IsDir(owner, d2) && v < VPAGES
      ensures Pte(t', d2, v) == Pte(t, d2, v)
    {
      var e := Pde(t, d2, v / NPTENTRIES);
      if Present(e) {
        assert owner[PageOf(e)] == Tab(d2, v / NPTENTRIES);
      }
    }
  }

  lemma NewTableOwned(t: Tables, frames: map<nat, Frame>, owner: seq<Owner>, d: nat, i: nat, p: nat)
    requires Owned(t, frames, owner) && IsDir(owner, d) && i < NPTENTRIES && !Present(Pde(t, d, i))
    requires p < NPHYS && owner[p] == Held
    ensures d in t && Owned(WithTable(t, d, i, p), frames, owner[p := Tab(d, i)])
    ensures SameMaps(t, WithTable(t, d, i, p), owner)
  {
    hide Pte, Entry;
    NewTableMaps(t, frames, owner, d, i, p);
    var t', owner' := WithTable(t, d, i, p), owner[p := Tab(d, i)];
    NewTableTables(t, t', owner, d, i, p);
    MapsKeepUsers(t, t', owner, owner', p);
  }

  lemma NewTableTables(t: Tables, t': Tables, owner: seq<Owner>, d: nat, i: nat, p: nat)
    requires |owner| == NPHYS && TablesOwned(t, owner) && IsDir(owner, d) && i < NPTENTRIES && !Present(Pde(t, d, i))
    requires p < NPHYS && owner[p] == Held
    requires forall d2: nat, i2: nat | IsDir(owner, d2) && i2 < NPTENTRIES ::
               Pde(t', d2, i2) == if d2 == d && i2 == i then Entry(p, PTE_W + PTE_U) else Pde(t, d2, i2)
    ensures TablesOwned(t', owner[p := Tab(d, i)])
  {
    hide Pde;
    var owner' := owner[p := Tab(d, i)];
    forall q: nat | q < |owner'| && owner'[q].Tab?
      ensures owner'[q].dir < |owner'| && owner'[owner'[q].dir] == Dir && owner'[q].i < NPTENTRIES
      ensures Present(Pde(t', owner'[q].dir, owner'[q].i)) && PageOf(Pde(t', owner'[q].dir, owner'[q].i)) == q
    {
      if q != p {
        assert IsDir(owner, owner[q].dir);
      }
    }
    forall d2: nat, i2: nat | d2 < |owner'| && owner'[d2] == Dir && i2 < NPTENTRIES && Present(Pde(t', d2, i2))
      ensures PageOf(Pde(t', d2, i2)) < |owner'| && owner'[PageOf(Pde(t', d2, i2))] == Tab(d2, i2)
    {
      assert IsDir(owner, d2);
    }
  }

  /** Users are unaffected while maps stay and a held page finds another use. */
  lemma MapsKeepUsers(t: Tables, t': Tables, owner: seq<Owner>, owner': seq<Owner>, p: nat)
    requires UsersOwned(t, owner) && SameMaps(t, t', owner) && |owner| == |owner'| == NPHYS && p < NPHYS
    requires owner' == owner[p := owner'[p]] && !owner[p].User? && owner[p] != Dir && !owner'[p].User? &&
             owner'[p] != Dir
    ensures UsersOwned(t', owner')
  {
    hide Pte;
    forall d: nat, v: nat | d < |owner'| && owner'[d] == Dir && v < USERPAGES && Present(Pte(t', d, v))
      ensures PageOf(Pte(t', d, v)) < |owner'| && owner'[PageOf(Pte(t', d, v))] == User(d, v)
    {
      assert IsDir(owner, d) && Pte(t', d, v) == Pte(t, d, v);
    }
    forall q: nat | q < |owner'| && owner'[q].User?
      ensures owner'[q].dir < |owner'| && owner'[owner'[q].dir] == Dir && owner'[q].v < USERPAGES
      ensures Present(Pte(t', owner'[q].dir, owner'[q].v)) && PageOf(Pte(t', owner'[q].dir, owner'[q].v)) == q
    {
      assert IsDir(owner, owner[q].dir) && Pte(t', owner[q].dir, owner[q].v) == Pte(t, owner[q].dir, owner[q].v);
    }
  }

  // ----- changing one entry of a page table

  /** The state after storing `e` in the entry for page `v` of `d`. */
  function WithEntry(t: Tables, d: nat, v: nat, e: Word): (t': Tables)
    requires v < VPAGES && Present(Pde(t, d, v / NPTENTRIES)) && PageOf(Pde(t, d, v / NPTENTRIES)) in t
  {
    var p := PageOf(Pde(t, d, v / NPTENTRIES));
    t[p := t[p][v % NPTENTRIES := e]]
  }

  lemma EntryMaps(t: Tables, frames: map<nat, Frame>, owner: seq<Owner>, d: nat, v: nat, e: Word)
    requires Owned(t, frames, owner) && IsDir(owner, d) && v < VPAGES && Present(Pde(t, d, v / NPTENTRIES))
    ensures PageOf(Pde(t, d, v / NPTENTRIES)) in t
    ensures var t' := WithEntry(t, d, v, e);
            && t'.Keys == t.Keys
            && MapSet(t, t', owner, d, v, e)
            && (forall d2: nat, i: nat | IsDir(owner, d2) :: Pde(t', d2, i) == Pde(t, d2, i))
  {
    var i := v / NPTENTRIES;
    var p := PageOf(Pde(t, d, i));
    assert owner[p] == Tab(d, i);
    var t' := WithEntry(t, d, v, e);
    forall d2: nat, i2: nat | IsDir(owner, d2)
      ensures Pde(t', d2, i2) == Pde(t, d2, i2)
    {
    }
    forall d2: nat, v2: nat | IsDir(owner, d2) && v2 < VPAGES
      ensures Pte(t', d2, v2) == if d2 == d && v2 == v then e else Pte(t, d2, v2)
    {
      var f := Pde(t, d2, v2 / NPTENTRIES);
      if Present(f) {
        assert owner[PageOf(f)] == Tab(d2, v2 / NPTENTRIES);
        if PageOf(f) == p {
          assert d2 == d && v2 / NPTENTRIES == i;
          assert v2 == v <==> v2 % NPTENTRIES == v % NPTENTRIES;
        }
      }
    }
  }

  /** Entries of page tables do not matter for who owns page tables. */
  lemma EntryTables(t: Tables, t': Tables, owner: seq<Owner>, owner': seq<Owner>, p: nat)
    requires TablesOwned(t, owner) && |owner| == |owner'| && p < |owner|
    requires forall d: nat, i: nat | IsDir(owner, d) :: Pde(t', d, i) == Pde(t, d, i)
    requires owner' == owner[p := owner'[p]] && !owner[p].Tab? && owner[p] != Dir && !owner'[p].Tab? && owner'[p] != Dir
    ensures TablesOwned(t', owner')
  {
    hide Pde;
    forall q: nat | q < |owner'| && owner'[q].Tab?
      ensures owner'[q].dir < |owner'| && owner'[owner'[q].dir] == Dir && owner'[q].i < NPTENTRIES
      ensures Present(Pde(t', owner'[q].dir, owner'[q].i)) && PageOf(Pde(t', owner'[q].dir, owner'[q].i)) == q
    {
      assert IsDir(owner, owner[q].dir);
    }
    forall d: nat, i: nat | d < |owner'| && owner'[d] == Dir && i < NPTENTRIES && Present(Pde(t', d, i))
      ensures PageOf(Pde(t', d, i)) < |owner'| && owner'[PageOf(Pde(t', d, i))] == Tab(d, i)
    {
      assert IsDir(owner, d);
    }
  }

  // ----- user pages

  lemma UserSet(t: Tables, t': Tables, owner: seq<Owner>, d: nat, v: nat, p: nat, e: Word)
    requires UsersOwned(t, owner) && MapSet(t, t', owner, d, v, e) && |owner| == NPHYS
    requires IsDir(owner, d) && v < USERPAGES && !Present(Pte(t, d, v)) && p < NPHYS && owner[p] == Held
    requires Present(e) && PageOf(e) == p
    ensures UsersOwned(t', owner[p := User(d, v)])
  {
    hide Pte;
    var owner' := owner[p := User(d, v)];
    forall d2: nat, v2: nat | d2 < |owner'| && owner'[d2] == Dir && v2 < USERPAGES && Present(Pte(t', d2, v2))
      ensures PageOf(Pte(t', d2, v2)) < |owner'| && owner'[PageOf(Pte(t', d2, v2))] == User(d2, v2)
    {
      assert IsDir(owner, d2) && Pte(t', d2, v2) == if d2 == d && v2 == v then e else Pte(t, d2, v2);
    }
    forall q: nat | q < |owner'| && owner'[q].User?
      ensures owner'[q].dir < |owner'| && owner'[owner'[q].dir] == Dir && owner'[q].v < USERPAGES
      ensures Present(Pte(t', owner'[q].dir, owner'[q].v)) && PageOf(Pte(t', owner'[q].dir, owner'[q].v)) == q
    {
      var o := owner'[q];
      assert IsDir(owner, o.dir) && Pte(t', o.dir, o.v) == if o.dir == d && o.v == v then e else Pte(t, o.dir, o.v);
    }
  }

  /** Mapping a held page for the user. */
  lemma MapOwned(t: Tables, frames: map<nat, Frame>, owner: seq<Owner>, d: nat, v: nat, p: nat, perm: nat, f: Frame)
    requires Owned(t, frames, owner) && IsDir(owner, d) && v < USERPAGES && Present(Pde(t, d, v / NPTENTRIES))
    requires !Present(Pte(t, d, v)) && p < NPHYS && owner[p] == Held && perm < PGSIZE
    ensures PageOf(Pde(t, d, v / NPTENTRIES)) in t
    ensures var t' := WithEntry(t, d, v, Entry(p, perm));
            && Owned(t', frames[p := f], owner[p := User(d, v)])
            && MapSet(t, t', owner, d, v, Entry(p, perm))
  {
    hide Pte, Pde, Entry;
    EntryMaps(t, frames, owner, d, v, Entry(p, perm));
    var t' := WithEntry(t, d, v, Entry(p, perm));
    EntryTables(t, t', owner, owner[p := User(d, v)], p);
    UserSet(t, t', owner, d, v, p, Entry(p, perm));
  }

  lemma UserCleared(t: Tables, t': Tables, owner: seq<Owner>, d: nat, v: nat)
    requires UsersOwned(t, owner) && MapSet(t, t', owner, d, v, 0)
    requires IsDir(owner, d) && v < USERPAGES && Present(Pte(t, d, v))
    ensures var p := PageOf(Pte(t, d, v));
            p < |owner| && owner[p] == User(d, v) && UsersOwned(t', owner[p := Held])
  {
    hide Pte;
    var p := PageOf(Pte(t, d, v));
    var owner' := owner[p := Held];
    forall d2: nat, v2: nat | d2 < |owner'| && owner'[d2] == Dir && v2 < USERPAGES && Present(Pte(t', d2, v2))
      ensures PageOf(Pte(t', d2, v2)) < |owner'| && owner'[PageOf(Pte(t', d2, v2))] == User(d2, v2)
    {
      assert IsDir(owner, d2) && Pte(t', d2, v2) == if d2 == d && v2 == v then 0 else Pte(t, d2, v2);
    }
    forall q: nat | q < |owner'| && owner'[q].User?
      ensures owner'[q].dir < |owner'| && owner'[owner'[q].dir] == Dir && owner'[q].v < USERPAGES
      ensures Present(Pte(t', owner'[q].dir, owner'[q].v)) && PageOf(Pte(t', owner'[q].dir, owner'[q].v)) == q
    {
      var o := owner[q];
      assert IsDir(owner, o.dir) && Pte(t', o.dir, o.v) == if o.dir == d && o.v == v then 0 else Pte(t, o.dir, o.v);
    }
  }

  /** Unmapping a user page hands its frame back. */
  lemma UnmapOwned(t: Tables, frames: map<nat, Frame>, owner: seq<Owner>, d: nat, v: nat)
    requires Owned(t, frames, owner) && IsDir(owner, d) && v < USERPAGES && Present(Pte(t, d, v))
    ensures var p := PageOf(Pte(t, d, v));
            && Present(Pde(t, d, v / NPTENTRIES)) && PageOf(Pde(t, d, v / NPTENTRIES)) in t
            && p < |owner| && owner[p] == User(d, v)
            && Owned(WithEntry(t, d, v, 0), frames - {p}, owner[p := Held])
            && MapSet(t, WithEntry(t, d, v, 0), owner, d, v, 0)
  {
    assert Present(Pde(t, d, v / NPTENTRIES));
    EntryMaps(t, frames, owner, d, v, 0);
    var p := PageOf(Pte(t, d, v));
    UserCleared(t, WithEntry(t, d, v, 0), owner, d, v);
    UnmapTables(t, WithEntry(t, d, v, 0), frames, owner, p);
  }

  lemma UnmapTables(t: Tables, t': Tables, frames: map<nat, Frame>, owner: seq<Owner>, p: nat)
    requires Typed(t, frames, owner) && TablesOwned(t, owner) && p < |owner| && owner[p].User? && t'.Keys == t.Keys
    requires forall d: nat, i: nat | IsDir(owner, d) :: Pde(t', d, i) == Pde(t, d, i)
    ensures Typed(t', frames - {p}, owner[p := Held]) && TablesOwned(t', owner[p := Held])
  {
    hide Pde;
    EntryTables(t, t', owner, owner[p := Held], p);
  }

  // ----- entries that own nothing

  lemma KernelOwned(t: Tables, frames: map<nat, Frame>, owner: seq<Owner>, d: nat, v: nat, e: Word)
    requires Owned(t, frames, owner) && IsDir(owner, d) && USERPAGES <= v < VPAGES && Present(Pde(t, d, v / NPTENTRIES))
    ensures PageOf(Pde(t, d, v / NPTENTRIES)) in t
    ensures Owned(WithEntry(t, d, v, e), frames, owner)
    ensures MapSet(t, WithEntry(t, d, v, e), owner, d, v, e)
  {
    hide Pte, Pde;
    EntryMaps(t, frames, owner, d, v, e);
    var t' := WithEntry(t, d, v, e);
    SamePagesOwned(t, t', frames, owner);
  }

  /** Changing only the flags of a present user entry. */
  lemma FlagsOwned(t: Tables, frames: map<nat, Frame>, owner: seq<Owner>, d: nat, v: nat, e: Word)
    requires Owned(t, frames, owner) && IsDir(owner, d) && v < USERPAGES && Present(Pde(t, d, v / NPTENTRIES))
    requires Present(e) == Present(Pte(t, d, v)) && PageOf(e) == PageOf(Pte(t, d, v))
    ensures PageOf(Pde(t, d, v / NPTENTRIES)) in t
    ensures Owned(WithEntry(t, d, v, e), frames, owner)
    ensures MapSet(t, WithEntry(t, d, v, e), owner, d, v, e)
  {
    hide Pte, Pde;
    EntryMaps(t, frames, owner, d, v, e);
    var t' := WithEntry(t, d, v, e);
    SamePagesOwned(t, t', frames, owner);
  }

  /** Ownership depends on the page numbers in user entries only. */
  lemma SamePagesOwned(t: Tables, t': Tables, frames: map<nat, Frame>, owner: seq<Owner>)
    requires Owned(t, frames, owner) && t'.Keys == t.Keys
    requires forall d: nat, i: nat | IsDir(owner, d) :: Pde(t', d, i) == Pde(t, d, i)
    requires forall d: nat, v: nat | IsDir(owner, d) && v < USERPAGES ::
               Present(Pte(t', d, v)) == Present(Pte(t, d, v)) && PageOf(Pte(t', d, v)) == PageOf(Pte(t, d, v))
    ensures Owned(t', frames, owner)
  {
    hide Pte, Pde;
    forall d: nat, v: nat | d < |owner| && owner[d] == Dir && v < USERPAGES && Present(Pte(t', d, v))
      ensures PageOf(Pte(t', d, v)) < |owner| && owner[PageOf(Pte(t', d, v))] == User(d, v)
    {
      assert IsDir(owner, d);
    }
    forall q: nat | q < |owner| && owner[q].User?
      ensures Present(Pte(t', owner[q].dir, owner[q].v)) && PageOf(Pte(t', owner[q].dir, owner[q].v)) == q
    {
      assert IsDir(owner, owner[q].dir);
    }
    forall d: nat, i: nat | d < |owner| && owner[d] == Dir && i < NPTENTRIES && Present(Pde(t', d, i))
      ensures PageOf(Pde(t', d, i)) < |owner| && owner[PageOf(Pde(t', d, i))] == Tab(d, i)
    {
      assert IsDir(owner, d);
    }
    forall q: nat | q < |owner| && owner[q].Tab?
      ensures Present(Pde(t', owner[q].dir, owner[q].i)) && PageOf(Pde(t', owner[q].dir, owner[q].i)) == q
    {
      assert IsDir(owner, owner[q].dir);
    }
  }

  // ----- whole directories

  /** Tables other than those of the directories in `owner` do not influence their maps. */
  lemma LocalMaps(t: Tables, t': Tables, owner: seq<Owner>, d: nat)
    requires TablesOwned(t, owner) && IsDir(owner, d)
    requires forall p: nat | p in t && p < |owner| && (p == d || (owner[p].Tab? && owner[p].dir == d)) ::
               p in t' && t'[p] == t[p]
    requires d in t && forall p: nat | p < |owner| && owner[p].Tab? :: p in t
    ensures forall i: nat :: Pde(t', d, i) == Pde(t, d, i)
    ensures forall v: nat | v < VPAGES :: Pte(t', d, v) == Pte(t, d, v)
  {
    forall v: nat | v < VPAGES
      ensures Pte(t', d, v) == Pte(t, d, v)
    {
      var e := Pde(t, d, v / NPTENTRIES);
      if Present(e) {
        assert owner[PageOf(e)] == Tab(d, v / NPTENTRIES);
      }
    }
  }

  lemma NewDirOwned(t: Tables, frames: map<nat, Frame>, owner: seq<Owner>, p: nat)
    requires Owned(t, frames, owner) && p < NPHYS && owner[p] == Held
    ensures var t' := t[p := NoEntries()];
            && Owned(t', frames, owner[p := Dir])
            && SameMaps(t, t', owner)
            && forall v: nat | v < VPAGES :: Pte(t', p, v) == 0
  {
    hide Pte;
    var t', owner' := t[p := NoEntries()], owner[p := Dir];
    forall d: nat | IsDir(owner, d)
      ensures forall i: nat :: Pde(t', d, i) == Pde(t, d, i)
      ensures forall v: nat | v < VPAGES :: Pte(t', d, v) == Pte(t, d, v)
    {
      LocalMaps(t, t', owner, d);
    }
    EmptyDirectory(t', p);
    NewDirTables(t, t', owner, p);
    NewDirUsers(t, t', owner, p);
  }

  lemma EmptyDirectory(t: Tables, p: nat)
    requires p in t && t[p] == NoEntries()
    ensures forall i: nat :: Pde(t, p, i) == 0
    ensures forall v: nat :: Pte(t, p, v) == 0
  {
  }

  lemma NewDirTables(t: Tables, t': Tables, owner: seq<Owner>, p: nat)
    requires TablesOwned(t, owner) && p < |owner| && owner[p] == Held
    requires forall d: nat, i: nat | IsDir(owner, d) :: Pde(t', d, i) == Pde(t, d, i)
    requires forall i: nat :: Pde(t', p, i) == 0
    ensures TablesOwned(t', owner[p := Dir])
  {
    hide Pde;
    var owner' := owner[p := Dir];
    forall d: nat, i: nat | d < |owner'| && owner'[d] == Dir && i < NPTENTRIES && Present(Pde(t', d, i))
      ensures PageOf(Pde(t', d, i)) < |owner'| && owner'[PageOf(Pde(t', d, i))] == Tab(d, i)
    {
      assert d != p && IsDir(owner, d);
    }
    forall q: nat | q < |owner'| && owner'[q].Tab?
      ensures Present(Pde(t', owner'[q].dir, owner'[q].i)) && PageOf(Pde(t', owner'[q].dir, owner'[q].i)) == q
    {
      assert IsDir(owner, owner[q].dir);
    }
  }

  lemma NewDirUsers(t: Tables, t': Tables, owner: seq<Owner>, p: nat)
    requires UsersOwned(t, owner) && p < |owner| && owner[p] == Held
    requires forall d: nat, v: nat | IsDir(owner, d) && v < VPAGES :: Pte(t', d, v) == Pte(t, d, v)
    requires forall v: nat :: Pte(t', p, v) == 0
    ensures UsersOwned(t', owner[p := Dir])
  {
    hide Pte;
    var owner' := owner[p := Dir];
    forall d: nat, v: nat | d < |owner'| && owner'[d] == Dir && v < USERPAGES && Present(Pte(t', d, v))
      ensures PageOf(Pte(t', d, v)) < |owner'| && owner'[PageOf(Pte(t', d, v))] == User(d, v)
    {
      assert d != p && IsDir(owner, d);
    }
    forall q: nat | q < |owner'| && owner'[q].User?
      ensures Present(Pte(t', owner'[q].dir, owner'[q].v)) && PageOf(Pte(t', owner'[q].dir, owner'[q].v)) == q
    {
      assert IsDir(owner, owner[q].dir);
    }
  }

  predicate PartOf(o: Owner, p: nat, d: nat) {
    p == d || (o.Tab? && o.dir == d)
  }

  /** A directory and its page tables have been taken apart. */
  ghost predicate Dismantled(t: Tables, t': Tables, owner: seq<Owner>, owner': seq<Owner>, d: nat) {
    && |owner'| == |owner|
    && (forall p: nat | p < |owner| :: owner'[p] == if PartOf(owner[p], p, d) then Held else owner[p])
    && (forall p: nat :: p in t' <==> p in t && !(p < |owner| && PartOf(owner[p], p, d)))
    && (forall p: nat | p in t' :: t'[p] == t[p])
  }

  lemma DismantleOwned(t: Tables, t': Tables, frames: map<nat, Frame>, owner: seq<Owner>, owner': seq<Owner>, d: nat)
    requires Owned(t, frames, owner) && IsDir(owner, d) && Dismantled(t, t', owner, owner', d)
    requires forall v: nat | v < USERPAGES :: !Present(Pte(t, d, v))
    ensures Owned(t', frames, owner')
    ensures forall d2: nat, v: nat | IsDir(owner, d2) && d2 != d && v < VPAGES :: Pte(t', d2, v) == Pte(t, d2, v)
  {
    hide Pte, Pde;
    forall d2: nat | IsDir(owner, d2) && d2 != d
      ensures forall i: nat :: Pde(t', d2, i) == Pde(t, d2, i)
      ensures forall v: nat | v < VPAGES :: Pte(t', d2, v) == Pte(t, d2, v)
    {
      LocalMaps(t, t', owner, d2);
    }
    DismantleTables(t, t', owner, owner', d);
    DismantleUsers(t, t', owner, owner', d);
  }

  lemma DismantleTables(t: Tables, t': Tables, owner: seq<Owner>, owner': seq<Owner>, d: nat)
    requires TablesOwned(t, owner) && IsDir(owner, d) && Dismantled(t, t', owner, owner', d)
    requires forall d2: nat, i: nat | IsDir(owner, d2) && d2 != d :: Pde(t', d2, i) == Pde(t, d2, i)
    ensures TablesOwned(t', owner')
  {
    hide Pde;
    forall d2: nat, i: nat | d2 < |owner'| && owner'[d2] == Dir && i < NPTENTRIES && Present(Pde(t', d2, i))
      ensures PageOf(Pde(t', d2, i)) < |owner'| && owner'[PageOf(Pde(t', d2, i))] == Tab(d2, i)
    {
      assert d2 != d && IsDir(owner, d2);
    }
    forall q: nat | q < |owner'| && owner'[q].Tab?
      ensures owner'[q].dir < |owner'| && owner'[owner'[q].dir] == Dir
      ensures Present(Pde(t', owner'[q].dir, owner'[q].i)) && PageOf(Pde(t', owner'[q].dir, owner'[q].i)) == q
    {
      assert IsDir(owner, owner[q].dir) && owner[q].dir != d;
    }
  }

  lemma DismantleUsers(t: Tables, t': Tables, owner: seq<Owner>, owner': seq<Owner>, d: nat)
    requires UsersOwned(t, owner) && IsDir(owner, d) && Dismantled(t, t', owner, owner', d)
    requires forall v: nat | v < USERPAGES :: !Present(Pte(t, d, v))
    requires forall d2: nat, v: nat | IsDir(owner, d2) && d2 != d && v < VPAGES :: Pte(t', d2, v) == Pte(t, d2, v)
    ensures UsersOwned(t', owner')
  {
    hide Pte;
    forall d2: nat, v: nat | d2 < |owner'| && owner'[d2] == Dir && v < USERPAGES && Present(Pte(t', d2, v))
      ensures PageOf(Pte(t', d2, v)) < |owner'| && owner'[PageOf(Pte(t', d2, v))] == User(d2, v)
    {
      assert d2 != d && IsDir(owner, d2);
    }
    forall q: nat | q < |owner'| && owner'[q].User?
      ensures owner'[q].dir < |owner'| && owner'[owner'[q].dir] == Dir
      ensures Present(Pte(t', owner'[q].dir, owner'[q].v)) && PageOf(Pte(t', owner'[q].dir, owner'[q].v)) == q
    {
      assert IsDir(owner, owner[q].dir) && owner[q].dir != d;
    }
  }

  /** No frame is mapped twice, in one address space or in two, and a mapped frame is neither
      free nor a page table. */
  lemma Partitioned(t: Tables, frames: map<nat, Frame>, owner: seq<Owner>, free: seq<nat>, d: nat, v: nat, d2: nat,
                    v2: nat)
    requires Owned(t, frames, owner) && Listed(free, owner)
    requires IsDir(owner, d) && v < USERPAGES && Present(Pte(t, d, v))
    requires IsDir(owner, d2) && v2 < USERPAGES && Present(Pte(t, d2, v2))
    ensures PageOf(Pte(t, d, v)) == PageOf(Pte(t, d2, v2)) ==> d == d2 && v == v2
    ensures var p := PageOf(Pte(t, d, v)); p in frames && p !in t && p !in free
  {
    hide Pte, Pde;
    assert owner[PageOf(Pte(t, d, v))] == User(d, v);
    assert owner[PageOf(Pte(t, d2, v2))] == User(d2, v2);
  }
}
