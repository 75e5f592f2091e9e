/** Address spaces (kernel/vm.c) and the page allocator under them (kernel/kalloc.c). A
    virtual or physical address is given by its page number where the code only handles
    whole pages. */
module Vm {
  import opened Options
  import opened Disk
  import opened Paging

  const KERNBASE := 0x8000_0000

  /** mappages: done, out of page-table pages, or the panic "remap". */
  datatype MapResult = Mapped | NoMemory | Remap

  datatype UserPage = Page(p: nat) | Denied | NullEntry

  datatype Copy = Space(d: nat) | NoSpace | AbsentPage

  datatype CopyResult = CopyDone | CopyDenied | CopyFault

  function PagesUp(sz: nat): (n: nat)
    ensures sz <= n * PGSIZE < sz + PGSIZE
  {
    (sz + PGSIZE - 1) / PGSIZE
  }

  /** Exactly the pages below `sz` are present; the other user entries are clear. */
  ghost predicate Sized(t: Tables, d: nat, sz: nat) {
    forall v: nat | v < USERPAGES :: if v * PGSIZE < sz then Present(Pte(t, d, v)) else Pte(t, d, v) == 0
  }

  /** Some free pages have become page tables of `d`; nothing else has changed hands. */
  ghost predicate Grew(owner: seq<Owner>, owner': seq<Owner>, d: nat) {
    && |owner'| == |owner|
    && forall p: nat | p < |owner| ::
         owner'[p] == owner[p] || (owner[p] == Free && owner'[p].Tab? && owner'[p].dir == d)
  }

  /** Present entries `lo..hi` of `d` have been cleared. */
  ghost predicate Unmapped(t: Tables, t': Tables, owner: seq<Owner>, d: nat, lo: nat, hi: nat) {
    forall d2: nat, v: nat | IsDir(owner, d2) && v < VPAGES ::
      Pte(t', d2, v) == if d2 == d && lo <= v < hi && Present(Pte(t, d, v)) then 0 else Pte(t, d2, v)
  }

  /** The frames behind pages `lo..hi` of `d` are free again; nothing else has changed hands. */
  ghost predicate FramesFreed(owner: seq<Owner>, owner': seq<Owner>, d: nat, lo: nat, hi: nat) {
    && |owner'| == |owner|
    && forall p: nat | p < |owner| ::
         owner'[p] == if owner[p].User? && owner[p].dir == d && lo <= owner[p].v < hi then Free else owner[p]
  }

  /** Frames that are still frames hold the same bytes. */
  ghost predicate SameBytes(frames: map<nat, Frame>, frames': map<nat, Frame>) {
    forall p: nat | p in frames && p in frames' :: frames'[p] == frames[p]
  }

  ghost predicate KernelKeeps(owner: seq<Owner>, first: nat) {
    forall p: nat | p < first && p < |owner| :: owner[p] == Other
  }

  /** The indices of the page tables that the directory `d` has. */
  ghost function Tabs(t: Tables, d: nat): (s: set<nat>) {
    set i: nat | i < NPTENTRIES && Present(Pde(t, d, i))
  }

  /** The indices of the page tables that pages `lo..hi` need. */
  ghost function Span(lo: nat, hi: nat): (s: set<nat>) {
    set v: nat | lo <= v < hi :: v / NPTENTRIES
  }

  /** How many physical pages it takes to map user pages `lo..hi`. */
  ghost function PagesFor(tabs: set<nat>, lo: nat, hi: nat): (n: nat)
    requires lo <= hi
  {
    hi - lo + |Span(lo, hi) - tabs|
  }

  class Vm {
    /** kmem.freelist, first page first. */
    var free: seq<nat>
    var tables: Tables
    var frames: map<nat, Frame>
    ghost var owner: seq<Owner>
    /** The first page above the kernel, which keeps everything below. */
    ghost const first: nat

    ghost predicate Valid()
      reads this
    {
      && |owner| == NPHYS && Owned(tables, frames, owner) && Listed(free, owner)
      && 0 < first <= NPHYS && KernelKeeps(owner, first)
    }

    /** After freerange: the pages from `first` on are free, the kernel has the others. */
    constructor (first: nat)
      requires 0 < first <= NPHYS
      ensures Valid() && this.first == first && tables == map[] && frames == map[]
      ensures forall p: nat | p < NPHYS :: owner[p] == if p < first then Other else Free
    {
      tables, frames := map[], map[];
      this.first := first;
      owner := seq(NPHYS, p => if p < first then Other else Free);
      free := [];
      new;
      var p := first;
      while p < NPHYS
        modifies this`free
        invariant first <= p <= NPHYS
        invariant |free| == p - first && forall i | 0 <= i < |free| :: free[i] == p - 1 - i
      {
        free := [p] + free;
        p := p + 1;
      }
      forall q: nat | first <= q < NPHYS
        ensures q in free
      {
        assert free[NPHYS - 1 - q] == q;
      }
    }

    method Kalloc() returns (r: Option<nat>)
      requires Valid()
      modifies this`free, this`owner
      ensures Valid()
      ensures r.None? <==> old(free) == []
      ensures r.None? ==> free == old(free) && owner == old(owner)
      ensures r.Some? ==>
        && r.value < NPHYS && old(owner)[r.value] == Free
        && owner == old(owner)[r.value := Held] && free == old(free)[1..] && r.value == old(free)[0]
    {
      hide Owned;
      if free == [] {
        return None;
      }
      r := Some(free[0]);
      OwnedHeld(tables, frames, owner, free[0], Held);
      ListedPop(free, owner);
      owner := owner[free[0] := Held];
      free := free[1..];
    }

    /** The caller gives up a page it holds. */
    method Kfree(p: nat)
      requires Valid() && p < |owner| && owner[p] == Held
      modifies this`free, this`owner
      ensures Valid() && free == [p] + old(free) && owner == old(owner)[p := Free]
    {
      hide Owned, Listed;
      // the panic of kfree is for addresses outside of this range
      assert first <= p < NPHYS;
      OwnedHeld(tables, frames, owner, p, Free);
      ListedPush(free, owner, p);
      free := [p] + free;
      owner := owner[p := Free];
    }

    /** walkpgdir: afterwards there is a page table for page `v`, unless there was none and
        it could not or should not be created. */
    method WalkPgdir(d: nat, v: nat, alloc: bool) returns (ok: bool)
      requires Valid() && IsDir(owner, d) && v < VPAGES
      modifies this`free, this`tables, this`owner
      ensures Valid() && IsDir(owner, d)
      ensures ok <==> Present(Pde(tables, d, v / NPTENTRIES))
      ensures ok <==> Present(Pde(old(tables), d, v / NPTENTRIES)) || (alloc && old(free) != [])
      ensures Tabs(tables, d) == if ok then Tabs(old(tables), d) + {v / NPTENTRIES} else Tabs(old(tables), d)
      ensures |free| + |Tabs(tables, d)| == |old(free)| + |Tabs(old(tables), d)|
      ensures !ok ==> free == old(free) && tables == old(tables) && owner == old(owner) && (alloc ==> free == [])
      ensures !alloc || Present(Pde(old(tables), d, v / NPTENTRIES)) ==>
        free == old(free) && tables == old(tables) && owner == old(owner)
      ensures SameMaps(old(tables), tables, old(owner)) && Grew(old(owner), owner, d)
    {
      hide Owned, Listed, SameMaps, Pte, Tabs;
      MapsSelf(tables, owner, d);
      DirTable(tables, frames, owner, d);
      TabsIn(tables, d, v);
      if Present(tables[d][v / NPTENTRIES]) {
        return true;
      }
      if !alloc {
        return false;
      }
      var mem := Kalloc();
      if mem.None? {
        return false;
      }
      var p := mem.value;
      NewTableOwned(tables, frames, owner, d, v / NPTENTRIES, p);
      ListedPlaced(free, owner, p, Tab(d, v / NPTENTRIES));
      NewTablePresent(tables, d, v / NPTENTRIES, p);
      NewTabs(tables, d, v / NPTENTRIES, p);
      SameDirMaps(tables, WithTable(tables, d, v / NPTENTRIES, p), owner, old(owner));
      tables := WithTable(tables, d, v / NPTENTRIES, p);
      owner := owner[p := Tab(d, v / NPTENTRIES)];
      ok := true;
    }

    /** mappages for one user page backed by the held page `p` with contents `f`. */
    method MapUser(d: nat, v: nat, p: nat, perm: nat, f: Frame) returns (r: MapResult)
      requires Valid() && IsDir(owner, d) && v < USERPAGES && p < NPHYS && owner[p] == Held && perm < PGSIZE
      modifies this`free, this`tables, this`frames, this`owner
      ensures Valid() && IsDir(owner, d)
      ensures r == Remap <==> Present(Pte(old(tables), d, v))
      ensures r == NoMemory <==> v / NPTENTRIES !in Tabs(old(tables), d) && old(free) == []
      ensures r == Mapped ==> Tabs(tables, d) == Tabs(old(tables), d) + {v / NPTENTRIES}
      ensures |free| + |Tabs(tables, d)| == |old(free)| + |Tabs(old(tables), d)|
      ensures r != Mapped ==> free == old(free) && tables == old(tables) && frames == old(frames) && owner == old(owner)
      ensures r == Mapped ==>
        && MapSet(old(tables), tables, old(owner), d, v, Entry(p, perm))
        && frames == old(frames)[p := f]
        && Grew(old(owner)[p := User(d, v)], owner, d) && owner[p] == User(d, v)
    {
      hide Owned, Listed, SameMaps, MapSet, Pte, Entry, Tabs;
      ghost var t0, owner0 := tables, owner;
      TabsIn(tables, d, v);
      var ok := WalkPgdir(d, v, true);
      if !ok {
        NoTable(tables, d, v);
        return NoMemory;
      }
      MapsAt(t0, tables, owner0, d, v);
      PteTable(tables, frames, owner, d, v);
      if Present(Pte(tables, d, v)) {
        PresentTable(t0, frames, owner0, d, v);
        return Remap;
      }
      MapOwned(tables, frames, owner, d, v, p, perm, f);
      EntryTabs(tables, frames, owner, d, v, Entry(p, perm));
      ListedPlaced(free, owner, p, User(d, v));
      MapSetAfter(t0, tables, WithEntry(tables, d, v, Entry(p, perm)), owner0, owner, d, v, Entry(p, perm));
      tables := WithEntry(tables, d, v, Entry(p, perm));
      frames := frames[p := f];
      owner := owner[p := User(d, v)];
      r := Mapped;
    }

    /** deallocuvm: unmap and free the user pages from `newsz` up to `oldsz`, skipping over
        page tables that do not exist. */
    method Deallocuvm(d: nat, oldsz: nat, newsz: nat) returns (r: nat)
      requires Valid() && IsDir(owner, d) && oldsz <= KERNBASE
      modifies this`free, this`tables, this`frames, this`owner
      ensures Valid() && IsDir(owner, d)
      ensures r == if newsz >= oldsz then oldsz else newsz
      ensures Unmapped(old(tables), tables, old(owner), d, PagesUp(newsz), PagesUp(oldsz))
      ensures FramesFreed(old(owner), owner, d, PagesUp(newsz), PagesUp(oldsz))
      ensures SameBytes(old(frames), frames)
      ensures KernelPrivate(old(tables), d) ==> KernelPrivate(tables, d)
    {
      hide Owned, Listed, MapSet, Pte, Pde, Unmapped, FramesFreed, KernelPrivate;
      ghost var t0, owner0 := tables, owner;
      ghost var lo, hi := PagesUp(newsz), PagesUp(oldsz);
      NothingUnmapped(t0, frames, owner0, d, lo, hi);
      if newsz >= oldsz {
        PagesUpMonotone(oldsz, newsz);
        return oldsz;
      }
      PagesUpMonotone(newsz, oldsz);
      var v := PagesUp(newsz);
      while v * PGSIZE < oldsz
        invariant lo <= v && Valid() && IsDir(owner, d)
        invariant Unmapped(t0, tables, owner0, d, lo, v)
        invariant FramesFreed(owner0, owner, d, lo, v)
        invariant SameBytes(old(frames), frames)
        invariant v > hi ==> Vacant(t0, d, hi, v)
        decreases hi - v
      {
        BelowHi(v, oldsz);
        var ok := WalkPgdir(d, v, false);
        PteTable(tables, frames, owner, d, v);
        if !ok {
          var next := (v / NPTENTRIES + 1) * NPTENTRIES - 1;
          SkipTable(t0, tables, frames, owner0, owner, d, lo, v);
          v := next;
        } else {
          ghost var t1, owner1, frames1 := tables, owner, frames;
          if Present(Pte(tables, d, v)) {
            var p := PageOf(Pte(tables, d, v));
            UnmapOwned(tables, frames, owner, d, v);
            assert 0 < first <= p;
            ListedPlaced(free, owner, p, Held);
            tables := WithEntry(tables, d, v, 0);
            frames := frames - {p};
            owner := owner[p := Held];
            Kfree(p);
            assert owner == owner1[p := Free];
          }
          UnmapStep(t0, t1, tables, frames1, owner0, owner1, owner, d, lo, v);
        }
        v := v + 1;
      }
      UnmapEnd(t0, old(frames), tables, owner0, owner, d, lo, v, hi, oldsz);
      PrivateUnmapped(t0, tables, owner0, d, lo, hi);
      r := newsz;
    }

    /** allocuvm: grow from `oldsz` to `newsz`; 0 is failure, which leaves the address space
        as it was, except that new page tables stay. */
    method Allocuvm(d: nat, oldsz: nat, newsz: nat) returns (r: nat)
      requires Valid() && IsDir(owner, d) && Sized(tables, d, oldsz)
      modifies this`free, this`tables, this`frames, this`owner
      ensures Valid() && IsDir(owner, d)
      ensures newsz >= KERNBASE ==> r == 0
      ensures newsz < oldsz && newsz < KERNBASE ==> r == oldsz
      ensures oldsz <= newsz < KERNBASE ==>
        && PagesUp(oldsz) <= PagesUp(newsz)
        && r == if |old(free)| < PagesFor(Tabs(old(tables), d), PagesUp(oldsz), PagesUp(newsz)) then 0 else newsz
      ensures r != newsz ==>
        SameMaps(old(tables), tables, old(owner)) && frames == old(frames) && Grew(old(owner), owner, d)
      ensures r == newsz ==>
        && Sized(tables, d, newsz) && SameBytes(old(frames), frames)
        && Added(old(tables), tables, old(owner), d, PagesUp(oldsz), PagesUp(newsz))
        && OwnersAdded(old(owner), owner, d, PagesUp(oldsz), PagesUp(newsz))
        && Zeroed(tables, frames, d, PagesUp(oldsz), PagesUp(newsz))
      ensures KernelPrivate(old(tables), d) ==> KernelPrivate(tables, d)
    {
      hide Owned, Listed, MapSet, Pte, Pde, Unmapped, FramesFreed, Added, OwnersAdded, Zeroed, Grew, Sized, SameMaps,
           Entry, SameBytes, Tabs, Span, PagesFor, KernelPrivate;
      MapsSelf(tables, owner, d);
      PagesUpMonotone(oldsz, newsz);
      if newsz >= KERNBASE {
        return 0;
      }
      if newsz < oldsz {
        return oldsz;
      }
      ghost var t0, owner0, lo := tables, owner, PagesUp(oldsz);
      AddedNothing(tables, frames, owner, d, lo);
      SpanNone(Tabs(t0, d), lo);
      var v := PagesUp(oldsz);
      while v * PGSIZE < newsz
        invariant lo <= v && Valid() && IsDir(owner, d)
        invariant Added(t0, tables, owner0, d, lo, v)
        invariant OwnersAdded(owner0, owner, d, lo, v)
        invariant Zeroed(tables, frames, d, lo, v)
        invariant SameBytes(old(frames), frames)
        invariant v == lo || v <= PagesUp(newsz)
        invariant Tabs(tables, d) == Tabs(t0, d) + Span(lo, v)
        invariant |free| + |Tabs(tables, d)| + (v - lo) == |old(free)| + |Tabs(t0, d)|
        decreases PagesUp(newsz) - v
      {
        BelowHi(v, newsz);
        SpanMore(Tabs(t0, d), lo, v, PagesUp(newsz));
        ghost var t1, owner1, frames1 := tables, owner, frames;
        var mem := Kalloc();
        if mem.None? {
          r := Deallocuvm(d, newsz, oldsz);
          Restored(t0, old(frames), t1, frames1, tables, frames, owner0, owner1, owner, d, oldsz, newsz, v);
          PrivateSame(t0, tables, owner0, d);
          return 0;
        }
        var p := mem.value;
        FreeOwner(owner0, owner1, d, lo, v, p);
        NotFrame(t0, old(frames), owner0, p);
        NotFrame(t1, frames1, owner1, p);
        VacantAt(t0, tables, owner0, d, oldsz, v);
        var mapped := MapUser(d, v, p, PTE_W + PTE_U, ZeroFrame());
        if mapped == NoMemory {
          r := Deallocuvm(d, newsz, oldsz);
          HeldFreed(owner1, owner, d, PagesUp(oldsz), PagesUp(newsz), p);
          Kfree(p);
          SameDirUnmapped(t1, tables, owner1[p := Held], owner1, d, PagesUp(oldsz), PagesUp(newsz));
          Restored(t0, old(frames), t1, frames1, tables, frames, owner0, owner1, owner, d, oldsz, newsz, v);
          PrivateSame(t0, tables, owner0, d);
          return 0;
        }
        AddedStep(t0, t1, tables, owner0, owner1, d, p, lo, v, Entry(p, PTE_W + PTE_U));
        OwnersAddedStep(owner0, owner1, owner, d, lo, v, p);
        ZeroedStep(t1, tables, frames1, owner1, d, lo, v, p);
        BytesStep(old(frames), frames1, p, ZeroFrame());
        v := v + 1;
      }
      AllDone(t0, tables, owner0, d, oldsz, newsz, v);
      PagesAre(Tabs(t0, d), lo, v);
      BelowKernel(newsz);
      PrivateAdded(t0, tables, owner0, d, lo, v);
      r := newsz;
    }

    /** freevm: every page that `d` owned is free again. Its page tables are no longer read
        through `d` once their freeing starts. */
    method Freevm(d: nat)
      requires Valid() && IsDir(owner, d)
      modifies this`free, this`tables, this`frames, this`owner
      ensures Valid() && Returned(old(owner), owner, d)
      ensures OthersSame(old(tables), tables, old(owner), d) && SameBytes(old(frames), frames)
    {
      hide Owned, Listed, Pte, Pde, Unmapped, FramesFreed, Dismantled, PartsHeld, OthersSame, Returned;
      ghost var t0, owner0 := tables, owner;
      var _ := Deallocuvm(d, KERNBASE, 0);
      ghost var t1, owner1 := tables, owner;
      DirTable(tables, frames, owner, d);
      var pgdir := tables[d];
      tables := WithoutParts(tables, d);
      owner := HoldParts(owner, d);
      Taken(t0, t1, tables, frames, free, owner0, owner1, d);
      var i := 0;
      while i < NPTENTRIES
        modifies this`free, this`owner
        invariant i <= NPTENTRIES && Valid() && PartsHeld(owner1, owner, d, i)
      {
        PartAt(t1, frames, owner1, owner, d, i);
        if Present(pgdir[i]) {
          Kfree(PageOf(pgdir[i]));
        }
        i := i + 1;
      }
      PartsDone(t1, frames, owner1, owner, d);
      Kfree(d);
      AllReturned(t0, old(frames), owner0, owner1, owner, d);
    }

    /** One turn of mappages, for a kernel page. */
    method MapPage(d: nat, v: nat, page: nat, perm: nat) returns (r: MapResult)
      requires Valid() && IsDir(owner, d) && USERPAGES <= v < VPAGES && page < VPAGES && perm < PGSIZE
      modifies this`free, this`tables, this`owner
      ensures Valid() && IsDir(owner, d) && Grew(old(owner), owner, d)
      ensures r == Remap <==> Present(Pte(old(tables), d, v))
      ensures r == NoMemory <==> v / NPTENTRIES !in Tabs(old(tables), d) && old(free) == []
      ensures r != Mapped ==> free == old(free) && tables == old(tables) && owner == old(owner)
      ensures r == Mapped ==>
        && MapSet(old(tables), tables, old(owner), d, v, Entry(page, perm))
        && Tabs(tables, d) == Tabs(old(tables), d) + {v / NPTENTRIES}
      ensures |free| + |Tabs(tables, d)| == |old(free)| + |Tabs(old(tables), d)|
    {
      hide Owned, Listed, MapSet, Pte, Pde, Entry, SameMaps, Tabs;
      ghost var t0, owner0 := tables, owner;
      TabsIn(tables, d, v);
      var ok := WalkPgdir(d, v, true);
      if !ok {
        NoTable(tables, d, v);
        return NoMemory;
      }
      MapsAt(t0, tables, owner0, d, v);
      PteTable(tables, frames, owner, d, v);
      if Present(Pte(tables, d, v)) {
        PresentTable(t0, frames, owner0, d, v);
        return Remap;
      }
      KernelOwned(tables, frames, owner, d, v, Entry(page, perm));
      EntryTabs(tables, frames, owner, d, v, Entry(page, perm));
      MapSetAfter(t0, tables, WithEntry(tables, d, v, Entry(page, perm)), owner0, owner, d, v, Entry(page, perm));
      tables := WithEntry(tables, d, v, Entry(page, perm));
      r := Mapped;
    }

    /** mappages for `n` kernel pages from `v` on, backed by the physical pages from `page`
        on; `k` of them are mapped. */
    method MapKernel(d: nat, v: nat, n: nat, page: nat, perm: nat) returns (r: MapResult, ghost k: nat)
      requires Valid() && IsDir(owner, d) && USERPAGES <= v && 0 < n && v + n <= VPAGES && page + n <= VPAGES &&
               perm < PGSIZE
      modifies this`free, this`tables, this`owner
      ensures Valid() && IsDir(owner, d) && Grew(old(owner), owner, d)
      ensures k <= n && RangeSet(old(tables), tables, old(owner), d, v, k, page, perm)
      ensures Vacant(old(tables), d, v, v + k)
      ensures r == Mapped <==> k == n
      ensures k < n ==> (r == Remap <==> Present(Pte(old(tables), d, v + k)))
      ensures r == NoMemory ==> free == [] && (v + k) / NPTENTRIES !in Tabs(tables, d)
      ensures Tabs(tables, d) == Tabs(old(tables), d) + Span(v, v + k)
      ensures |free| + |Tabs(tables, d)| == |old(free)| + |Tabs(old(tables), d)|
    {
      hide Owned, Listed, MapSet, Pte, Pde, Entry, Grew, SameMaps, RangeSet, Tabs, Span, PagesFor;
      ghost var t0, owner0 := tables, owner;
      RangeEmpty(tables, owner, d, v, page, perm);
      SpanNone(Tabs(t0, d), v);
      var i := 0;
      k := 0;
      while true
        invariant 0 <= i == k < n && Valid() && IsDir(owner, d) && Grew(owner0, owner, d)
        invariant RangeSet(t0, tables, owner0, d, v, k, page, perm)
        invariant Vacant(t0, d, v, v + k)
        invariant Tabs(tables, d) == Tabs(t0, d) + Span(v, v + k)
        invariant |free| + |Tabs(tables, d)| == |old(free)| + |Tabs(t0, d)|
        decreases n - i
      {
        ghost var t1, owner1 := tables, owner;
        SpanMore(Tabs(t0, d), v, v + k, v + k + 1);
        RangeNext(t0, t1, owner0, d, v, k, page, perm);
        r := MapPage(d, v + i, page + i, perm);
        if r != Mapped {
          return;
        }
        RangeStep(t0, t1, tables, owner0, owner1, d, v, k, page, perm);
        GrewTwice(owner0, owner1, owner, d);
        k := k + 1;
        if i == n - 1 {
          break;
        }
        i := i + 1;
      }
    }

    /** setupkvm: a new address space with the kernel's mappings and nothing else, or nothing. */
    method Setupkvm(data: nat) returns (r: Option<nat>)
      requires Valid() && EXTPAGES < data < NPHYS
      modifies this`free, this`tables, this`frames, this`owner
      ensures Valid() && SameMaps(old(tables), tables, old(owner)) && frames == old(frames)
      ensures r.None? ==> owner == old(owner)
      ensures r.None? <==> |old(free)| < 65
      ensures r.Some? ==>
        && r.value < NPHYS && old(owner)[r.value] == Free && IsDir(owner, r.value)
        && Grew(old(owner)[r.value := Dir], owner, r.value)
        && KernelOnly(tables, r.value, data) && KernelPrivate(tables, r.value)
        && KernelRights(tables, r.value, data, 0)
        && Tabs(tables, r.value) == KernelTabs() && |free| == |old(free)| - 65
    {
      hide Owned, Listed, Pte, Pde, Entry, Grew, OwnersAdded, SameMaps, RangeSet, KernelUpTo, KernelEntry, Returned,
           OthersSame, Tabs, Span, KernelTabs, RunTabs, KernelOnly, KernelPrivate, KernelRights, KernelFrom;
      ghost var t0, owner0 := tables, owner;
      MapsSelf(tables, owner, 0);
      KernelTabsCard();
      var mem := Kalloc();
      if mem.None? {
        return None;
      }
      var d := mem.value;
      NewDirOwned(tables, frames, owner, d);
      ListedPlaced(free, owner, d, Dir);
      tables := tables[d := NoEntries()];
      owner := owner[d := Dir];
      NewDirKept(t0, tables, owner0, d, data);
      EmptyTabs(tables, d, data);
      var kmap := Kmap(data);
      var k := 0;
      while k < |kmap|
        invariant k <= |kmap| && Valid() && IsDir(owner, d) && Grew(owner0[d := Dir], owner, d)
        invariant SameMaps(t0, tables, owner0) && KernelUpTo(tables, d, data, k) && frames == old(frames)
        invariant Tabs(tables, d) == RunTabs(data, k) && |free| + 1 + |Tabs(tables, d)| == |old(free)|
      {
        ghost var t1, owner1 := tables, owner;
        var m, n := MapKernel(d, kmap[k].virt, kmap[k].end - kmap[k].start, kmap[k].start, kmap[k].perm);
        KmapStep(t0, t1, tables, owner0, owner1, d, data, k, n);
        GrewTwice(owner0[d := Dir], owner1, owner, d);
        assert m != Remap;
        RunTabsStep(data, k, n, Tabs(tables, d));
        if m == NoMemory {
          ghost var t2, owner2 := tables, owner;
          GrewAdded(owner0, owner2, d);
          Freevm(d);
          GivenBack(t0, t2, tables, old(frames), old(frames), frames, owner0, owner2, owner, d, 0);
          return None;
        }
        k := k + 1;
      }
      KernelDone(tables, d, data);
      OnlyPrivate(tables, d, data);
      OnlyFrom(tables, d, data);
      RightsFrom(tables, d, data, 0);
      AllRuns(data);
      r := Some(d);
    }

    /** One turn of copyuvm's loop: a free page with contents `f` becomes user page `v`, or nothing
        changes for want of pages. */
    method PlacePage(d: nat, v: nat, perm: nat, f: Frame) returns (r: Option<nat>)
      requires Valid() && IsDir(owner, d) && v < USERPAGES && perm < PGSIZE && !Present(Pte(tables, d, v))
      modifies this`free, this`tables, this`frames, this`owner
      ensures Valid() && IsDir(owner, d)
      ensures r.None? <==> |old(free)| == 0 || (|old(free)| == 1 && v / NPTENTRIES !in Tabs(old(tables), d))
      ensures r.None? ==> tables == old(tables) && frames == old(frames) && owner == old(owner)
      ensures r.Some? ==>
        var p := r.value;
        && p < NPHYS && old(owner)[p] == Free && frames == old(frames)[p := f]
        && MapSet(old(tables), tables, old(owner)[p := Held], d, v, Entry(p, perm))
        && Grew(old(owner)[p := Held][p := User(d, v)], owner, d) && owner[p] == User(d, v)
        && Tabs(tables, d) == Tabs(old(tables), d) + {v / NPTENTRIES}
        && |free| + 1 + |Tabs(tables, d)| == |old(free)| + |Tabs(old(tables), d)|
    {
      hide Owned, Listed, MapSet, Pte, Pde, Entry, Grew, Tabs, Present;
      r := Kalloc();
      if r.None? {
        return;
      }
      var mapped := MapUser(d, v, r.value, perm, f);
      if mapped == NoMemory {
        Kfree(r.value);
        assert owner == old(owner);
        r := None;
      }
    }

    /** copyuvm: a new address space with copies of the pages of `pg` below `sz`, or nothing, or
        the panic on a page that is not present. Page tables and frames of the copy are pages
        that were free. */
    method Copyuvm(pg: nat, sz: nat, data: nat) returns (r: Copy)
      requires Valid() && IsDir(owner, pg) && sz <= KERNBASE && EXTPAGES < data < NPHYS
      modifies this`free, this`tables, this`frames, this`owner
      ensures Valid() && SameMaps(old(tables), tables, old(owner))
      ensures r.NoSpace? ==> owner == old(owner) && frames == old(frames)
      // of the pages up to the first that is not present, as many as there are free pages for
      ensures var m := FirstAbsent(old(tables), pg, 0, PagesUp(sz));
        && (r.NoSpace? <==> |old(free)| < 65 + m + (m + NPTENTRIES - 1) / NPTENTRIES)
        && (r.AbsentPage? <==> !r.NoSpace? && m < PagesUp(sz))
      ensures r.Space? ==>
        && r.d < NPHYS && old(owner)[r.d] == Free && IsDir(owner, r.d) && KernelPrivate(tables, r.d)
        && OwnersAdded(old(owner)[r.d := Dir], owner, r.d, 0, PagesUp(sz))
        && SameBytes(old(frames), frames)
        && Copied(old(tables), old(frames), tables, frames, pg, r.d, PagesUp(sz))
        && KernelFrom(tables, r.d, data, PagesUp(sz)) && KernelRights(tables, r.d, data, PagesUp(sz))
    {
      hide Owned, Listed, MapSet, Pte, Pde, Entry, Grew, OwnersAdded, SameMaps, KernelOnly, KernelEntry, KernelFrom,
           Returned, OthersSame, SameBytes, Copied, Tabs, Span, PagesFor, KernelTabs, KernelPrivate, KernelRights;
      ghost var t0, frames0, owner0 := tables, frames, owner;
      ghost var n, m := PagesUp(sz), FirstAbsent(tables, pg, 0, PagesUp(sz));
      PagesUpMonotone(sz, KERNBASE);
      UserTabs(m);
      SpanNone(KernelTabs(), 0);
      var space := Setupkvm(data);
      if space.None? {
        return NoSpace;
      }
      var d := space.value;
      NothingCopied(t0, frames0, tables, owner0, owner, pg, d, data);
      var v := 0;
      while v * PGSIZE < sz
        invariant v <= m <= PagesUp(sz) && Valid() && IsDir(owner, d) && SameBytes(frames0, frames)
        invariant OwnersAdded(owner0[d := Dir], owner, d, 0, v) && SameMaps(t0, tables, owner0)
        invariant Copied(t0, frames0, tables, frames, pg, d, v) && KernelFrom(tables, d, data, v)
        invariant Tabs(tables, d) == KernelTabs() + Span(0, v)
        invariant |free| + |Tabs(tables, d)| + v == |old(free)| - 1
        decreases PagesUp(sz) - v
      {
        BelowHi(v, sz);
        ghost var t1, frames1, owner1 := tables, frames, owner;
        CopyReady(t0, t1, frames0, frames1, owner0, owner1, pg, d, data, v);
        var ok := WalkPgdir(pg, v, false);
        if !ok || !Present(Pte(tables, pg, v)) {
          AbsentEntry(tables, pg, v);
          PagesAre(KernelTabs(), 0, v);
          return AbsentPage;
        }
        SpanMore(KernelTabs(), 0, v, m);
        var e := Pte(tables, pg, v);
        var mem := PlacePage(d, v, Flags(e), frames[PageOf(e)]);
        if mem.None? {
          Freevm(d);
          GivenBack(t0, t1, tables, frames0, frames1, frames, owner0, owner1, owner, d, v);
          return NoSpace;
        }
        var p := mem.value;
        NewPage(t0, t1, frames0, frames1, owner0, owner1, d, v, p);
        CopyStep(t0, t1, tables, frames0, frames1, owner0, owner1, pg, d, data, v, p);
        OwnersAddedStep(owner0[d := Dir], owner1, owner, d, 0, v, p);
        BytesStep(frames0, frames1, p, frames0[PageOf(e)]);
        v := v + 1;
      }
      assert v == PagesUp(sz);
      PagesAre(KernelTabs(), 0, n);
      FromPrivate(tables, d, data, n);
      RightsFrom(tables, d, data, n);
      r := Space(d);
    }

    /** clearpteu: one page becomes inaccessible to the user; everything else stays. False is
        the panic for a page without a page table. */
    method Clearpteu(d: nat, v: nat) returns (ok: bool)
      requires Valid() && IsDir(owner, d) && v < VPAGES
      modifies this`free, this`tables, this`owner
      ensures Valid() && free == old(free) && owner == old(owner)
      ensures ok <==> Present(Pde(old(tables), d, v / NPTENTRIES))
      ensures if ok then MapSet(old(tables), tables, owner, d, v, ClearUser(Pte(old(tables), d, v)))
              else tables == old(tables)
      ensures KernelPrivate(old(tables), d) ==> KernelPrivate(tables, d)
    {
      hide Owned, Listed, MapSet, Pte, Pde, KernelPrivate, ClearUser;
      ghost var t0 := tables;
      ok := WalkPgdir(d, v, false);
      if !ok {
        return;
      }
      PteTable(tables, frames, owner, d, v);
      var e := ClearUser(Pte(tables, d, v));
      ClearUserFields(Pte(tables, d, v));
      if v < USERPAGES {
        FlagsOwned(tables, frames, owner, d, v, e);
      } else {
        KernelOwned(tables, frames, owner, d, v, e);
      }
      tables := WithEntry(tables, d, v, e);
      PrivateSet(t0, tables, owner, d, v, e);
    }

    /** uva2ka: the frame behind a page that the user may access. The source looks at the entry
        even if there is no page table, which is NullEntry here. */
    method Uva2ka(d: nat, v: nat) returns (r: UserPage)
      requires Valid() && IsDir(owner, d) && v < VPAGES
      ensures r == if !Present(Pde(tables, d, v / NPTENTRIES)) then NullEntry
                   else if UserEntry(Pte(tables, d, v)) then Page(PageOf(Pte(tables, d, v))) else Denied
    {
      hide Owned, Listed, Pte, Pde;
      PteTable(tables, frames, owner, d, v);
      DirTable(tables, frames, owner, d);
      PdeTable(tables, d, v / NPTENTRIES);
      if !Present(tables[d][v / NPTENTRIES]) {
        return NullEntry;
      }
      var pgtab := tables[PageOf(tables[d][v / NPTENTRIES])];
      var e := pgtab[v % NPTENTRIES];
      if !UserEntry(e) {
        return Denied;
      }
      r := Page(PageOf(e));
    }

    /** copyout: the bytes from `va` on in the address space `d` become `buf`, up to the first
        page that the user may not access; no other byte of any address space changes. */
    method Copyout(d: nat, va: nat, buf: seq<Byte>) returns (r: CopyResult, ghost done: nat)
      requires Valid() && IsDir(owner, d) && va < 0x1_0000_0000 && KernelPrivate(tables, d)
      modifies this`frames
      ensures Valid() && done <= |buf| && (r == CopyDone <==> done == |buf|)
      ensures r == CopyDone <==> forall v: nat | Touches(va, |buf|, v) :: UserEntry(Pte(tables, d, v))
      ensures r != CopyDone ==>
        var v := (va + done) / PGSIZE;
        !UserEntry(Pte(tables, d, v)) && (r == CopyFault <==> !Present(Pde(tables, d, v / NPTENTRIES)))
      ensures Stored(tables, old(frames), frames, owner, d, va, buf[..done])
    {
      hide Owned, Listed, Pte, Pde, Stored, UserEntry, KernelPrivate;
      ghost var frames0 := frames;
      done := 0;
      NothingStored(tables, frames, owner, d, va);
      var cur, i := va, 0;
      while i < |buf|
        invariant i == done <= |buf| && Valid() && (i < |buf| ==> cur == va + i) && (i == 0 || cur <= KERNBASE)
        invariant forall v: nat | Touches(va, i, v) :: UserEntry(Pte(tables, d, v))
        invariant Stored(tables, frames0, frames, owner, d, va, buf[..i])
        decreases |buf| - i
      {
        var v := cur / PGSIZE;
        InRange(va, |buf|, i, v);
        var frame := Uva2ka(d, v);
        if !frame.Page? {
          NotUser(tables, d, v);
          return if frame == Denied then CopyDenied else CopyFault, done;
        }
        var p, off := frame.p, cur % PGSIZE;
        var n := if PGSIZE - off > |buf| - i then |buf| - i else PGSIZE - off;
        UserFrame(tables, frames, owner, d, v);
        Store(tables, frames0, frames, owner, d, va, buf, i, v, off, n);
        frames := frames[p := Overlaid(frames[p], off, buf[i..i + n])];
        NextPage(va, |buf|, i, v, off, n);
        i := i + n;
        done := i;
        cur := v * PGSIZE + PGSIZE;
      }
      assert buf[..i] == buf;
      r := CopyDone;
    }
  }

  // ----- page tables

  lemma TabsIn(t: Tables, d: nat, v: nat)
    requires v < VPAGES
    ensures v / NPTENTRIES in Tabs(t, d) <==> Present(Pde(t, d, v / NPTENTRIES))
    ensures v / NPTENTRIES in Tabs(t, d) ==> Tabs(t, d) == Tabs(t, d) + {v / NPTENTRIES}
  {
    hide Pde;
  }

  lemma NewTabs(t: Tables, d: nat, i: nat, p: nat)
    requires d in t && i < NPTENTRIES && p < VPAGES && p != d
    ensures Tabs(WithTable(t, d, i, p), d) == Tabs(t, d) + {i}
  {
    hide Entry;
  }

  lemma EntryTabs(t: Tables, frames: map<nat, Frame>, owner: seq<Owner>, d: nat, v: nat, e: Word)
    requires Owned(t, frames, owner) && IsDir(owner, d) && v < VPAGES && Present(Pde(t, d, v / NPTENTRIES))
    ensures PageOf(Pde(t, d, v / NPTENTRIES)) in t && Tabs(WithEntry(t, d, v, e), d) == Tabs(t, d)
  {
    hide Pte, Pde;
    EntryMaps(t, frames, owner, d, v, e);
  }

  lemma SpanNone(tabs: set<nat>, lo: nat)
    ensures Span(lo, lo) == {} && tabs == tabs + Span(lo, lo)
  {
  }

  /** The tables and pages for `lo..hi`, compared with those for `lo..v`. */
  lemma SpanMore(tabs: set<nat>, lo: nat, v: nat, hi: nat)
    requires lo <= v < hi
    ensures tabs + Span(lo, v + 1) == tabs + Span(lo, v) + {v / NPTENTRIES}
    ensures PagesFor(tabs, lo, hi) > |tabs + Span(lo, v)| - |tabs| + (v - lo)
    ensures v / NPTENTRIES !in tabs + Span(lo, v) ==>
            PagesFor(tabs, lo, hi) > |tabs + Span(lo, v)| - |tabs| + (v - lo) + 1
  {
    assert Span(lo, v + 1) == Span(lo, v) + {v / NPTENTRIES};
    PagesAre(tabs, lo, hi);
    var all := tabs + Span(lo, hi);
    assert v / NPTENTRIES in Span(lo, hi);
    Smaller(tabs + Span(lo, v), all);
    Smaller(tabs + Span(lo, v) + {v / NPTENTRIES}, all);
  }

  lemma PagesAre(tabs: set<nat>, lo: nat, hi: nat)
    requires lo <= hi
    ensures PagesFor(tabs, lo, hi) == |tabs + Span(lo, hi)| - |tabs| + (hi - lo)
  {
    hide Span;
    assert tabs + Span(lo, hi) == tabs + (Span(lo, hi) - tabs);
  }

  lemma Smaller(a: set<nat>, b: set<nat>)
    requires a <= b
    ensures |a| <= |b|
  {
    assert b == a + (b - a);
  }

  // ----- allocuvm

  /** Entries `lo..hi` of `d` are present now; nothing else has changed in any map. */
  ghost predicate Added(t: Tables, t': Tables, owner: seq<Owner>, d: nat, lo: nat, hi: nat) {
    forall d2: nat, v: nat | IsDir(owner, d2) && v < VPAGES ::
      if d2 == d && lo <= v < hi then Present(Pte(t', d2, v)) else Pte(t', d2, v) == Pte(t, d2, v)
  }

  /** Free pages have become user pages `lo..hi` or page tables of `d`. */
  ghost predicate OwnersAdded(owner: seq<Owner>, owner': seq<Owner>, d: nat, lo: nat, hi: nat) {
    && |owner'| == |owner|
    && forall p: nat | p < |owner| ::
         || owner'[p] == owner[p]
         || (owner[p] == Free && owner'[p].Tab? && owner'[p].dir == d)
         || (owner[p] == Free && owner'[p].User? && owner'[p].dir == d && lo <= owner'[p].v < hi)
  }

  /** The new pages are user-writable and full of zeros. */
  ghost predicate Zeroed(t: Tables, frames: map<nat, Frame>, d: nat, lo: nat, hi: nat) {
    forall v: nat | lo <= v < hi ::
      var e := Pte(t, d, v);
      Flags(e) == PTE_P + PTE_W + PTE_U && PageOf(e) in frames && frames[PageOf(e)] == ZeroFrame()
  }

  lemma AddedNothing(t: Tables, frames: map<nat, Frame>, owner: seq<Owner>, d: nat, lo: nat)
    ensures Added(t, t, owner, d, lo, lo) && OwnersAdded(owner, owner, d, lo, lo) && Zeroed(t, frames, d, lo, lo)
    ensures SameBytes(frames, frames)
  {
    hide Pte;
  }

  lemma VacantAt(t0: Tables, t: Tables, owner: seq<Owner>, d: nat, oldsz: nat, v: nat)
    requires Added(t0, t, owner, d, PagesUp(oldsz), v) && Sized(t0, d, oldsz) && IsDir(owner, d)
    requires PagesUp(oldsz) <= v < USERPAGES
    ensures !Present(Pte(t, d, v))
  {
    hide Pte;
    assert v * PGSIZE >= oldsz;
  }

  lemma AddedStep(t0: Tables, t1: Tables, t2: Tables, owner0: seq<Owner>, owner1: seq<Owner>,
                  d: nat, p: nat, lo: nat, v: nat, e: Word)
    requires Added(t0, t1, owner0, d, lo, v) && OwnersAdded(owner0, owner1, d, lo, v) && Present(e) && lo <= v
    requires p < |owner1| && owner1[p] == Free && MapSet(t1, t2, owner1[p := Held], d, v, e)
    ensures Added(t0, t2, owner0, d, lo, v + 1)
  {
    hide Pte;
    forall d2: nat, u: nat | IsDir(owner0, d2) && u < VPAGES
      ensures if d2 == d && lo <= u < v + 1 then Present(Pte(t2, d2, u)) else Pte(t2, d2, u) == Pte(t0, d2, u)
    {
      assert Pte(t2, d2, u) == if d2 == d && u == v then e else Pte(t1, d2, u);
      assert if d2 == d && lo <= u < v then Present(Pte(t1, d2, u)) else Pte(t1, d2, u) == Pte(t0, d2, u);
    }
  }

  lemma OwnersAddedStep(owner0: seq<Owner>, owner1: seq<Owner>, owner2: seq<Owner>, d: nat, lo: nat, v: nat, p: nat)
    requires OwnersAdded(owner0, owner1, d, lo, v) && lo <= v && p < |owner1| && owner1[p] == Free
    requires Grew(owner1[p := Held][p := User(d, v)], owner2, d) && owner2[p] == User(d, v)
    ensures OwnersAdded(owner0, owner2, d, lo, v + 1)
  {
  }

  lemma ZeroedStep(t1: Tables, t2: Tables, frames: map<nat, Frame>, owner1: seq<Owner>, d: nat, lo: nat, v: nat, p: nat)
    requires Zeroed(t1, frames, d, lo, v) && lo <= v < USERPAGES && p < NPHYS && p !in frames && p < |owner1|
    requires MapSet(t1, t2, owner1[p := Held], d, v, Entry(p, PTE_W + PTE_U)) && IsDir(owner1[p := Held], d)
    ensures Zeroed(t2, frames[p := ZeroFrame()], d, lo, v + 1)
  {
    hide Pte;
    forall u: nat | lo <= u < v + 1
      ensures var e := Pte(t2, d, u);
              Flags(e) == PTE_P + PTE_W + PTE_U && PageOf(e) in frames[p := ZeroFrame()] &&
                frames[p := ZeroFrame()][PageOf(e)] == ZeroFrame()
    {
      assert Pte(t2, d, u) == if u == v then Entry(p, PTE_W + PTE_U) else Pte(t1, d, u);
    }
  }

  lemma BytesStep(frames0: map<nat, Frame>, frames: map<nat, Frame>, p: nat, f: Frame)
    requires SameBytes(frames0, frames) && p !in frames0
    ensures SameBytes(frames0, frames[p := f])
  {
  }

  lemma FreeOwner(owner0: seq<Owner>, owner1: seq<Owner>, d: nat, lo: nat, hi: nat, p: nat)
    requires OwnersAdded(owner0, owner1, d, lo, hi) && p < |owner1| && owner1[p] == Free
    ensures |owner0| == |owner1| && owner0[p] == Free
  {
  }

  lemma NotFrame(t: Tables, frames: map<nat, Frame>, owner: seq<Owner>, p: nat)
    requires Owned(t, frames, owner) && p < |owner| && !owner[p].User?
    ensures p !in frames
  {
    hide Pte, Pde;
  }

  lemma HeldFreed(owner1: seq<Owner>, owner2: seq<Owner>, d: nat, lo: nat, hi: nat, p: nat)
    requires p < |owner1| && owner1[p] == Free && FramesFreed(owner1[p := Held], owner2, d, lo, hi)
    ensures p < |owner2| && owner2[p] == Held && FramesFreed(owner1, owner2[p := Free], d, lo, hi)
  {
  }

  lemma SameDirUnmapped(t: Tables, t': Tables, owner: seq<Owner>, owner': seq<Owner>, d: nat, lo: nat, hi: nat)
    requires Unmapped(t, t', owner, d, lo, hi) && forall d2: nat | IsDir(owner', d2) :: IsDir(owner, d2)
    ensures Unmapped(t, t', owner', d, lo, hi)
  {
    hide Pte;
  }

  /** Giving back what a failed allocuvm had added restores the address space. */
  lemma Restored(t0: Tables, frames0: map<nat, Frame>, t1: Tables, frames1: map<nat, Frame>, t2: Tables,
                 frames2: map<nat, Frame>,
                 owner0: seq<Owner>, owner1: seq<Owner>, owner2: seq<Owner>, d: nat, oldsz: nat, newsz: nat, v: nat)
    requires Owned(t0, frames0, owner0) && Owned(t1, frames1, owner1) && Owned(t2, frames2, owner2)
    requires IsDir(owner0, d) && Sized(t0, d, oldsz) && PagesUp(oldsz) <= v < PagesUp(newsz) <= USERPAGES
    requires Added(t0, t1, owner0, d, PagesUp(oldsz), v) && OwnersAdded(owner0, owner1, d, PagesUp(oldsz), v) &&
             SameBytes(frames0, frames1)
    requires Unmapped(t1, t2, owner1, d, PagesUp(oldsz), PagesUp(newsz)) &&
             FramesFreed(owner1, owner2, d, PagesUp(oldsz), PagesUp(newsz))
    requires SameBytes(frames1, frames2)
    ensures SameMaps(t0, t2, owner0) && Grew(owner0, owner2, d) && frames2 == frames0
  {
    hide Pte, Owned, Typed;
    RestoredMaps(t0, t1, t2, owner0, owner1, d, oldsz, newsz, v);
    RestoredOwners(t0, frames0, owner0, owner1, owner2, d, oldsz, newsz, v);
    RestoredFrames(t0, frames0, t1, frames1, t2, frames2, owner0, owner1, owner2, d, PagesUp(oldsz), v);
  }

  lemma RestoredMaps(t0: Tables, t1: Tables, t2: Tables, owner0: seq<Owner>, owner1: seq<Owner>, d: nat, oldsz: nat,
                     newsz: nat, v: nat)
    requires IsDir(owner0, d) && Sized(t0, d, oldsz) && PagesUp(oldsz) <= v < PagesUp(newsz) <= USERPAGES
    requires Added(t0, t1, owner0, d, PagesUp(oldsz), v) && OwnersAdded(owner0, owner1, d, PagesUp(oldsz), v)
    requires Unmapped(t1, t2, owner1, d, PagesUp(oldsz), PagesUp(newsz))
    ensures SameMaps(t0, t2, owner0)
  {
    hide Pte;
    forall d2: nat, u: nat | IsDir(owner0, d2) && u < VPAGES
      ensures Pte(t2, d2, u) == Pte(t0, d2, u)
    {
      assert IsDir(owner1, d2);
      assert PagesUp(oldsz) <= u ==> u * PGSIZE >= oldsz;
    }
  }

  lemma RestoredOwners(t0: Tables, frames0: map<nat, Frame>, owner0: seq<Owner>, owner1: seq<Owner>, owner2: seq<Owner>,
                       d: nat, oldsz: nat, newsz: nat, v: nat)
    requires Owned(t0, frames0, owner0) && Sized(t0, d, oldsz) && PagesUp(oldsz) <= v < PagesUp(newsz) <= USERPAGES
    requires OwnersAdded(owner0, owner1, d, PagesUp(oldsz), v) &&
             FramesFreed(owner1, owner2, d, PagesUp(oldsz), PagesUp(newsz))
    ensures Grew(owner0, owner2, d)
  {
    hide Pte, Pde, Typed, TablesOwned;
    forall p: nat | p < |owner0|
      ensures owner2[p] == owner0[p] || (owner0[p] == Free && owner2[p].Tab? && owner2[p].dir == d)
    {
      if owner0[p].User? && owner0[p].dir == d {
        assert Present(Pte(t0, d, owner0[p].v));
        assert owner0[p].v * PGSIZE < oldsz;
      }
    }
  }

  lemma RestoredFrames(t0: Tables, frames0: map<nat, Frame>, t1: Tables, frames1: map<nat, Frame>, t2: Tables,
                       frames2: map<nat, Frame>,
                       owner0: seq<Owner>, owner1: seq<Owner>, owner2: seq<Owner>, d: nat, lo: nat, hi: nat)
    requires Owned(t0, frames0, owner0) && Owned(t1, frames1, owner1) && Owned(t2, frames2, owner2)
    requires OwnersAdded(owner0, owner1, d, lo, hi) && Grew(owner0, owner2, d) && SameBytes(frames0, frames1) &&
             SameBytes(frames1, frames2)
    ensures frames2 == frames0
  {
    hide Pte, Pde, TablesOwned, UsersOwned;
    forall p: nat
      ensures p in frames2 <==> p in frames0
      ensures p in frames0 ==> frames2[p] == frames0[p]
    {
    }
  }

  lemma AllDone(t0: Tables, t: Tables, owner0: seq<Owner>, d: nat, oldsz: nat, newsz: nat, v: nat)
    requires Added(t0, t, owner0, d, PagesUp(oldsz), v) && Sized(t0, d, oldsz) && IsDir(owner0, d)
    requires oldsz <= newsz < KERNBASE && v * PGSIZE >= newsz && PagesUp(oldsz) <= v &&
             (v == PagesUp(oldsz) || v <= PagesUp(newsz))
    ensures v == PagesUp(newsz) && Sized(t, d, newsz)
  {
    hide Pte;
    PagesUpMonotone(oldsz, newsz);
    forall u: nat | u < USERPAGES
      ensures if u * PGSIZE < newsz then Present(Pte(t, d, u)) else Pte(t, d, u) == 0
    {
      assert u < PagesUp(oldsz) <==> u * PGSIZE < oldsz;
      assert u < PagesUp(newsz) <==> u * PGSIZE < newsz;
    }
  }

  // ----- freevm

  /** Everything that belonged to `d` is free; nothing else has changed hands. */
  ghost predicate Returned(owner: seq<Owner>, owner': seq<Owner>, d: nat) {
    && |owner'| == |owner|
    && forall p: nat | p < |owner| ::
         owner'[p] == if PartOf(owner[p], p, d) || (owner[p].User? && owner[p].dir == d) then Free else owner[p]
  }

  ghost predicate OthersSame(t: Tables, t': Tables, owner: seq<Owner>, d: nat) {
    forall d2: nat, v: nat | IsDir(owner, d2) && d2 != d && v < VPAGES :: Pte(t', d2, v) == Pte(t, d2, v)
  }

  function WithoutParts(t: Tables, d: nat): (t': Tables)
    requires d in t
  {
    t - {d} - set i: nat | i < NPTENTRIES && Present(t[d][i]) :: PageOf(t[d][i])
  }

  ghost function HoldParts(owner: seq<Owner>, d: nat): (owner': seq<Owner>) {
    seq(|owner|, p requires 0 <= p < |owner| => if PartOf(owner[p], p, d) then Held else owner[p])
  }

  /** The page tables of `d` for entries below `i` are free, the others and `d` are held. */
  ghost predicate PartsHeld(owner: seq<Owner>, owner': seq<Owner>, d: nat, i: nat) {
    && |owner'| == |owner|
    && forall p: nat | p < |owner| ::
         owner'[p] == if !PartOf(owner[p], p, d) then owner[p] else if p != d && owner[p].i < i then Free else Held
  }

  lemma WithoutPartsKeys(t: Tables, frames: map<nat, Frame>, owner: seq<Owner>, d: nat)
    requires Owned(t, frames, owner) && IsDir(owner, d) && d in t
    ensures Dismantled(t, WithoutParts(t, d), owner, HoldParts(owner, d), d)
  {
    hide Pte, UsersOwned;
    var t' := WithoutParts(t, d);
    forall p: nat
      ensures p in t' <==> p in t && !(p < |owner| && PartOf(owner[p], p, d))
    {
      if p in t && p < |owner| && owner[p].Tab? && owner[p].dir == d {
        assert PageOf(Pde(t, d, owner[p].i)) == p;
      }
      if i: nat :| i < NPTENTRIES && Present(t[d][i]) && PageOf(t[d][i]) == p {
        assert Present(Pde(t, d, i));
      }
    }
  }

  lemma ListedHeld(free: seq<nat>, owner: seq<Owner>, d: nat)
    requires Listed(free, owner) && d < |owner| && owner[d] == Dir
    ensures Listed(free, HoldParts(owner, d))
  {
  }

  lemma Taken(t0: Tables, t1: Tables, t2: Tables, frames: map<nat, Frame>, free: seq<nat>,
              owner0: seq<Owner>, owner1: seq<Owner>, d: nat)
    requires Owned(t1, frames, owner1) && IsDir(owner0, d) && IsDir(owner1, d) && Listed(free, owner1)
    requires Unmapped(t0, t1, owner0, d, 0, USERPAGES) && FramesFreed(owner0, owner1, d, 0, USERPAGES)
    requires d in t1 && t2 == WithoutParts(t1, d)
    ensures |HoldParts(owner1, d)| == |owner1|
    ensures Owned(t2, frames, HoldParts(owner1, d)) && Listed(free, HoldParts(owner1, d))
    ensures PartsHeld(owner1, HoldParts(owner1, d), d, 0) && OthersSame(t0, t2, owner0, d)
  {
    hide Pte, Pde, Owned, Listed, Dismantled, WithoutParts;
    WithoutPartsKeys(t1, frames, owner1, d);
    ListedHeld(free, owner1, d);
    assert forall v: nat | v < USERPAGES :: !Present(Pte(t1, d, v));
    DismantleOwned(t1, t2, frames, owner1, HoldParts(owner1, d), d);
    forall d2: nat, v: nat | IsDir(owner0, d2) && d2 != d && v < VPAGES
      ensures Pte(t2, d2, v) == Pte(t0, d2, v)
    {
      assert IsDir(owner1, d2);
    }
  }

  /** Entry `i` of the directory leads to the one page table with that index. */
  lemma PartAt(t: Tables, frames: map<nat, Frame>, owner: seq<Owner>, owner': seq<Owner>, d: nat, i: nat)
    requires Owned(t, frames, owner) && IsDir(owner, d) && d in t && i < NPTENTRIES && PartsHeld(owner, owner', d, i)
    ensures var e := t[d][i];
            if Present(e) then PageOf(e) < |owner'| && owner'[PageOf(e)] == Held &&
              PartsHeld(owner, owner'[PageOf(e) := Free], d, i + 1)
            else PartsHeld(owner, owner', d, i + 1)
  {
    hide Pte, UsersOwned;
    var e := t[d][i];
    assert e == Pde(t, d, i);
    forall p: nat | p < |owner| && owner[p].Tab? && owner[p].dir == d && owner[p].i == i
      ensures Present(e) && p == PageOf(e)
    {
    }
  }

  lemma PartsDone(t: Tables, frames: map<nat, Frame>, owner: seq<Owner>, owner': seq<Owner>, d: nat)
    requires Owned(t, frames, owner) && IsDir(owner, d) && PartsHeld(owner, owner', d, NPTENTRIES)
    ensures |owner| == |owner'|
    ensures forall p: nat | p < |owner| ::
              owner'[p] == if p == d then Held else if PartOf(owner[p], p, d) then Free else owner[p]
  {
    hide Pte, Pde, UsersOwned;
  }

  lemma AllReturned(t0: Tables, frames0: map<nat, Frame>, owner0: seq<Owner>, owner1: seq<Owner>, owner2: seq<Owner>,
                    d: nat)
    requires FramesFreed(owner0, owner1, d, 0, USERPAGES) && |owner2| == |owner1|
    requires forall p: nat | p < |owner1| :: owner2[p] == if PartOf(owner1[p], p, d) then Free else owner1[p]
    requires Owned(t0, frames0, owner0)
    ensures Returned(owner0, owner2, d)
  {
    hide Pte, Pde, TablesOwned;
  }

  // ----- kernel mappings

  /** Pages `v..v+k` of `d` are mapped to the physical pages from `page` on. */
  ghost predicate RangeSet(t: Tables, t': Tables, owner: seq<Owner>, d: nat, v: nat, k: nat, page: nat, perm: nat)
    requires page + k <= VPAGES && perm < PGSIZE
  {
    forall d2: nat, u: nat | IsDir(owner, d2) && u < VPAGES ::
      Pte(t', d2, u) == if d2 == d && v <= u < v + k then Entry(page + (u - v), perm) else Pte(t, d2, u)
  }

  lemma RangeEmpty(t: Tables, owner: seq<Owner>, d: nat, v: nat, page: nat, perm: nat)
    requires page <= VPAGES && perm < PGSIZE
    ensures RangeSet(t, t, owner, d, v, 0, page, perm) && Grew(owner, owner, d)
  {
    hide Pte;
  }

  lemma RangeNext(t0: Tables, t: Tables, owner: seq<Owner>, d: nat, v: nat, k: nat, page: nat, perm: nat)
    requires page + k < VPAGES && perm < PGSIZE && v + k < VPAGES && IsDir(owner, d)
    requires RangeSet(t0, t, owner, d, v, k, page, perm)
    ensures Pte(t, d, v + k) == Pte(t0, d, v + k)
  {
    hide Pte;
  }

  lemma GrewTwice(owner0: seq<Owner>, owner1: seq<Owner>, owner2: seq<Owner>, d: nat)
    requires Grew(owner0, owner1, d) && Grew(owner1, owner2, d)
    ensures Grew(owner0, owner2, d)
  {
  }

  lemma RangeStep(t0: Tables, t1: Tables, t2: Tables, owner0: seq<Owner>, owner1: seq<Owner>, d: nat, v: nat, k: nat,
                  page: nat, perm: nat)
    requires page + k < VPAGES && perm < PGSIZE && Grew(owner0, owner1, d)
    requires RangeSet(t0, t1, owner0, d, v, k, page, perm) && MapSet(t1, t2, owner1, d, v + k, Entry(page + k, perm))
    ensures RangeSet(t0, t2, owner0, d, v, k + 1, page, perm)
  {
    hide Pte, Entry;
    forall d2: nat, u: nat | IsDir(owner0, d2) && u < VPAGES
      ensures Pte(t2, d2, u) == if d2 == d && v <= u < v + k + 1 then Entry(page + (u - v), perm) else Pte(t0, d2, u)
    {
      assert IsDir(owner1, d2);
      if d2 == d && u == v + k {
        assert page + (u - v) == page + k;
      }
    }
  }

  const EXTPAGES := 0x10_0000 / PGSIZE
  const DEVPAGE := 0xFE00_0000 / PGSIZE

  /** One run of kernel pages, in page numbers; `end` is exclusive. */
  datatype KernelRun = KernelRun(virt: nat, start: nat, end: nat, perm: nat)

  /** The kmap table; `data` is the physical page where the kernel's data begins. */
  function Kmap(data: nat): (kmap: seq<KernelRun>) {
    [KernelRun(USERPAGES, 0, EXTPAGES, PTE_W),
     KernelRun(USERPAGES + EXTPAGES, EXTPAGES, data, 0),
     KernelRun(USERPAGES + data, data, NPHYS, PTE_W),
     KernelRun(DEVPAGE, DEVPAGE, VPAGES, PTE_W)]
  }

  /** What every address space maps at page `v`, apart from user memory. */
  function KernelEntry(data: nat, v: nat): (e: Word)
    requires v < VPAGES
  {
    if USERPAGES <= v < USERPAGES + NPHYS then
      Entry(v - USERPAGES, if EXTPAGES <= v - USERPAGES < data then 0 else PTE_W)
    else if DEVPAGE <= v then Entry(v, PTE_W)
    else 0
  }

  /** Nothing but the kernel's mappings, with memory above EXTMEM and below `data` read-only. */
  ghost predicate KernelOnly(t: Tables, d: nat, data: nat) {
    forall v: nat | v < VPAGES :: Pte(t, d, v) == KernelEntry(data, v)
  }

  function Frontier(data: nat, k: nat): (v: nat) {
    if k == 0 then USERPAGES else if k == 1 then USERPAGES + EXTPAGES else if k == 2 then USERPAGES + data
    else if k == 3 then DEVPAGE else VPAGES
  }

  /** The first `k` runs have been mapped. */
  ghost predicate KernelUpTo(t: Tables, d: nat, data: nat, k: nat) {
    forall v: nat | v < VPAGES :: Pte(t, d, v) == if v < Frontier(data, k) then KernelEntry(data, v) else 0
  }

  lemma NewDirKept(t0: Tables, t: Tables, owner0: seq<Owner>, d: nat, data: nat)
    requires d < |owner0| && owner0[d] == Free && SameMaps(t0, t, owner0[d := Held])
    requires forall v: nat | v < VPAGES :: Pte(t, d, v) == 0
    ensures SameMaps(t0, t, owner0) && KernelUpTo(t, d, data, 0) && Grew(owner0[d := Dir], owner0[d := Dir], d)
    ensures owner0[d := Held][d := Dir] == owner0[d := Dir]
  {
    hide Pte, Entry;
    SameDirMaps(t0, t, owner0[d := Held], owner0);
  }

  lemma KmapStep(t0: Tables, t1: Tables, t2: Tables, owner0: seq<Owner>, owner1: seq<Owner>, d: nat, data: nat, k: nat,
                 n: nat)
    requires EXTPAGES < data < NPHYS && k < 4 && n <= Kmap(data)[k].end - Kmap(data)[k].start
    requires d < |owner0| && owner0[d] == Free && Grew(owner0[d := Dir], owner1, d) && IsDir(owner1, d)
    requires SameMaps(t0, t1, owner0) && KernelUpTo(t1, d, data, k)
    requires RangeSet(t1, t2, owner1, d, Kmap(data)[k].virt, n, Kmap(data)[k].start, Kmap(data)[k].perm)
    ensures SameMaps(t0, t2, owner0)
    ensures n == Kmap(data)[k].end - Kmap(data)[k].start ==> KernelUpTo(t2, d, data, k + 1)
    ensures n < Kmap(data)[k].end - Kmap(data)[k].start ==> Pte(t1, d, Kmap(data)[k].virt + n) == 0
  {
    hide Pte, Entry;
    forall d2: nat, v: nat | IsDir(owner0, d2) && v < VPAGES
      ensures Pte(t2, d2, v) == Pte(t0, d2, v)
    {
      assert IsDir(owner1, d2) && d2 != d;
    }
    if n == Kmap(data)[k].end - Kmap(data)[k].start {
      forall v: nat | v < VPAGES
        ensures Pte(t2, d, v) == if v < Frontier(data, k + 1) then KernelEntry(data, v) else 0
      {
        RunEntry(data, k, v);
      }
    }
  }

  /** A run contributes the entries between its frontier and the next. */
  lemma RunEntry(data: nat, k: nat, v: nat)
    requires EXTPAGES < data < NPHYS && k < 4 && v < VPAGES
    ensures var run := Kmap(data)[k];
            if run.virt <= v < run.virt + (run.end - run.start) then
              Frontier(data, k) <= v < Frontier(data, k + 1) &&
                KernelEntry(data, v) == Entry(run.start + (v - run.virt), run.perm)
            else Frontier(data, k) <= v < Frontier(data, k + 1) ==> KernelEntry(data, v) == 0
    ensures Frontier(data, k) <= Frontier(data, k + 1)
  {
    hide Entry;
  }

  /** The page tables of the kernel's half: 56 for physical memory and 8 for devices. */
  ghost function KernelTabs(): (s: set<nat>) {
    Interval(512, 568) + Interval(1016, 1024)
  }

  ghost function Interval(lo: nat, hi: nat): (s: set<nat>)
    ensures forall i :: i in s <==> lo <= i < hi
    ensures lo <= hi ==> |s| == hi - lo
  {
    if hi <= lo then {} else Interval(lo, hi - 1) + {hi - 1}
  }

  lemma KernelTabsCard()
    ensures |KernelTabs()| == 64
  {
    hide Interval;
    assert Interval(512, 568) !! Interval(1016, 1024);
  }

  /** The page tables that the first `k` runs need. */
  ghost function RunTabs(data: nat, k: nat): (s: set<nat>)
    requires EXTPAGES < data < NPHYS && k <= 4
  {
    if k == 0 then {}
    else
      var run := Kmap(data)[k - 1];
      RunTabs(data, k - 1) + Span(run.virt, run.virt + (run.end - run.start))
  }

  lemma EmptyTabs(t: Tables, d: nat, data: nat)
    requires EXTPAGES < data < NPHYS && d in t && t[d] == NoEntries()
    ensures Tabs(t, d) == {} == RunTabs(data, 0)
  {
  }

  lemma InKernelTabs(data: nat, k: nat, v: nat)
    requires EXTPAGES < data < NPHYS && k < 4
    requires var run := Kmap(data)[k]; run.virt <= v < run.virt + (run.end - run.start)
    ensures v / NPTENTRIES in KernelTabs()
  {
    hide Interval;
  }

  lemma RunSubset(data: nat, k: nat, n: nat)
    requires EXTPAGES < data < NPHYS && k < 4 && n <= Kmap(data)[k].end - Kmap(data)[k].start
    ensures Span(Kmap(data)[k].virt, Kmap(data)[k].virt + n) <= KernelTabs()
  {
    hide KernelTabs;
    var run := Kmap(data)[k];
    forall v: nat | run.virt <= v < run.virt + n
      ensures v / NPTENTRIES in KernelTabs()
    {
      InKernelTabs(data, k, v);
    }
  }

  lemma {:induction false} RunsSubset(data: nat, k: nat)
    requires EXTPAGES < data < NPHYS && k <= 4
    ensures RunTabs(data, k) <= KernelTabs()
  {
    hide KernelTabs, Span;
    if k > 0 {
      RunsSubset(data, k - 1);
      RunSubset(data, k - 1, Kmap(data)[k - 1].end - Kmap(data)[k - 1].start);
    }
  }

  /** A run of which `n` pages are mapped: done, or a table is missing. */
  lemma RunTabsStep(data: nat, k: nat, n: nat, tabs: set<nat>)
    requires EXTPAGES < data < NPHYS && k < 4 && n <= Kmap(data)[k].end - Kmap(data)[k].start
    requires tabs == RunTabs(data, k) + Span(Kmap(data)[k].virt, Kmap(data)[k].virt + n)
    ensures n == Kmap(data)[k].end - Kmap(data)[k].start ==> tabs == RunTabs(data, k + 1)
    ensures n < Kmap(data)[k].end - Kmap(data)[k].start && (Kmap(data)[k].virt + n) / NPTENTRIES !in tabs ==>
      |tabs| < |KernelTabs()|
  {
    hide KernelTabs, Span;
    RunsSubset(data, k);
    RunSubset(data, k, n);
    if n < Kmap(data)[k].end - Kmap(data)[k].start && (Kmap(data)[k].virt + n) / NPTENTRIES !in tabs {
      InKernelTabs(data, k, Kmap(data)[k].virt + n);
      Smaller(tabs + {(Kmap(data)[k].virt + n) / NPTENTRIES}, KernelTabs());
    }
  }

  lemma AllRuns(data: nat)
    requires EXTPAGES < data < NPHYS
    ensures RunTabs(data, 4) == KernelTabs()
  {
    hide RunTabs, Span, Interval;
    RunsSubset(data, 4);
    forall i | i in KernelTabs()
      ensures i in RunTabs(data, 4)
    {
      if i < 568 {
        var v := i * NPTENTRIES;
        InRuns(data, if v < USERPAGES + EXTPAGES then 0 else if v < USERPAGES + data then 1 else 2, v);
        assert v / NPTENTRIES == i;
      } else {
        InRuns(data, 3, i * NPTENTRIES);
        assert i * NPTENTRIES / NPTENTRIES == i;
      }
    }
  }

  lemma InRuns(data: nat, k: nat, v: nat)
    requires EXTPAGES < data < NPHYS && k < 4
    requires var run := Kmap(data)[k]; run.virt <= v < run.virt + (run.end - run.start)
    ensures v / NPTENTRIES in RunTabs(data, 4)
  {
    assert v / NPTENTRIES in RunTabs(data, k + 1);
    RunTabsGrow(data, k + 1);
  }

  lemma {:induction false} RunTabsGrow(data: nat, k: nat)
    requires EXTPAGES < data < NPHYS && k <= 4
    ensures RunTabs(data, k) <= RunTabs(data, 4)
    decreases 4 - k
  {
    hide Span;
    if k < 4 {
      RunTabsGrow(data, k + 1);
    }
  }

  /** What `n` user pages need beside the kernel's page tables. */
  lemma UserTabs(n: nat)
    requires n <= USERPAGES
    ensures |KernelTabs()| == 64 && PagesFor(KernelTabs(), 0, n) == n + (n + NPTENTRIES - 1) / NPTENTRIES
  {
    hide Interval;
    KernelTabsCard();
    var m := (n + NPTENTRIES - 1) / NPTENTRIES;
    forall i: nat
      ensures i in Span(0, n) - KernelTabs() <==> i < m
    {
      if i < m {
        assert i * NPTENTRIES < n;
        assert i * NPTENTRIES / NPTENTRIES == i;
      }
    }
    assert Span(0, n) - KernelTabs() == Interval(0, m);
  }

  /** From page `lo` on, what the kernel may do: execute and read its text, write all other memory
      and the devices. Nothing else is there. */
  ghost predicate KernelRights(t: Tables, d: nat, data: nat, lo: nat) {
    forall v: nat | lo <= v < VPAGES ::
      var e := Pte(t, d, v);
      if 0x8_0000 <= v < 0x8_0000 + NPHYS then
        && Present(e) && PageOf(e) == v - 0x8_0000
        && Flags(e) == if 0x8_0100 <= v < 0x8_0000 + data then PTE_P else PTE_P + PTE_W
      else if 0xF_E000 <= v then Present(e) && PageOf(e) == v && Flags(e) == PTE_P + PTE_W
      else e == 0
  }

  lemma RightsFrom(t: Tables, d: nat, data: nat, lo: nat)
    requires KernelFrom(t, d, data, lo)
    ensures KernelRights(t, d, data, lo)
  {
    hide Pte, Present;
    forall v: nat | lo <= v < VPAGES
      ensures var e := Pte(t, d, v);
              if 0x8_0000 <= v < 0x8_0000 + NPHYS then
                && Present(e) && PageOf(e) == v - 0x8_0000
                && Flags(e) == if 0x8_0100 <= v < 0x8_0000 + data then PTE_P else PTE_P + PTE_W
              else if 0xF_E000 <= v then Present(e) && PageOf(e) == v && Flags(e) == PTE_P + PTE_W
              else e == 0
    {
    }
  }

  /** The kernel's mappings are not for the user. */
  lemma EntryPrivate(data: nat, v: nat)
    requires v < VPAGES
    ensures !UserEntry(KernelEntry(data, v))
  {
    KernelFlags(KernelEntry(data, v));
  }

  lemma KernelFlags(e: Word)
    requires e % PGSIZE < PTE_U
    ensures !UserEntry(e)
  {
    var q, f: int := e / PGSIZE, e % PGSIZE;
    assert e == 4 * (1024 * q) + f;
    assert e / 4 == 1024 * q == 2 * (512 * q);
  }

  lemma OnlyPrivate(t: Tables, d: nat, data: nat)
    requires KernelOnly(t, d, data)
    ensures KernelPrivate(t, d)
  {
    hide Pte, KernelEntry, UserEntry;
    forall v: nat | USERPAGES <= v < VPAGES
      ensures !UserEntry(Pte(t, d, v))
    {
      EntryPrivate(data, v);
    }
  }

  lemma FromPrivate(t: Tables, d: nat, data: nat, lo: nat)
    requires KernelFrom(t, d, data, lo) && lo <= USERPAGES
    ensures KernelPrivate(t, d)
  {
    hide Pte, KernelEntry, UserEntry;
    forall v: nat | USERPAGES <= v < VPAGES
      ensures !UserEntry(Pte(t, d, v))
    {
      EntryPrivate(data, v);
    }
  }

  lemma OnlyFrom(t: Tables, d: nat, data: nat)
    requires KernelOnly(t, d, data)
    ensures KernelFrom(t, d, data, 0)
  {
    hide Pte, KernelEntry;
  }

  lemma KernelDone(t: Tables, d: nat, data: nat)
    requires KernelUpTo(t, d, data, 4)
    ensures KernelOnly(t, d, data)
  {
    hide Pte, KernelEntry;
  }

  /** Freeing an address space made of free pages restores who owns what. */
  lemma GivenBack(t0: Tables, t1: Tables, t2: Tables, frames0: map<nat, Frame>, frames1: map<nat, Frame>,
                  frames2: map<nat, Frame>,
                  owner0: seq<Owner>, owner1: seq<Owner>, owner2: seq<Owner>, d: nat, hi: nat)
    requires d < |owner0| && owner0[d] == Free && OwnersAdded(owner0[d := Dir], owner1, d, 0, hi) &&
             Returned(owner1, owner2, d)
    requires Owned(t0, frames0, owner0) && Owned(t1, frames1, owner1) && Owned(t2, frames2, owner2)
    requires SameMaps(t0, t1, owner0) && OthersSame(t1, t2, owner1, d)
    requires SameBytes(frames0, frames1) && SameBytes(frames1, frames2)
    ensures owner2 == owner0 && SameMaps(t0, t2, owner0) && frames2 == frames0
  {
    hide Pte, Pde, TablesOwned, UsersOwned;
    NoParts(t0, frames0, owner0, d);
    forall p: nat | p < |owner0|
      ensures owner2[p] == owner0[p]
    {
    }
    forall d2: nat, v: nat | IsDir(owner0, d2) && v < VPAGES
      ensures Pte(t2, d2, v) == Pte(t0, d2, v)
    {
      assert IsDir(owner1, d2) && d2 != d;
    }
    assert forall p: nat | p in frames0 :: p in frames1;
  }

  lemma GrewAdded(owner0: seq<Owner>, owner1: seq<Owner>, d: nat)
    requires d < |owner0| && Grew(owner0[d := Dir], owner1, d)
    ensures OwnersAdded(owner0[d := Dir], owner1, d, 0, 0)
  {
  }

  /** A page that is no directory has no parts. */
  lemma NoParts(t: Tables, frames: map<nat, Frame>, owner: seq<Owner>, d: nat)
    requires Owned(t, frames, owner) && d < |owner| && owner[d] != Dir
    ensures forall p: nat | p < |owner| && owner[p].Tab? :: owner[p].dir != d
    ensures forall p: nat | p < |owner| && owner[p].User? :: owner[p].dir != d
  {
    hide Pte, Pde;
  }

  // ----- copyuvm

  /** Pages below `hi` of `d` have the contents and permissions that those of `pg` had. */
  ghost predicate Copied(t0: Tables, frames0: map<nat, Frame>, t: Tables, frames: map<nat, Frame>, pg: nat, d: nat,
                         hi: nat) {
    forall v: nat | v < hi ::
      var from, to := Pte(t0, pg, v), Pte(t, d, v);
      && Present(from) && Present(to) && Flags(to) == Flags(from)
      && PageOf(from) in frames0 && PageOf(to) in frames && frames[PageOf(to)] == frames0[PageOf(from)]
  }

  /** From page `lo` on, only the kernel's mappings. */
  ghost predicate KernelFrom(t: Tables, d: nat, data: nat, lo: nat) {
    forall v: nat | lo <= v < VPAGES :: Pte(t, d, v) == KernelEntry(data, v)
  }

  lemma NothingCopied(t0: Tables, frames: map<nat, Frame>, t: Tables, owner0: seq<Owner>, owner: seq<Owner>, pg: nat,
                      d: nat, data: nat)
    requires d < |owner0| && Grew(owner0[d := Dir], owner, d) && KernelOnly(t, d, data)
    ensures OwnersAdded(owner0[d := Dir], owner, d, 0, 0) && SameBytes(frames, frames)
    ensures Copied(t0, frames, t, frames, pg, d, 0) && KernelFrom(t, d, data, 0)
  {
    hide Pte, KernelEntry;
  }

  /** The page to be copied is still what it was; the page to be filled is not mapped. */
  lemma CopyReady(t0: Tables, t: Tables, frames0: map<nat, Frame>, frames: map<nat, Frame>, owner0: seq<Owner>,
                  owner: seq<Owner>,
                  pg: nat, d: nat, data: nat, v: nat)
    requires Owned(t0, frames0, owner0) && Owned(t, frames, owner) && v < USERPAGES && d < |owner0| && owner0[d] == Free
    requires OwnersAdded(owner0[d := Dir], owner, d, 0, v) && SameMaps(t0, t, owner0) && KernelFrom(t, d, data, v)
    requires IsDir(owner0, pg) && SameBytes(frames0, frames)
    ensures pg != d && IsDir(owner, pg) && Pte(t, pg, v) == Pte(t0, pg, v) && Pte(t, d, v) == 0
    ensures Present(Pte(t0, pg, v)) ==>
      && Present(Pde(t, pg, v / NPTENTRIES)) && PageOf(Pte(t0, pg, v)) in frames0 && PageOf(Pte(t0, pg, v)) in frames
      && frames[PageOf(Pte(t0, pg, v))] == frames0[PageOf(Pte(t0, pg, v))]
  {
    hide Pte, Pde, TablesOwned, Entry;
    if Present(Pte(t0, pg, v)) {
      PresentTable(t, frames, owner, pg, v);
      var p := PageOf(Pte(t0, pg, v));
      assert owner0[p] == User(pg, v);
    }
  }

  /** The first of the pages `v..n` that is not present. */
  ghost function FirstAbsent(t: Tables, d: nat, v: nat, n: nat): (m: nat)
    requires v <= n
    ensures v <= m <= n && (forall u: nat | v <= u < m :: Present(Pte(t, d, u))) && (m < n ==> !Present(Pte(t, d, m)))
    decreases n - v
  {
    if v == n || !Present(Pte(t, d, v)) then v else FirstAbsent(t, d, v + 1, n)
  }

  lemma AbsentEntry(t: Tables, d: nat, v: nat)
    ensures !Present(Pde(t, d, v / NPTENTRIES)) ==> !Present(Pte(t, d, v))
  {
    hide Pde;
  }

  lemma NewPage(t0: Tables, t: Tables, frames0: map<nat, Frame>, frames: map<nat, Frame>, owner0: seq<Owner>,
                owner: seq<Owner>,
                d: nat, v: nat, p: nat)
    requires Owned(t0, frames0, owner0) && Owned(t, frames, owner) && d < |owner0|
    requires OwnersAdded(owner0[d := Dir], owner, d, 0, v) && p < |owner| && owner[p] == Free
    ensures p != d && p !in frames0 && p !in frames && owner[p := Held][p := Free] == owner
  {
    hide Pte, Pde, TablesOwned, UsersOwned;
  }

  lemma CopyStep(t0: Tables, t1: Tables, t2: Tables, frames0: map<nat, Frame>, frames1: map<nat, Frame>,
                 owner0: seq<Owner>, owner1: seq<Owner>,
                 pg: nat, d: nat, data: nat, v: nat, p: nat)
    requires v < USERPAGES && p < NPHYS && p < |owner1| && owner1[p] == Free && p !in frames1
    requires d < |owner0| && owner0[d] == Free && OwnersAdded(owner0[d := Dir], owner1, d, 0, v) && IsDir(owner1, d)
    requires SameMaps(t0, t1, owner0) && Copied(t0, frames0, t1, frames1, pg, d, v) && KernelFrom(t1, d, data, v)
    requires Present(Pte(t0, pg, v)) && PageOf(Pte(t0, pg, v)) in frames0
    requires MapSet(t1, t2, owner1[p := Held], d, v, Entry(p, Flags(Pte(t0, pg, v))))
    ensures SameMaps(t0, t2, owner0) && KernelFrom(t2, d, data, v + 1)
    ensures Copied(t0, frames0, t2, frames1[p := frames0[PageOf(Pte(t0, pg, v))]], pg, d, v + 1)
  {
    hide Pte, KernelEntry;
    forall d2: nat, u: nat | IsDir(owner0, d2) && u < VPAGES
      ensures Pte(t2, d2, u) == Pte(t0, d2, u)
    {
      assert d2 != d && IsDir(owner1[p := Held], d2);
    }
    var e := Pte(t0, pg, v);
    var frames2 := frames1[p := frames0[PageOf(e)]];
    PresentFlags(e);
    assert IsDir(owner1[p := Held], d);
    forall u: nat | u < v + 1
      ensures var from, to := Pte(t0, pg, u), Pte(t2, d, u);
              && Present(from) && Present(to) && Flags(to) == Flags(from)
              && PageOf(from) in frames0 && PageOf(to) in frames2 && frames2[PageOf(to)] == frames0[PageOf(from)]
    {
      assert Pte(t2, d, u) == if u == v then Entry(p, Flags(e)) else Pte(t1, d, u);
    }
  }

  lemma PresentFlags(e: Word)
    requires Present(e)
    ensures Flags(e) % 2 == 1
  {
    var q, f: int := e / PGSIZE, e % PGSIZE;
    assert e == 2 * (2048 * q) + f;
  }

  // ----- user memory

  /** Present with PTE_U. */
  predicate UserEntry(e: Word) {
    Present(e) && e / PTE_U % 2 == 1
  }

  /** The kernel's half is not accessible to the user. */
  ghost predicate KernelPrivate(t: Tables, d: nat) {
    forall v: nat | USERPAGES <= v < VPAGES :: !UserEntry(Pte(t, d, v))
  }

  function ClearUser(e: Word): (r: Word) {
    if e / PTE_U % 2 == 1 then e - PTE_U else e
  }

  /** Bit 2 is clear, the bits below it and above it are as they were. */
  lemma ClearUserFields(e: Word)
    ensures var r := ClearUser(e);
            r / PTE_U % 2 == 0 && r % PTE_U == e % PTE_U && r / (2 * PTE_U) == e / (2 * PTE_U)
    ensures var r := ClearUser(e);
            !UserEntry(r) && Present(r) == Present(e) && PageOf(r) == PageOf(e)
  {
    var m, l: int := e / 8, e % 8;
    LowBits(m, l);
    LowBits(m, l % 4);
  }

  lemma LowBits(m: int, l: int)
    requires 0 <= m && 0 <= l < 8
    ensures (8 * m + l) / PGSIZE == m / 512 && (8 * m + l) % 4 == l % 4 && (8 * m + l) / 4 % 2 == l / 4
  {
    var q, h := m / 512, m % 512;
    assert 8 * m + l == PGSIZE * q + (8 * h + l);
    assert (8 * m + l) / 4 == 2 * m + l / 4;
  }

  /** Without a page table there is no user page. */
  lemma NotUser(t: Tables, d: nat, v: nat)
    ensures !Present(Pde(t, d, v / NPTENTRIES)) ==> !UserEntry(Pte(t, d, v))
  {
    hide Pde;
  }

  lemma PrivateSet(t: Tables, t': Tables, owner: seq<Owner>, d: nat, v: nat, e: Word)
    requires MapSet(t, t', owner, d, v, e) && IsDir(owner, d) && !UserEntry(e)
    ensures KernelPrivate(t, d) ==> KernelPrivate(t', d)
  {
    hide Pte, UserEntry;
  }

  lemma PrivateAdded(t: Tables, t': Tables, owner: seq<Owner>, d: nat, lo: nat, hi: nat)
    requires Added(t, t', owner, d, lo, hi) && IsDir(owner, d) && hi <= USERPAGES
    ensures KernelPrivate(t, d) ==> KernelPrivate(t', d)
  {
    hide Pte, UserEntry;
  }

  lemma PrivateSame(t: Tables, t': Tables, owner: seq<Owner>, d: nat)
    requires SameMaps(t, t', owner) && IsDir(owner, d)
    ensures KernelPrivate(t, d) ==> KernelPrivate(t', d)
  {
    hide Pte, UserEntry;
  }

  lemma PrivateUnmapped(t: Tables, t': Tables, owner: seq<Owner>, d: nat, lo: nat, hi: nat)
    requires Unmapped(t, t', owner, d, lo, hi) && IsDir(owner, d)
    ensures KernelPrivate(t, d) ==> KernelPrivate(t', d)
  {
    hide Pte;
  }

  lemma PdeTable(t: Tables, d: nat, i: nat)
    requires d in t && i < NPTENTRIES
    ensures t[d][i] == Pde(t, d, i)
  {
  }

  /** The byte at address `a` of the address space `d`. */
  function UserByte(t: Tables, frames: map<nat, Frame>, d: nat, a: nat): (b: Byte) {
    var p := PageOf(Pte(t, d, a / PGSIZE));
    if p in frames then frames[p][a % PGSIZE] else 0
  }

  /** Page `v` has one of the `len` bytes from `va` on. */
  predicate Touches(va: nat, len: nat, v: nat) {
    len > 0 && va / PGSIZE <= v && v * PGSIZE < va + len
  }

  /** `data` has been stored at `va` in the address space `d`, and nothing else has changed. */
  ghost predicate Stored(t: Tables, frames: map<nat, Frame>, frames': map<nat, Frame>, owner: seq<Owner>, d: nat,
                         va: nat, data: seq<Byte>) {
    && frames'.Keys == frames.Keys
    && forall d2: nat, a: nat | IsDir(owner, d2) && a < KERNBASE && Present(Pte(t, d2, a / PGSIZE)) ::
         UserByte(t, frames', d2, a) == if d2 == d && va <= a < va + |data| then data[a - va]
           else UserByte(t, frames, d2, a)
  }

  function Overlaid(f: Frame, off: nat, data: seq<Byte>): (r: Frame)
    requires off + |data| <= PGSIZE
  {
    f[..off] + data + f[off + |data|..]
  }

  lemma NothingStored(t: Tables, frames: map<nat, Frame>, owner: seq<Owner>, d: nat, va: nat)
    ensures Stored(t, frames, frames, owner, d, va, [])
  {
    hide Pte;
  }

  lemma InRange(va: nat, len: nat, i: nat, v: nat)
    requires i < len && v == (va + i) / PGSIZE && va + i < 0x1_0000_0000
    ensures Touches(va, len, v) && v < VPAGES
  {
  }

  lemma NextPage(va: nat, len: nat, i: nat, v: nat, off: nat, n: nat)
    requires i < len && v == (va + i) / PGSIZE && off == (va + i) % PGSIZE
    requires n == if PGSIZE - off > len - i then len - i else PGSIZE - off
    ensures 0 < n <= len - i && (i + n < len ==> v * PGSIZE + PGSIZE == va + i + n)
    ensures forall u: nat | Touches(va, i + n, u) :: u == v || Touches(va, i, u)
  {
  }

  lemma UserFrame(t: Tables, frames: map<nat, Frame>, owner: seq<Owner>, d: nat, v: nat)
    requires Owned(t, frames, owner) && IsDir(owner, d) && v < VPAGES && UserEntry(Pte(t, d, v)) && KernelPrivate(t, d)
    ensures v < USERPAGES && Present(Pte(t, d, v)) && PageOf(Pte(t, d, v)) in frames
  {
    hide Pte, Pde, TablesOwned;
    assert owner[PageOf(Pte(t, d, v))] == User(d, v);
  }

  lemma Store(t: Tables, frames0: map<nat, Frame>, frames: map<nat, Frame>, owner: seq<Owner>, d: nat, va: nat,
              buf: seq<Byte>,
              i: nat, v: nat, off: nat, n: nat)
    requires Owned(t, frames, owner) && IsDir(owner, d) && v < USERPAGES && Present(Pte(t, d, v)) &&
             PageOf(Pte(t, d, v)) in frames
    requires i + n <= |buf| && v == (va + i) / PGSIZE && off == (va + i) % PGSIZE && off + n <= PGSIZE
    requires Stored(t, frames0, frames, owner, d, va, buf[..i])
    ensures var p := PageOf(Pte(t, d, v));
            var frames' := frames[p := Overlaid(frames[p], off, buf[i..i + n])];
            Owned(t, frames', owner) && Stored(t, frames0, frames', owner, d, va, buf[..i + n])
  {
    hide Pte, Pde, TablesOwned;
    var p := PageOf(Pte(t, d, v));
    var frames' := frames[p := Overlaid(frames[p], off, buf[i..i + n])];
    assert owner[p] == User(d, v);
    forall d2: nat, a: nat | IsDir(owner, d2) && a < KERNBASE && Present(Pte(t, d2, a / PGSIZE))
      ensures UserByte(t, frames', d2, a) ==
              if d2 == d && va <= a < va + i + n then buf[..i + n][a - va] else UserByte(t, frames0, d2, a)
    {
      assert UserByte(t, frames, d2, a) == if d2 == d && va <= a < va + i then buf[..i][a - va]
             else UserByte(t, frames0, d2, a);
      assert owner[PageOf(Pte(t, d2, a / PGSIZE))] == User(d2, a / PGSIZE);
      if d2 == d && a / PGSIZE == v {
        assert a % PGSIZE - off == a - (va + i);
      }
    }
  }

  // ----- the free list

  lemma OwnedHeld(t: Tables, frames: map<nat, Frame>, owner: seq<Owner>, p: nat, o: Owner)
    requires Owned(t, frames, owner) && p < |owner| && (owner[p] == Free || owner[p] == Held) &&
             (o == Free || o == Held)
    ensures Owned(t, frames, owner[p := o])
  {
    hide Pte, Pde, TablesOwned, UsersOwned;
    TablesHeld(t, owner, p, o);
    UsersHeld(t, owner, p, o);
  }

  lemma TablesHeld(t: Tables, owner: seq<Owner>, p: nat, o: Owner)
    requires TablesOwned(t, owner) && p < |owner| && (owner[p] == Free || owner[p] == Held) && (o == Free || o == Held)
    ensures TablesOwned(t, owner[p := o])
  {
    hide Pde;
  }

  lemma UsersHeld(t: Tables, owner: seq<Owner>, p: nat, o: Owner)
    requires UsersOwned(t, owner) && p < |owner| && (owner[p] == Free || owner[p] == Held) && (o == Free || o == Held)
    ensures UsersOwned(t, owner[p := o])
  {
    hide Pte;
  }

  lemma ListedPop(free: seq<nat>, owner: seq<Owner>)
    requires Listed(free, owner) && free != []
    ensures free[0] < |owner| && owner[free[0]] == Free && Listed(free[1..], owner[free[0] := Held])
  {
  }

  lemma ListedPush(free: seq<nat>, owner: seq<Owner>, p: nat)
    requires Listed(free, owner) && p < |owner| && owner[p] == Held
    ensures Listed([p] + free, owner[p := Free])
  {
  }

  lemma ListedPlaced(free: seq<nat>, owner: seq<Owner>, p: nat, o: Owner)
    requires Listed(free, owner) && p < |owner| && owner[p] != Free && o != Free
    ensures Listed(free, owner[p := o])
  {
  }

  // ----- small facts about maps

  lemma MapsSelf(t: Tables, owner: seq<Owner>, d: nat)
    ensures SameMaps(t, t, owner) && Grew(owner, owner, d)
  {
    hide Pte;
  }

  lemma DirTable(t: Tables, frames: map<nat, Frame>, owner: seq<Owner>, d: nat)
    requires Owned(t, frames, owner) && IsDir(owner, d)
    ensures d in t
  {
    hide Pte, Pde;
  }

  /** Maps do not depend on anything in `owner` but which pages are directories. */
  lemma SameDirMaps(t: Tables, t': Tables, owner: seq<Owner>, owner': seq<Owner>)
    requires SameMaps(t, t', owner) && forall d: nat | IsDir(owner', d) :: IsDir(owner, d)
    ensures SameMaps(t, t', owner')
  {
    hide Pte;
  }

  lemma NewTablePresent(t: Tables, d: nat, i: nat, p: nat)
    requires d in t && i < NPTENTRIES && p < VPAGES && p != d
    ensures Present(Pde(WithTable(t, d, i, p), d, i))
  {
  }

  lemma NoTable(t: Tables, d: nat, v: nat)
    requires !Present(Pde(t, d, v / NPTENTRIES))
    ensures Pte(t, d, v) == 0
  {
  }

  lemma MapsAt(t: Tables, t': Tables, owner: seq<Owner>, d: nat, v: nat)
    requires SameMaps(t, t', owner) && IsDir(owner, d) && v < VPAGES
    ensures Pte(t', d, v) == Pte(t, d, v)
  {
    hide Pte;
  }

  /** Where there is a page table, the entry is in it. */
  lemma PteTable(t: Tables, frames: map<nat, Frame>, owner: seq<Owner>, d: nat, v: nat)
    requires Owned(t, frames, owner) && IsDir(owner, d) && v < VPAGES
    ensures var e := Pde(t, d, v / NPTENTRIES);
            if Present(e) then PageOf(e) in t && Pte(t, d, v) == t[PageOf(e)][v % NPTENTRIES] else Pte(t, d, v) == 0
  {
    var e := Pde(t, d, v / NPTENTRIES);
    if Present(e) {
      assert owner[PageOf(e)] == Tab(d, v / NPTENTRIES);
    }
  }

  lemma PresentTable(t: Tables, frames: map<nat, Frame>, owner: seq<Owner>, d: nat, v: nat)
    requires Present(Pte(t, d, v))
    ensures Present(Pde(t, d, v / NPTENTRIES))
  {
  }

  lemma MapSetAfter(t0: Tables, t1: Tables, t2: Tables, owner0: seq<Owner>, owner1: seq<Owner>, d: nat, v: nat, e: Word)
    requires SameMaps(t0, t1, owner0) && MapSet(t1, t2, owner1, d, v, e)
    requires forall d2: nat | IsDir(owner0, d2) :: IsDir(owner1, d2)
    ensures MapSet(t0, t2, owner0, d, v, e)
  {
    hide Pte;
    forall d2: nat, v2: nat | IsDir(owner0, d2) && v2 < VPAGES
      ensures Pte(t2, d2, v2) == if d2 == d && v2 == v then e else Pte(t0, d2, v2)
    {
      assert Pte(t1, d2, v2) == Pte(t0, d2, v2);
    }
  }

  // ----- deallocuvm

  /** No entry in the range is present. */
  ghost predicate Vacant(t: Tables, d: nat, lo: nat, hi: nat) {
    forall v: nat | lo <= v < hi && v < VPAGES :: !Present(Pte(t, d, v))
  }

  lemma PagesUpMonotone(a: nat, b: nat)
    ensures a <= b ==> PagesUp(a) <= PagesUp(b)
  {
  }

  lemma BelowKernel(sz: nat)
    requires sz <= KERNBASE
    ensures PagesUp(sz) <= USERPAGES
  {
  }

  lemma BelowHi(v: nat, oldsz: nat)
    requires v * PGSIZE < oldsz <= KERNBASE
    ensures v < PagesUp(oldsz) <= USERPAGES
  {
  }

  lemma NothingUnmapped(t: Tables, frames: map<nat, Frame>, owner: seq<Owner>, d: nat, lo: nat, hi: nat)
    requires Owned(t, frames, owner)
    ensures Unmapped(t, t, owner, d, lo, lo) && FramesFreed(owner, owner, d, lo, lo)
    ensures lo >= hi ==> Unmapped(t, t, owner, d, lo, hi) && FramesFreed(owner, owner, d, lo, hi)
    ensures SameBytes(frames, frames)
  {
    hide Pte, Pde;
  }

  lemma SkipTable(t0: Tables, t: Tables, frames: map<nat, Frame>, owner0: seq<Owner>, owner: seq<Owner>, d: nat,
                  lo: nat, v: nat)
    requires Unmapped(t0, t, owner0, d, lo, v) && FramesFreed(owner0, owner, d, lo, v) && IsDir(owner0, d)
    requires Owned(t, frames, owner) && lo <= v < USERPAGES && !Present(Pde(t, d, v / NPTENTRIES))
    ensures var w := (v / NPTENTRIES + 1) * NPTENTRIES;
            && w <= VPAGES && v < w
            && Vacant(t0, d, v, w) && Unmapped(t0, t, owner0, d, lo, w) && FramesFreed(owner0, owner, d, lo, w)
  {
    hide Pde, Typed, TablesOwned;
    var w := (v / NPTENTRIES + 1) * NPTENTRIES;
    forall u: nat | v <= u < w
      ensures Pte(t, d, u) == 0 && !Present(Pte(t0, d, u))
    {
      assert u / NPTENTRIES == v / NPTENTRIES;
      NoTable(t, d, u);
      assert Pte(t, d, u) == if lo <= u < v && Present(Pte(t0, d, u)) then 0 else Pte(t0, d, u);
    }
    NoFrames(t, owner, d, v, w);
  }

  /** Pages whose entries are clear own no frame. */
  lemma NoFrames(t: Tables, owner: seq<Owner>, d: nat, lo: nat, hi: nat)
    requires UsersOwned(t, owner) && forall u: nat | lo <= u < hi :: Pte(t, d, u) == 0
    ensures forall p: nat | p < |owner| && owner[p].User? && owner[p].dir == d :: !(lo <= owner[p].v < hi)
  {
    hide Pte;
  }

  lemma UnmapStep(t0: Tables, t1: Tables, t2: Tables, frames: map<nat, Frame>, owner0: seq<Owner>, owner1: seq<Owner>,
                  owner2: seq<Owner>,
                  d: nat, lo: nat, v: nat)
    requires Unmapped(t0, t1, owner0, d, lo, v) && FramesFreed(owner0, owner1, d, lo, v) && IsDir(owner0, d) &&
             IsDir(owner1, d)
    requires Owned(t1, frames, owner1) && lo <= v < USERPAGES
    requires if Present(Pte(t1, d, v))
             then MapSet(t1, t2, owner1, d, v, 0) && PageOf(Pte(t1, d, v)) < |owner1| &&
               owner2 == owner1[PageOf(Pte(t1, d, v)) := Free]
             else t2 == t1 && owner2 == owner1
    ensures Unmapped(t0, t2, owner0, d, lo, v + 1) && FramesFreed(owner0, owner2, d, lo, v + 1)
  {
    hide Pte, Pde, Typed, TablesOwned;
    forall d2: nat, u: nat | IsDir(owner0, d2) && u < VPAGES
      ensures Pte(t2, d2, u) == if d2 == d && lo <= u < v + 1 && Present(Pte(t0, d, u)) then 0 else Pte(t0, d2, u)
    {
      assert IsDir(owner1, d2);
      assert Pte(t1, d2, u) == if d2 == d && lo <= u < v && Present(Pte(t0, d, u)) then 0 else Pte(t0, d2, u);
    }
    StepFrames(t1, owner0, owner1, owner2, d, lo, v);
  }

  lemma StepFrames(t1: Tables, owner0: seq<Owner>, owner1: seq<Owner>, owner2: seq<Owner>, d: nat, lo: nat, v: nat)
    requires FramesFreed(owner0, owner1, d, lo, v) && UsersOwned(t1, owner1) && IsDir(owner1, d) && lo <= v < USERPAGES
    requires if Present(Pte(t1, d, v)) then PageOf(Pte(t1, d, v)) < |owner1| &&
             owner2 == owner1[PageOf(Pte(t1, d, v)) := Free]
             else owner2 == owner1
    ensures FramesFreed(owner0, owner2, d, lo, v + 1)
  {
    hide Pte;
    forall p: nat | p < |owner0|
      ensures owner2[p] == if owner0[p].User? && owner0[p].dir == d && lo <= owner0[p].v < v + 1 then Free
              else owner0[p]
    {
      if owner1[p] == User(d, v) {
        assert Present(Pte(t1, d, v)) && PageOf(Pte(t1, d, v)) == p;
      }
    }
  }

  lemma UnmapEnd(t0: Tables, frames: map<nat, Frame>, t: Tables, owner0: seq<Owner>, owner: seq<Owner>, d: nat, lo: nat,
                 v: nat, hi: nat, oldsz: nat)
    requires Unmapped(t0, t, owner0, d, lo, v) && FramesFreed(owner0, owner, d, lo, v) && IsDir(owner0, d)
    requires Owned(t0, frames, owner0) && hi == PagesUp(oldsz) && v * PGSIZE >= oldsz && lo <= v &&
             (v > hi ==> Vacant(t0, d, hi, v))
    requires lo <= hi <= USERPAGES
    ensures Unmapped(t0, t, owner0, d, lo, hi) && FramesFreed(owner0, owner, d, lo, hi)
  {
    hide Pte, Pde, Typed, TablesOwned;
    assert v >= hi;
    forall p: nat | p < |owner0|
      ensures owner[p] == if owner0[p].User? && owner0[p].dir == d && lo <= owner0[p].v < hi then Free else owner0[p]
    {
    }
  }
}
