/** The user-level storage allocator (user/umalloc.c). Memory is addressed in units of one
    header; a unit of payload holds an arbitrary value of the same type. */
module Umalloc {
  import opened Options

  datatype Header = Header(ptr: nat, size: nat)
  type Memory = map<nat, Header>

  const HEADER := 8
  const MINCORE := 4096
  /** sbrk takes a signed number of bytes. */
  const MAXINT := 0x7FFF_FFFF

  /** The units needed for `nbytes` and a header. */
  function Units(nbytes: nat): (n: nat)
    ensures n > 0 && HEADER * (n - 1) >= nbytes > HEADER * (n - 2)
  {
    (nbytes + HEADER - 1) / HEADER + 1
  }

  class Heap {
    const base: nat
    var mem: Memory
    /** 0 until the first malloc. */
    var freep: nat
    /** The free blocks in list order from `base` on, the allocated blocks, and the block that
        each unit obtained from sbrk belongs to. */
    ghost var blocks: seq<nat>
    ghost var live: set<nat>
    ghost var owner: map<nat, nat>

    ghost predicate Valid()
      reads this
    {
      && base > 0 && base in mem
      && if freep == 0 then blocks == [] && live == {} && owner == map[]
         else State(mem, base, blocks, live, owner) && Coalesced(mem, blocks) && OnList(base, blocks, freep)
    }

    constructor (base: nat)
      requires base > 0
      ensures Valid() && this.base == base && live == {} && owner == map[]
    {
      this.base, mem, freep := base, map[base := Header(0, 0)], 0;
      blocks, live, owner := [], {}, map[];
    }

    /** The search loop of free: from `freep` around the list to the node after which `bp`
        belongs, be it between two nodes or after the last. */
    method Search(bp: nat, ghost t: nat) returns (p: nat)
      requires Linked(mem, base, blocks) && Ordered(mem, base, blocks) && OnList(base, blocks, freep)
      requires base < bp && Rank(blocks, bp, t)
      ensures p == At(base, blocks, t)
    {
      hide Linked, Ordered;
      ghost var i: nat := Index(base, blocks, freep);
      p := freep;
      SearchTest(mem, base, blocks, bp, t, i);
      while !(bp > p && bp < mem[p].ptr)
        invariant i <= |blocks| && p == At(base, blocks, i) && p in mem
        invariant mem[p].ptr == At(base, blocks, if i == |blocks| then 0 else i + 1)
        invariant i == t <==> (p < bp < mem[p].ptr || (p >= mem[p].ptr && (bp > p || bp < mem[p].ptr)))
        decreases if i <= t then t - i else |blocks| + 1 - i + t
      {
        if p >= mem[p].ptr && (bp > p || bp < mem[p].ptr) {
          break;
        }
        p := mem[p].ptr;
        i := if i == |blocks| then 0 else i + 1;
        SearchTest(mem, base, blocks, bp, t, i);
      }
    }

    /** free: the block's units are free, the list stays circular, ordered and coalesced, and
        other blocks keep their units and contents. */
    method Free(ap: nat)
      requires Valid() && (ap == 0 || ap - 1 in live)
      modifies this`mem, this`freep, this`blocks, this`live, this`owner
      ensures Valid() && mem.Keys == old(mem.Keys) && owner.Keys == old(owner.Keys)
      ensures ap == 0 ==> unchanged(this)
      ensures ap > 0 ==>
        && freep > 0 && live == old(live) - {ap - 1} && Fits(mem, blocks, Size(old(mem), ap - 1))
        && Kept(old(mem), mem, live, old(owner)) && SameLive(live, old(owner), owner)
    {
      hide State, Relinked, CoalescedBut, SameLive, Kept, Fits, End, Linked, Ordered, Rank, OnList;
      if ap == 0 {
        return;
      }
      var bp := ap - 1;
      ghost var t := Place(mem, base, blocks, live, owner, bp);
      var p := Search(bp, t);
      ghost var blocks', owner' := FreeState(mem, base, blocks, live, owner, bp, t);
      FreeKept(mem, base, blocks, live, owner, bp, t);
      var m, next := mem, mem[p].ptr;
      if bp + m[bp].size == next {
        m := m[bp := Header(m[next].ptr, m[bp].size + m[next].size)];
      } else {
        m := m[bp := Header(next, m[bp].size)];
      }
      if p + m[p].size == bp {
        m := m[p := Header(m[bp].ptr, m[p].size + m[bp].size)];
      } else {
        m := m[p := Header(bp, m[p].size)];
      }
      RelinkedIs(mem, p, bp, m);
      mem := m;
      freep := p;
      blocks, live, owner := blocks', live - {bp}, owner';
    }

    /** morecore: `more` is what sbrk returns, in units. Its units join the free ones. */
    method Morecore(nu: nat, more: Option<nat>) returns (r: nat)
      requires Valid() && freep > 0 && nu > 0 && NewCore(base, owner, more, CoreUnits(nu))
      modifies this`mem, this`freep, this`blocks, this`live, this`owner
      ensures Valid() && freep > 0 && live == old(live) && r == if more.None? then 0 else freep
      ensures more.None? ==> unchanged(this)
      ensures more.Some? ==>
        && owner.Keys == old(owner.Keys) + Range(more.value, CoreUnits(nu)) && Fits(mem, blocks, nu)
        && Kept(old(mem), mem, live, old(owner)) && SameLive(live, old(owner), owner)
    {
      hide State, CoalescedBut, SameLive, Kept, Fits, End;
      var n := if nu < MINCORE then MINCORE else nu;
      if more.None? {
        return 0;
      }
      var hp := more.value;
      ghost var mem0, owner0 := mem, owner;
      CoreState(mem, base, blocks, live, owner, hp, n);
      mem := WithCore(mem, hp, n);
      live, owner := live + {hp}, CoreOwner(owner, hp, n);
      ghost var mem1, owner1 := mem, owner;
      Free(hp + 1);
      CoreKept(mem0, mem1, mem, live, owner0, owner1, owner, hp, n);
      FitsLess(mem, blocks, nu, n);
      r := freep;
    }

    /** Take `nunits` from the node `p` after `prevp`: all of it, or its tail. */
    method Carve(prevp: nat, p: nat, nunits: nat, ghost i: nat) returns (r: nat)
      requires Valid() && freep > 0 && 1 <= i <= |blocks| + 1 && nunits > 0 && Size(mem, p) >= nunits
      requires prevp == At(base, blocks, i - 1) && p == At(base, blocks, i)
      modifies this`mem, this`freep, this`blocks, this`live, this`owner
      ensures Valid() && freep == prevp && r > 0
      ensures r - 1 !in old(live) && live == old(live) + {r - 1} && Size(mem, r - 1) == nunits &&
              owner.Keys == old(owner.Keys)
      ensures r - 1 == p + Size(old(mem), p) - nunits
      ensures Fits(old(mem), old(blocks), nunits)
      ensures Kept(old(mem), mem, old(live), old(owner)) && SameLive(old(live), old(owner), owner)
    {
      hide State, CoalescedBut, SameLive, Kept, Fits, OnList, SplitOwner, End;
      NodeIn(mem, base, blocks, live, owner, i);
      TakeFits(mem, base, blocks, live, owner, i, nunits);
      if mem[p].size == nunits {
        TakeWhole(mem, base, blocks, live, owner, i);
        mem := mem[prevp := Header(mem[p].ptr, mem[prevp].size)];
        blocks, live := Without(blocks, i - 1), live + {p};
        r := p + 1;
      } else {
        SplitPlace(mem, base, blocks, live, owner, p, p + (mem[p].size - nunits), nunits);
        var m := mem[p := Header(mem[p].ptr, mem[p].size - nunits)];
        var q := p + m[p].size;
        m := m[q := Header(m[q].ptr, nunits)];
        TakePart(mem, m, base, blocks, live, owner, p, q, nunits);
        NodeOn(base, blocks, i - 1);
        mem := m;
        live, owner := live + {q}, SplitOwner(owner, p, q);
        r := q + 1;
      }
      freep := prevp;
    }

    /** malloc: a block of exactly the units that `nbytes` needs, carved from free units or
        from what one call of sbrk returns. */
    method Malloc(nbytes: nat, more: Option<nat>) returns (r: nat)
      requires Valid() && HEADER * Units(nbytes) <= MAXINT && NewCore(base, owner, more, CoreUnits(Units(nbytes)))
      modifies this`mem, this`freep, this`blocks, this`live, this`owner
      ensures Valid() && Kept(old(mem), mem, old(live), old(owner)) && SameLive(old(live), old(owner), owner)
      ensures r == 0 <==> !Fits(old(mem), old(blocks), Units(nbytes)) && more.None?
      ensures r == 0 ==> live == old(live)
      ensures r > 0 ==> r - 1 !in old(live) && live == old(live) + {r - 1} && Size(mem, r - 1) == Units(nbytes)
      ensures owner.Keys == old(owner.Keys) +
        if Fits(old(mem), old(blocks), Units(nbytes)) || more.None? then {}
          else Range(more.value, CoreUnits(Units(nbytes)))
    {
      hide State, CoalescedBut, SameLive, Kept, Fits, Scanned, NewCore, OnList, Range, End;
      var nunits := Units(nbytes);
      KeptSelf(mem, base, blocks, live, owner);
      if freep == 0 {
        mem := mem[base := Header(base, 0)];
        freep := base;
        FirstState(old(mem), mem, base, nunits);
      }
      ghost var f: nat, i: nat := StartScan(mem, base, blocks, live, owner, freep, nunits);
      var prevp, p := freep, mem[freep].ptr;
      ghost var grown := false;
      while true
        invariant Valid() && freep > 0 && live == old(live) && Scanned(mem, base, blocks, nunits, f, i)
        invariant 1 <= i <= |blocks| + 1 && 1 <= f <= |blocks| + 1
        invariant freep == At(base, blocks, f) && prevp == At(base, blocks, i - 1) && p == At(base, blocks, i)
        invariant Kept(old(mem), mem, live, old(owner)) && SameLive(live, old(owner), owner)
        invariant !grown ==> owner == old(owner) && (Fits(mem, blocks, nunits) <==> Fits(old(mem), old(blocks), nunits))
        invariant grown ==> Fits(mem, blocks, nunits) && !Fits(old(mem), old(blocks), nunits) && more.Some?
        invariant grown ==> owner.Keys == old(owner.Keys) + Range(more.value, CoreUnits(nunits))
        decreases !grown, if i <= f then f - i else f + |blocks| + 1 - i
      {
        NodeIn(mem, base, blocks, live, owner, i);
        ghost var mem1, live1, owner1 := mem, live, owner;
        if mem[p].size >= nunits {
          r := Carve(prevp, p, nunits, i);
          KeptTwice(old(mem), mem1, mem, live1, old(owner), owner1, owner);
          return;
        }
        if p == freep {
          RoundDone(mem, base, blocks, live, owner, nunits, f, i);
          p := Morecore(nunits, more);
          if p == 0 {
            return 0;
          }
          KeptTwice(old(mem), mem1, mem, live1, old(owner), owner1, owner);
          grown := true;
          f, i := StartScan(mem, base, blocks, live, owner, freep, nunits);
        } else {
          NextNode(mem, base, blocks, live, owner, nunits, f, i);
          i := if i == |blocks| + 1 then 1 else i + 1;
        }
        prevp, p := p, mem[p].ptr;
      }
    }
  }

  // ----- the free list

  /** Node `i` of the circular list, which starts and ends with `base`. */
  function At(base: nat, blocks: seq<nat>, i: nat): (p: nat) {
    if 1 <= i <= |blocks| then blocks[i - 1] else base
  }

  function Size(mem: Memory, h: nat): (n: nat) {
    if h in mem then mem[h].size else 0
  }

  function End(mem: Memory, h: nat): (n: nat) {
    h + Size(mem, h)
  }

  function Ptr(mem: Memory, h: nat): (p: nat) {
    if h in mem then mem[h].ptr else 0
  }

  ghost predicate Linked(mem: Memory, base: nat, blocks: seq<nat>) {
    forall i: nat | i <= |blocks| ::
      At(base, blocks, i) in mem && Ptr(mem, At(base, blocks, i)) == At(base, blocks, i + 1)
  }

  /** Free blocks are in address order above `base`, which has no units of its own. */
  ghost predicate Ordered(mem: Memory, base: nat, blocks: seq<nat>) {
    && Size(mem, base) == 0
    && (forall i | 0 <= i < |blocks| :: base < blocks[i] < End(mem, blocks[i]))
    && (forall i, j | 0 <= i < j < |blocks| :: End(mem, blocks[i]) <= blocks[j])
  }

  /** No free block ends where the next one begins, except perhaps blocks `lo..hi`. */
  ghost predicate CoalescedBut(mem: Memory, blocks: seq<nat>, lo: int, hi: int) {
    forall i | 0 <= i < |blocks| - 1 && !(lo <= i < hi) :: End(mem, blocks[i]) < blocks[i + 1]
  }

  ghost predicate Coalesced(mem: Memory, blocks: seq<nat>) {
    CoalescedBut(mem, blocks, 0, 0)
  }

  // ----- whose units

  ghost predicate IsBlock(blocks: seq<nat>, live: set<nat>, h: nat) {
    h in live || h in blocks
  }

  /** Every unit obtained from sbrk is inside its block. */
  ghost predicate Inside(mem: Memory, blocks: seq<nat>, live: set<nat>, owner: map<nat, nat>) {
    forall u <- owner :: u in mem && IsBlock(blocks, live, owner[u]) && owner[u] <= u < End(mem, owner[u])
  }

  /** A block owns all its units. */
  ghost predicate Whole(mem: Memory, blocks: seq<nat>, live: set<nat>, owner: map<nat, nat>) {
    forall h: nat, u: nat | IsBlock(blocks, live, h) && h <= u < End(mem, h) :: u in owner && owner[u] == h
  }

  /** Every unit obtained from sbrk belongs to exactly one block, free or allocated. */
  ghost predicate Partition(mem: Memory, base: nat, blocks: seq<nat>, live: set<nat>, owner: map<nat, nat>) {
    && (forall h <- live :: base < h < End(mem, h) && h !in blocks)
    && Inside(mem, blocks, live, owner)
    && Whole(mem, blocks, live, owner)
  }

  ghost predicate State(mem: Memory, base: nat, blocks: seq<nat>, live: set<nat>, owner: map<nat, nat>) {
    Linked(mem, base, blocks) && Ordered(mem, base, blocks) && Partition(mem, base, blocks, live, owner)
  }

  /** What the program stored in its blocks is still there. */
  ghost predicate Kept(mem: Memory, mem': Memory, live: set<nat>, owner: map<nat, nat>) {
    forall u <- owner | owner[u] in live :: u in mem && u in mem' && mem'[u] == mem[u]
  }

  /** Allocated blocks keep their units. */
  ghost predicate SameLive(live: set<nat>, owner: map<nat, nat>, owner': map<nat, nat>) {
    forall u <- owner | owner[u] in live :: u in owner' && owner'[u] == owner[u]
  }

  ghost predicate OnList(base: nat, blocks: seq<nat>, p: nat) {
    p == base || p in blocks
  }

  /** Some free block has `n` units or more. */
  ghost predicate Fits(mem: Memory, blocks: seq<nat>, n: nat) {
    exists i :: 0 <= i < |blocks| && Size(mem, blocks[i]) >= n
  }

  // ----- putting a block into the list

  /** `bp` linked in after `p`. */
  function Inserted(mem: Memory, p: nat, bp: nat): (m: Memory)
    requires p in mem && bp in mem && p != bp
  {
    mem[bp := Header(mem[p].ptr, mem[bp].size)][p := Header(bp, mem[p].size)]
  }

  /** `b` joined to `a`, which precedes it in the list and in memory. */
  function Merged(mem: Memory, a: nat, b: nat): (m: Memory)
    requires a in mem && b in mem
  {
    mem[a := Header(mem[b].ptr, mem[a].size + mem[b].size)]
  }

  ghost function Reowned(owner: map<nat, nat>, from: nat, to: nat): (o: map<nat, nat>) {
    map u | u in owner :: if owner[u] == from then to else owner[u]
  }

  ghost function Insert(blocks: seq<nat>, t: nat, bp: nat): (s: seq<nat>)
    requires t <= |blocks|
  {
    blocks[..t] + [bp] + blocks[t..]
  }

  ghost function Without(blocks: seq<nat>, i: nat): (s: seq<nat>)
    requires i < |blocks|
  {
    blocks[..i] + blocks[i + 1..]
  }

  /** `t` is where `bp` belongs in the list. */
  ghost predicate Rank(blocks: seq<nat>, bp: nat, t: nat) {
    && t <= |blocks|
    && (forall i | 0 <= i < t :: blocks[i] < bp)
    && (forall i | t <= i < |blocks| :: bp < blocks[i])
  }

  lemma RankExists(mem: Memory, base: nat, blocks: seq<nat>, bp: nat) returns (t: nat)
    requires Ordered(mem, base, blocks) && bp !in blocks
    ensures Rank(blocks, bp, t)
  {
    t := 0;
    while t < |blocks| && blocks[t] < bp
      invariant t <= |blocks| && forall i | 0 <= i < t :: blocks[i] < bp
    {
      t := t + 1;
    }
  }

  /** The two tests of the search loop together recognise the place, and only that. */
  lemma SearchTest(mem: Memory, base: nat, blocks: seq<nat>, bp: nat, t: nat, i: nat)
    requires Linked(mem, base, blocks) && Ordered(mem, base, blocks) && base < bp && Rank(blocks, bp, t) &&
             i <= |blocks|
    ensures var p := At(base, blocks, i);
            && p in mem && mem[p].ptr == At(base, blocks, if i == |blocks| then 0 else i + 1)
            && (i == t <==> (p < bp < mem[p].ptr || (p >= mem[p].ptr && (bp > p || bp < mem[p].ptr))))
  {
    assert At(base, blocks, i + 1) == At(base, blocks, if i == |blocks| then 0 else i + 1);
  }

  lemma AtInsert(base: nat, blocks: seq<nat>, t: nat, bp: nat, i: nat)
    requires t <= |blocks| && i <= |blocks| + 2
    ensures |Insert(blocks, t, bp)| == |blocks| + 1
    ensures At(base, Insert(blocks, t, bp), i) == if i <= t then At(base, blocks, i) else if i == t + 1 then bp
            else At(base, blocks, i - 1)
  {
  }

  lemma AtWithout(base: nat, blocks: seq<nat>, k: nat, i: nat)
    requires k < |blocks| && i <= |blocks|
    ensures |Without(blocks, k)| == |blocks| - 1
    ensures At(base, Without(blocks, k), i) == if i <= k then At(base, blocks, i) else At(base, blocks, i + 1)
  {
  }

  /** No node occurs twice. */
  lemma AtDistinct(mem: Memory, base: nat, blocks: seq<nat>, i: nat, j: nat)
    requires Ordered(mem, base, blocks) && i <= |blocks| && j <= |blocks|
    ensures At(base, blocks, i) == At(base, blocks, j) ==> i == j
  {
  }

  lemma AtMember(base: nat, blocks: seq<nat>, i: nat, h: nat)
    requires 0 < i <= |blocks| && h !in blocks
    ensures At(base, blocks, i) != h
  {
  }

  lemma InsertState(mem: Memory, base: nat, blocks: seq<nat>, live: set<nat>, owner: map<nat, nat>, bp: nat, t: nat)
    requires State(mem, base, blocks, live, owner) && bp in live && Rank(blocks, bp, t)
    ensures var p := At(base, blocks, t);
            && p in mem && bp in mem && p != bp
            && State(Inserted(mem, p, bp), base, Insert(blocks, t, bp), live - {bp}, owner)
  {
    hide Partition, Linked, Ordered, Insert, Inserted;
    LiveBlock(mem, base, blocks, live, owner, bp);
    InsertLinked(mem, base, blocks, bp, t);
    var p := At(base, blocks, t);
    InsertedFields(mem, p, bp);
    InsertOrdered(mem, Inserted(mem, p, bp), base, blocks, live, owner, bp, t);
    InsertPartition(mem, Inserted(mem, p, bp), base, blocks, live, owner, bp, t);
  }

  lemma LiveBlock(mem: Memory, base: nat, blocks: seq<nat>, live: set<nat>, owner: map<nat, nat>, bp: nat)
    requires Partition(mem, base, blocks, live, owner) && bp in live
    ensures base < bp && bp in mem && bp !in blocks
  {
  }

  lemma InsertedFields(mem: Memory, p: nat, bp: nat)
    requires p in mem && bp in mem && p != bp
    ensures var m := Inserted(mem, p, bp);
            && m.Keys == mem.Keys
            && (forall h: nat :: End(m, h) == End(mem, h))
            && (forall h: nat :: Ptr(m, h) == if h == p then bp else if h == bp then Ptr(mem, p) else Ptr(mem, h))
  {
  }

  lemma InsertLinked(mem: Memory, base: nat, blocks: seq<nat>, bp: nat, t: nat)
    requires Linked(mem, base, blocks) && Ordered(mem, base, blocks) && base < bp && bp in mem && bp !in blocks &&
             t <= |blocks|
    ensures var p := At(base, blocks, t);
            p in mem && p != bp && Linked(Inserted(mem, p, bp), base, Insert(blocks, t, bp))
  {
    hide Ordered, At, Insert, Inserted, Ptr;
    var p := At(base, blocks, t);
    FirstNode(base, blocks);
    if t > 0 {
      AtMember(base, blocks, t, bp);
    }
    var m, bl := Inserted(mem, p, bp), Insert(blocks, t, bp);
    InsertedFields(mem, p, bp);
    AtInsert(base, blocks, t, bp, 0);
    forall i: nat | i <= |bl|
      ensures At(base, bl, i) in m && Ptr(m, At(base, bl, i)) == At(base, bl, i + 1)
    {
      var k := if i <= t then i else i - 1;
      AtInsert(base, blocks, t, bp, i);
      AtInsert(base, blocks, t, bp, i + 1);
      AtDistinct(mem, base, blocks, k, t);
      if k > 0 {
        AtMember(base, blocks, k, bp);
      }
    }
  }

  lemma FirstNode(base: nat, blocks: seq<nat>)
    ensures At(base, blocks, 0) == base
  {
  }

  lemma InsertOrdered(mem: Memory, m: Memory, base: nat, blocks: seq<nat>, live: set<nat>, owner: map<nat, nat>,
                      bp: nat, t: nat)
    requires Ordered(mem, base, blocks) && Partition(mem, base, blocks, live, owner) && bp in live &&
             Rank(blocks, bp, t)
    requires forall h: nat :: End(m, h) == End(mem, h)
    ensures Ordered(m, base, Insert(blocks, t, bp))
  {
    hide End;
    forall i | 0 <= i < |blocks|
      ensures i < t ==> End(mem, blocks[i]) <= bp
      ensures i >= t ==> End(mem, bp) <= blocks[i]
    {
      if i < t {
        Apart(mem, base, blocks, live, owner, blocks[i], bp);
      } else {
        Apart(mem, base, blocks, live, owner, bp, blocks[i]);
      }
    }
    BaseEnd(mem, m, base);
  }

  lemma BaseEnd(mem: Memory, m: Memory, base: nat)
    requires End(m, base) == End(mem, base)
    ensures Size(m, base) == Size(mem, base)
  {
  }

  /** Different blocks do not overlap. */
  lemma Apart(mem: Memory, base: nat, blocks: seq<nat>, live: set<nat>, owner: map<nat, nat>, a: nat, b: nat)
    requires Ordered(mem, base, blocks) && Partition(mem, base, blocks, live, owner)
    requires IsBlock(blocks, live, a) && IsBlock(blocks, live, b) && a < b
    ensures End(mem, a) <= b
  {
    hide End;
    assert b in owner && owner[b] == b;
  }

  lemma InsertPartition(mem: Memory, m: Memory, base: nat, blocks: seq<nat>, live: set<nat>, owner: map<nat, nat>,
                        bp: nat, t: nat)
    requires Partition(mem, base, blocks, live, owner) && bp in live && t <= |blocks|
    requires m.Keys == mem.Keys && forall h: nat :: End(m, h) == End(mem, h)
    ensures Partition(m, base, Insert(blocks, t, bp), live - {bp}, owner)
  {
    hide End, Insert, Inside, Whole;
    InsertMembers(blocks, t, bp);
    var bl := Insert(blocks, t, bp);
    assert forall h: nat :: IsBlock(bl, live - {bp}, h) <==> IsBlock(blocks, live, h);
    SameBlocks(mem, m, blocks, bl, live, live - {bp}, owner);
  }

  /** Whether a block is free or allocated does not matter for whose units are whose. */
  lemma SameBlocks(mem: Memory, m: Memory, blocks: seq<nat>, bl: seq<nat>, live: set<nat>, live': set<nat>,
                   owner: map<nat, nat>)
    requires Inside(mem, blocks, live, owner) && Whole(mem, blocks, live, owner) && m.Keys == mem.Keys
    requires forall h: nat :: IsBlock(bl, live', h) <==> IsBlock(blocks, live, h)
    requires forall h: nat :: End(m, h) == End(mem, h)
    ensures Inside(m, bl, live', owner) && Whole(m, bl, live', owner)
  {
    hide End, IsBlock;
  }

  lemma InsertMembers(blocks: seq<nat>, t: nat, bp: nat)
    requires t <= |blocks|
    ensures forall h: nat :: h in Insert(blocks, t, bp) <==> h == bp || h in blocks
  {
    var bl := Insert(blocks, t, bp);
    forall h: nat
      ensures h in bl <==> h == bp || h in blocks
    {
      if h in blocks {
        var i :| 0 <= i < |blocks| && blocks[i] == h;
        assert bl[if i < t then i else i + 1] == h;
      }
      assert bl[t] == bp;
    }
  }

  // ----- joining neighbours

  lemma MergeState(mem: Memory, base: nat, blocks: seq<nat>, live: set<nat>, owner: map<nat, nat>, i: nat)
    requires State(mem, base, blocks, live, owner) && i + 1 < |blocks| && End(mem, blocks[i]) == blocks[i + 1]
    ensures var a, b := blocks[i], blocks[i + 1];
            && a in mem && b in mem
            && State(Merged(mem, a, b), base, Without(blocks, i + 1), live, Reowned(owner, b, a))
  {
    hide Partition, Without, Merged, End;
    assert At(base, blocks, i + 1) in mem && At(base, blocks, i + 2) in mem;
    var a, b := blocks[i], blocks[i + 1];
    MergedFields(mem, a, b);
    MergeLinked(mem, base, blocks, i);
    MergeOrdered(mem, Merged(mem, a, b), base, blocks, i);
    MergePartition(mem, Merged(mem, a, b), base, blocks, live, owner, i);
  }

  lemma MergedFields(mem: Memory, a: nat, b: nat)
    requires a in mem && b in mem && End(mem, a) == b
    ensures var m := Merged(mem, a, b);
            && m.Keys == mem.Keys
            && (forall h: nat :: End(m, h) == if h == a then End(mem, b) else End(mem, h))
            && (forall h: nat :: Ptr(m, h) == if h == a then Ptr(mem, b) else Ptr(mem, h))
  {
  }

  lemma MergeLinked(mem: Memory, base: nat, blocks: seq<nat>, i: nat)
    requires Linked(mem, base, blocks) && Ordered(mem, base, blocks) && i + 1 < |blocks| &&
             End(mem, blocks[i]) == blocks[i + 1]
    requires blocks[i] in mem && blocks[i + 1] in mem
    ensures Linked(Merged(mem, blocks[i], blocks[i + 1]), base, Without(blocks, i + 1))
  {
    hide Ordered, Without, Merged, Ptr, End;
    var m, bl := Merged(mem, blocks[i], blocks[i + 1]), Without(blocks, i + 1);
    MergedFields(mem, blocks[i], blocks[i + 1]);
    AtWithout(base, blocks, i + 1, 0);
    assert At(base, blocks, i + 1) == blocks[i] && At(base, blocks, i + 2) == blocks[i + 1];
    forall k: nat | k <= |bl|
      ensures At(base, bl, k) in m && Ptr(m, At(base, bl, k)) == At(base, bl, k + 1)
    {
      AtWithout(base, blocks, i + 1, k);
      AtWithout(base, blocks, i + 1, k + 1);
      AtDistinct(mem, base, blocks, if k <= i + 1 then k else k + 1, i + 1);
    }
  }

  lemma MergeOrdered(mem: Memory, m: Memory, base: nat, blocks: seq<nat>, i: nat)
    requires Ordered(mem, base, blocks) && i + 1 < |blocks|
    requires forall h: nat :: End(m, h) == if h == blocks[i] then End(mem, blocks[i + 1]) else End(mem, h)
    ensures Ordered(m, base, Without(blocks, i + 1))
  {
    hide End;
    BaseEnd(mem, m, base);
    var bl := Without(blocks, i + 1);
    assert forall k | 0 <= k < |bl| :: bl[k] == blocks[if k <= i then k else k + 1];
  }

  lemma MergePartition(mem: Memory, m: Memory, base: nat, blocks: seq<nat>, live: set<nat>, owner: map<nat, nat>,
                       i: nat)
    requires Ordered(mem, base, blocks) && Partition(mem, base, blocks, live, owner) && i + 1 < |blocks|
    requires End(mem, blocks[i]) == blocks[i + 1] && m.Keys == mem.Keys
    requires forall h: nat :: End(m, h) == if h == blocks[i] then End(mem, blocks[i + 1]) else End(mem, h)
    ensures Partition(m, base, Without(blocks, i + 1), live, Reowned(owner, blocks[i + 1], blocks[i]))
  {
    hide End, Without;
    var a, b := blocks[i], blocks[i + 1];
    var bl := Without(blocks, i + 1);
    WithoutMembers(mem, base, blocks, i + 1);
    assert forall h: nat :: IsBlock(bl, live, h) <==> IsBlock(blocks, live, h) && h != b;
    assert IsBlock(blocks, live, a) && IsBlock(blocks, live, b) && a < b;
    MergeUnits(mem, m, base, blocks, bl, live, owner, a, b);
  }

  lemma MergeUnits(mem: Memory, m: Memory, base: nat, blocks: seq<nat>, bl: seq<nat>, live: set<nat>, owner: map<nat,
                   nat>, a: nat, b: nat)
    requires Partition(mem, base, blocks, live, owner) && a < b == End(mem, a) < End(mem, b) && m.Keys == mem.Keys
    requires IsBlock(blocks, live, a) && IsBlock(blocks, live, b) && a !in live && b !in live
    requires forall h: nat :: IsBlock(bl, live, h) <==> IsBlock(blocks, live, h) && h != b
    requires forall h <- live :: h !in bl
    requires forall h: nat :: End(m, h) == if h == a then End(mem, b) else End(mem, h)
    ensures Partition(m, base, bl, live, Reowned(owner, b, a))
  {
    hide End, IsBlock, Inside, Whole;
    MergeInside(mem, m, blocks, bl, live, owner, a, b);
    MergeWhole(mem, m, blocks, bl, live, owner, a, b);
  }

  lemma MergeInside(mem: Memory, m: Memory, blocks: seq<nat>, bl: seq<nat>, live: set<nat>, owner: map<nat, nat>,
                    a: nat, b: nat)
    requires Inside(mem, blocks, live, owner) && a < b == End(mem, a) < End(mem, b) && m.Keys == mem.Keys &&
             IsBlock(blocks, live, a)
    requires forall h: nat :: IsBlock(bl, live, h) <==> IsBlock(blocks, live, h) && h != b
    requires forall h: nat :: End(m, h) == if h == a then End(mem, b) else End(mem, h)
    ensures Inside(m, bl, live, Reowned(owner, b, a))
  {
    hide End, IsBlock;
  }

  lemma MergeWhole(mem: Memory, m: Memory, blocks: seq<nat>, bl: seq<nat>, live: set<nat>, owner: map<nat, nat>, a: nat,
                   b: nat)
    requires Whole(mem, blocks, live, owner) && a < b == End(mem, a) < End(mem, b) && IsBlock(blocks, live, b)
    requires forall h: nat :: IsBlock(bl, live, h) <==> IsBlock(blocks, live, h) && h != b
    requires forall h: nat :: End(m, h) == if h == a then End(mem, b) else End(mem, h)
    ensures Whole(m, bl, live, Reowned(owner, b, a))
  {
    hide End, IsBlock;
    var o := Reowned(owner, b, a);
    forall h: nat, u: nat | IsBlock(bl, live, h) && h <= u < End(m, h)
      ensures u in o && o[u] == h
    {
      assert IsBlock(blocks, live, if h == a && u >= b then b else h);
    }
  }

  lemma WithoutMembers(mem: Memory, base: nat, blocks: seq<nat>, i: nat)
    requires Ordered(mem, base, blocks) && i < |blocks|
    ensures forall h: nat :: h in Without(blocks, i) <==> h in blocks && h != blocks[i]
  {
    hide End;
    var bl := Without(blocks, i);
    forall h: nat
      ensures h in bl <==> h in blocks && h != blocks[i]
    {
      if h in blocks && h != blocks[i] {
        var k :| 0 <= k < |blocks| && blocks[k] == h;
        assert bl[if k < i then k else k - 1] == h;
      }
    }
  }

  // ----- free

  /** The header stores at the end of free: join with the next block or link to it, then join
      with the previous block or be linked from it. */
  function Relinked(mem: Memory, p: nat, bp: nat): (m: Memory)
    requires p in mem && bp in mem && Ptr(mem, p) in mem && p != bp
  {
    var next := mem[p].ptr;
    var m := if bp + mem[bp].size == next then mem[bp := Header(mem[next].ptr, mem[bp].size + mem[next].size)]
             else mem[bp := Header(next, mem[bp].size)];
    if p + m[p].size == bp then m[p := Header(m[bp].ptr, m[p].size + m[bp].size)] else m[p := Header(bp, m[p].size)]
  }

  /** Those stores are an insertion followed by the joins that apply. */
  lemma RelinkedStages(mem: Memory, p: nat, bp: nat)
    requires p in mem && bp in mem && Ptr(mem, p) in mem && p != bp
    requires Ptr(mem, p) != bp && (Ptr(mem, p) == p ==> End(mem, bp) != p)
    ensures var next := Ptr(mem, p);
            var m1 := Inserted(mem, p, bp);
            var m2 := if End(mem, bp) == next then Merged(m1, bp, next) else m1;
            Relinked(mem, p, bp) == if End(mem, p) == bp then Merged(m2, p, bp) else m2
  {
  }

  lemma InsertCoalesced(mem: Memory, m: Memory, blocks: seq<nat>, bp: nat, t: nat)
    requires Coalesced(mem, blocks) && t <= |blocks| && forall h: nat :: End(m, h) == End(mem, h)
    ensures CoalescedBut(m, Insert(blocks, t, bp), t - 1, t + 1)
  {
    hide End;
    var bl := Insert(blocks, t, bp);
    assert forall k | 0 <= k < |bl| :: bl[k] == if k < t then blocks[k] else if k == t then bp else blocks[k - 1];
  }

  lemma MergeCoalesced(mem: Memory, m: Memory, base: nat, blocks: seq<nat>, i: nat, lo: int)
    requires Ordered(mem, base, blocks) && CoalescedBut(mem, blocks, lo, i + 1) && lo <= i && i + 1 < |blocks|
    requires forall h: nat :: End(m, h) == if h == blocks[i] then End(mem, blocks[i + 1]) else End(mem, h)
    ensures CoalescedBut(m, Without(blocks, i + 1), lo, i)
  {
    hide End;
    var bl := Without(blocks, i + 1);
    assert forall k | 0 <= k < |bl| :: bl[k] == blocks[if k <= i then k else k + 1];
  }

  ghost predicate Joins(mem: Memory, blocks: seq<nat>, i: int) {
    0 <= i < |blocks| - 1 && End(mem, blocks[i]) == blocks[i + 1]
  }

  /** Block `i` is joined with the next one if they touch; then only earlier ones can touch. */
  lemma JoinAt(mem: Memory, base: nat, blocks: seq<nat>, live: set<nat>, owner0: map<nat, nat>, owner: map<nat, nat>,
               i: int, lo: int)
    returns (mem': Memory, blocks': seq<nat>, owner': map<nat, nat>)
    requires State(mem, base, blocks, live, owner) && SameLive(live, owner0, owner) && owner.Keys == owner0.Keys
    requires CoalescedBut(mem, blocks, lo, i + 1) && lo <= i
    ensures State(mem', base, blocks', live, owner') && SameLive(live, owner0, owner') && owner'.Keys == owner0.Keys
    ensures CoalescedBut(mem', blocks', lo, i)
    ensures if Joins(mem, blocks, i)
            then blocks[i] in mem && blocks[i + 1] in mem && mem' == Merged(mem, blocks[i], blocks[i + 1]) &&
              blocks' == Without(blocks, i + 1)
            else mem' == mem && blocks' == blocks
  {
    hide Partition, Linked, Merged, End, Without;
    mem', blocks', owner' := mem, blocks, owner;
    if Joins(mem, blocks, i) {
      var a, b := blocks[i], blocks[i + 1];
      MergeState(mem, base, blocks, live, owner, i);
      mem', blocks', owner' := Merged(mem, a, b), Without(blocks, i + 1), Reowned(owner, b, a);
      MergedFields(mem, a, b);
      MergeCoalesced(mem, mem', base, blocks, i, lo);
      FreeNotLive(mem, base, blocks, live, owner, b);
    }
  }

  lemma FreeNotLive(mem: Memory, base: nat, blocks: seq<nat>, live: set<nat>, owner: map<nat, nat>, b: nat)
    requires Partition(mem, base, blocks, live, owner) && b in blocks
    ensures b !in live
  {
  }

  /** The place that the search finds, and what the joins depend on. */
  lemma FreePlace(mem: Memory, base: nat, blocks: seq<nat>, live: set<nat>, owner: map<nat, nat>, bp: nat, t: nat)
    requires State(mem, base, blocks, live, owner) && bp in live && Rank(blocks, bp, t)
    ensures var p, next := At(base, blocks, t), At(base, blocks, t + 1);
            && p in mem && bp in mem && next in mem && Ptr(mem, p) == next && p != bp && next != bp &&
              (next == p ==> End(mem, bp) != p)
            && (End(mem, bp) == next <==> t < |blocks| && End(mem, bp) == blocks[t])
            && (End(mem, p) == bp <==> t > 0 && End(mem, blocks[t - 1]) == bp)
  {
    assert At(base, blocks, 0) in mem;
    assert t < |blocks| ==> At(base, blocks, t + 1) in mem;
  }

  lemma InsertShape(blocks: seq<nat>, bp: nat, t: nat)
    requires t <= |blocks|
    ensures var bl := Insert(blocks, t, bp);
            && |bl| == |blocks| + 1 && bl[t] == bp
            && (t > 0 ==> bl[t - 1] == blocks[t - 1]) && (t < |blocks| ==> bl[t + 1] == blocks[t])
  {
  }

  /** What free does to the list, the blocks and their units. */
  lemma FreeState(mem: Memory, base: nat, blocks: seq<nat>, live: set<nat>, owner: map<nat, nat>, bp: nat, t: nat)
    returns (blocks': seq<nat>, owner': map<nat, nat>)
    requires State(mem, base, blocks, live, owner) && Coalesced(mem, blocks) && bp in live && Rank(blocks, bp, t)
    ensures var p := At(base, blocks, t);
            && p in mem && bp in mem && Ptr(mem, p) in mem && p != bp
            && State(Relinked(mem, p, bp), base, blocks', live - {bp}, owner')
            && Coalesced(Relinked(mem, p, bp), blocks') && OnList(base, blocks', p)
            && Fits(Relinked(mem, p, bp), blocks', Size(mem, bp))
    ensures owner'.Keys == owner.Keys && SameLive(live - {bp}, owner, owner')
  {
    hide State, Insert, Inserted, Merged, Relinked, CoalescedBut, Without, End, SameLive;
    var p, next := At(base, blocks, t), At(base, blocks, t + 1);
    FreePlace(mem, base, blocks, live, owner, bp, t);
    RelinkedStages(mem, p, bp);
    InsertState(mem, base, blocks, live, owner, bp, t);
    InsertedFields(mem, p, bp);
    var m1, bl1 := Inserted(mem, p, bp), Insert(blocks, t, bp);
    InsertCoalesced(mem, m1, blocks, bp, t);
    InsertShape(blocks, bp, t);
    LiveSelf(live - {bp}, owner);
    var m2, bl2, o2 := JoinAt(m1, base, bl1, live - {bp}, owner, owner, t, t - 1);
    JoinedSame(m1, m2, bl1, bl2, t, bp, p);
    var m3, bl3, o3 := JoinAt(m2, base, bl2, live - {bp}, owner, o2, t - 1, t - 1);
    assert m3 == Relinked(mem, p, bp);
    JoinedFits(mem, m1, m2, m3, base, bl2, bl3, t, bp, p);
    AllJoined(m3, bl3, t - 1);
    blocks', owner' := bl3, o3;
  }

  lemma AllJoined(mem: Memory, blocks: seq<nat>, i: int)
    requires CoalescedBut(mem, blocks, i, i)
    ensures Coalesced(mem, blocks)
  {
  }

  /** Stores into free blocks, the block being freed or `base` do not reach allocated blocks. */
  lemma StoresKept(mem: Memory, m: Memory, base: nat, blocks: seq<nat>, live: set<nat>, live': set<nat>, owner: map<nat,
                   nat>, a: nat, b: nat)
    requires Partition(mem, base, blocks, live, owner) && Ordered(mem, base, blocks) && m.Keys == mem.Keys &&
             live' <= live
    requires a == base || (a in owner && owner[a] !in live')
    requires b == base || (b in owner && owner[b] !in live')
    requires forall u <- mem | u != a && u != b :: m[u] == mem[u]
    ensures Kept(mem, m, live', owner)
  {
    hide End, Whole;
  }

  lemma LiveSelf(live: set<nat>, owner: map<nat, nat>)
    ensures SameLive(live, owner, owner)
  {
  }

  lemma JoinedSame(m1: Memory, m2: Memory, bl1: seq<nat>, bl2: seq<nat>, t: nat, bp: nat, p: nat)
    requires t < |bl1| && bl1[t] == bp && (t > 0 ==> bl1[t - 1] == p) && p != bp
    requires if Joins(m1, bl1, t) then bp in m1 && bl1[t + 1] in m1 && m2 == Merged(m1, bp, bl1[t + 1]) &&
             bl2 == Without(bl1, t + 1)
             else m2 == m1 && bl2 == bl1
    ensures t < |bl2| && bl2[t] == bp && (t > 0 ==> bl2[t - 1] == p)
    ensures End(m2, p) == End(m1, p) && Size(m2, bp) >= Size(m1, bp)
  {
  }

  lemma JoinedFits(mem: Memory, m1: Memory, m2: Memory, m3: Memory, base: nat, bl2: seq<nat>, bl3: seq<nat>, t: nat,
                   bp: nat, p: nat)
    requires t < |bl2| && bl2[t] == bp && (if t > 0 then bl2[t - 1] == p else p == base) && p != bp
    requires End(m1, bp) == End(mem, bp) && Size(m2, bp) >= Size(m1, bp)
    requires if Joins(m2, bl2, t - 1) then p in m2 && bp in m2 && m3 == Merged(m2, p, bp) &&
             bl3 == Without(bl2, t) else m3 == m2 && bl3 == bl2
    ensures OnList(base, bl3, p) && Fits(m3, bl3, Size(mem, bp))
  {
    if Joins(m2, bl2, t - 1) {
      assert bl3[t - 1] == p && Size(m3, bl3[t - 1]) >= Size(mem, bp);
    } else {
      assert Size(m3, bl3[t]) >= Size(mem, bp);
      assert t > 0 ==> bl3[t - 1] == p;
    }
  }

  lemma Place(mem: Memory, base: nat, blocks: seq<nat>, live: set<nat>, owner: map<nat, nat>, bp: nat) returns (t: nat)
    requires State(mem, base, blocks, live, owner) && bp in live
    ensures Rank(blocks, bp, t) && bp in mem && base < bp
    ensures Linked(mem, base, blocks) && Ordered(mem, base, blocks)
  {
    t := RankExists(mem, base, blocks, bp);
  }

  lemma Index(base: nat, blocks: seq<nat>, p: nat) returns (i: nat)
    requires OnList(base, blocks, p)
    ensures i <= |blocks| && At(base, blocks, i) == p
  {
    i := 0;
    if p in blocks {
      var k :| 0 <= k < |blocks| && blocks[k] == p;
      i := k + 1;
    }
  }

  lemma RelinkedIs(mem: Memory, p: nat, bp: nat, m: Memory)
    requires p in mem && bp in mem && Ptr(mem, p) in mem && p != bp
    requires var next := mem[p].ptr;
             var m1 := if bp + mem[bp].size == next then mem[bp := Header(mem[next].ptr, mem[bp].size + mem[next].size)]
                       else mem[bp := Header(next, mem[bp].size)];
             m == if p + m1[p].size == bp then m1[p := Header(m1[bp].ptr, m1[p].size + m1[bp].size)]
               else m1[p := Header(bp, m1[p].size)]
    ensures m == Relinked(mem, p, bp) && m.Keys == mem.Keys
  {
  }

  lemma FreeKept(mem: Memory, base: nat, blocks: seq<nat>, live: set<nat>, owner: map<nat, nat>, bp: nat, t: nat)
    requires State(mem, base, blocks, live, owner) && bp in live && Rank(blocks, bp, t)
    ensures var p := At(base, blocks, t);
            p in mem && bp in mem && Ptr(mem, p) in mem && p != bp &&
              Kept(mem, Relinked(mem, p, bp), live - {bp}, owner)
  {
    hide Partition, Linked, Ordered, Relinked, End, Kept;
    FreePlace(mem, base, blocks, live, owner, bp, t);
    var p := At(base, blocks, t);
    OwnFirst(mem, base, blocks, live, owner, bp);
    if t > 0 {
      OwnFirst(mem, base, blocks, live, owner, p);
    }
    RelinkedStores(mem, p, bp);
    StoresKept(mem, Relinked(mem, p, bp), base, blocks, live, live - {bp}, owner, p, bp);
  }

  lemma RelinkedStores(mem: Memory, p: nat, bp: nat)
    requires p in mem && bp in mem && Ptr(mem, p) in mem && p != bp
    ensures Relinked(mem, p, bp).Keys == mem.Keys &&
            forall u <- mem | u != p && u != bp :: Relinked(mem, p, bp)[u] == mem[u]
  {
  }

  /** The first unit of a block is its own. */
  lemma OwnFirst(mem: Memory, base: nat, blocks: seq<nat>, live: set<nat>, owner: map<nat, nat>, h: nat)
    requires State(mem, base, blocks, live, owner) && IsBlock(blocks, live, h)
    ensures h in owner && owner[h] == h && (h in blocks ==> h !in live)
  {
    assert h < End(mem, h);
  }

  // ----- morecore

  function CoreUnits(nu: nat): (n: nat)
    ensures n >= 4096 && n >= nu && (n == 4096 || n == nu)
  {
    if nu < MINCORE then MINCORE else nu
  }

  predicate Between(a: nat, n: nat, u: nat) {
    a <= u < a + n
  }

  function Range(a: nat, n: nat): (s: set<nat>)
    ensures forall u: nat :: u in s <==> Between(a, n, u)
  {
    set u: nat | a <= u < a + n && Between(a, n, u)
  }

  /** What sbrk promises: the units it returns are new, and above the program's own data. */
  ghost predicate NewCore(base: nat, owner: map<nat, nat>, more: Option<nat>, n: nat) {
    more.Some? ==> base < more.value && forall u: nat | Between(more.value, n, u) :: u !in owner
  }

  /** New units are zero; morecore stores the size. */
  function WithCore(mem: Memory, hp: nat, n: nat): (m: Memory) {
    (mem + map u | u in Range(hp, n) :: Header(0, 0))[hp := Header(0, n)]
  }

  ghost function CoreOwner(owner: map<nat, nat>, hp: nat, n: nat): (o: map<nat, nat>) {
    owner + map u | u in Range(hp, n) :: hp
  }

  lemma CoreFields(mem: Memory, owner: map<nat, nat>, hp: nat, n: nat)
    requires n > 0
    ensures var m, o := WithCore(mem, hp, n), CoreOwner(owner, hp, n);
            && m.Keys == mem.Keys + Range(hp, n) && o.Keys == owner.Keys + Range(hp, n) && End(m, hp) == hp + n
            && (forall h: nat | !Between(hp, n, h) :: End(m, h) == End(mem, h) && Ptr(m, h) == Ptr(mem, h))
            && (forall u <- o :: o[u] == if Between(hp, n, u) then hp else owner[u])
  {
  }

  lemma CoreState(mem: Memory, base: nat, blocks: seq<nat>, live: set<nat>, owner: map<nat, nat>, hp: nat, n: nat)
    requires State(mem, base, blocks, live, owner) && Coalesced(mem, blocks) && n > 0 && base in mem
    requires base < hp && forall u: nat | Between(hp, n, u) :: u !in owner
    ensures var m := WithCore(mem, hp, n);
            State(m, base, blocks, live + {hp}, CoreOwner(owner, hp, n)) && Coalesced(m, blocks) && Size(m, hp) == n
    ensures hp !in live && base in WithCore(mem, hp, n) && forall u <- owner :: u in mem
  {
    hide Linked, Ordered, CoalescedBut, Inside, Whole, WithCore, CoreOwner;
    var m, o := WithCore(mem, hp, n), CoreOwner(owner, hp, n);
    CoreFields(mem, owner, hp, n);
    forall h: nat | IsBlock(blocks, live, h)
      ensures !Between(hp, n, h)
    {
      OwnFirst(mem, base, blocks, live, owner, h);
    }
    CoreLinked(mem, m, base, blocks);
    CoreOrdered(mem, m, base, blocks);
    forall h <- live + {hp}
      ensures base < h < End(m, h) && h !in blocks
    {
      assert h != hp ==> IsBlock(blocks, live, h);
      assert hp in blocks ==> IsBlock(blocks, live, hp);
    }
    CoreInside(mem, m, blocks, live, owner, o, hp, n);
    CoreWhole(mem, m, blocks, live, owner, o, hp, n);
  }

  lemma CoreLinked(mem: Memory, m: Memory, base: nat, blocks: seq<nat>)
    requires Linked(mem, base, blocks) && mem.Keys <= m.Keys && Ptr(m, base) == Ptr(mem, base)
    requires forall i | 0 <= i < |blocks| :: Ptr(m, blocks[i]) == Ptr(mem, blocks[i])
    ensures Linked(m, base, blocks)
  {
    hide Ptr;
  }

  lemma CoreOrdered(mem: Memory, m: Memory, base: nat, blocks: seq<nat>)
    requires Ordered(mem, base, blocks) && Coalesced(mem, blocks) && End(m, base) == End(mem, base)
    requires forall i | 0 <= i < |blocks| :: End(m, blocks[i]) == End(mem, blocks[i])
    ensures Ordered(m, base, blocks) && Coalesced(m, blocks)
  {
    hide End;
    BaseEnd(mem, m, base);
  }

  lemma CoreInside(mem: Memory, m: Memory, blocks: seq<nat>, live: set<nat>, owner: map<nat, nat>, o: map<nat, nat>,
                   hp: nat, n: nat)
    requires Inside(mem, blocks, live, owner) && End(m, hp) == hp + n &&
             forall u: nat | Between(hp, n, u) :: u !in owner
    requires m.Keys == mem.Keys + Range(hp, n) && o.Keys == owner.Keys + Range(hp, n)
    requires forall u <- o :: o[u] == if Between(hp, n, u) then hp else owner[u]
    requires forall h: nat | IsBlock(blocks, live, h) :: End(m, h) == End(mem, h)
    ensures Inside(m, blocks, live + {hp}, o)
    ensures forall u <- owner :: u in mem
  {
    hide End;
    forall u <- o
      ensures u in m && IsBlock(blocks, live + {hp}, o[u]) && o[u] <= u < End(m, o[u])
    {
      if !Between(hp, n, u) {
        assert IsBlock(blocks, live, owner[u]);
      }
    }
  }

  lemma CoreWhole(mem: Memory, m: Memory, blocks: seq<nat>, live: set<nat>, owner: map<nat, nat>, o: map<nat, nat>,
                  hp: nat, n: nat)
    requires Whole(mem, blocks, live, owner) && End(m, hp) == hp + n && o.Keys == owner.Keys + Range(hp, n)
    requires forall u: nat | Between(hp, n, u) :: u !in owner
    requires forall u <- o :: o[u] == if Between(hp, n, u) then hp else owner[u]
    requires forall h: nat | IsBlock(blocks, live, h) :: End(m, h) == End(mem, h)
    ensures Whole(m, blocks, live + {hp}, o)
  {
    hide End;
    forall h: nat, u: nat | IsBlock(blocks, live + {hp}, h) && h <= u < End(m, h)
      ensures u in o && o[u] == h
    {
      if h != hp {
        assert IsBlock(blocks, live, h);
      } else {
        assert Between(hp, n, u);
      }
    }
  }

  lemma FitsLess(mem: Memory, blocks: seq<nat>, nu: nat, n: nat)
    requires Fits(mem, blocks, n) && nu <= n
    ensures Fits(mem, blocks, nu)
  {
  }

  lemma CoreKept(mem0: Memory, mem1: Memory, mem2: Memory, live: set<nat>, owner0: map<nat, nat>, owner1: map<nat, nat>,
                 owner2: map<nat, nat>, hp: nat, n: nat)
    requires mem1 == WithCore(mem0, hp, n) && owner1 == CoreOwner(owner0, hp, n) && n > 0
    requires forall u: nat | Between(hp, n, u) :: u !in owner0
    requires forall u <- owner0 :: u in mem0
    requires Kept(mem1, mem2, live, owner1) && SameLive(live, owner1, owner2) && owner2.Keys == owner1.Keys
    ensures Kept(mem0, mem2, live, owner0) && SameLive(live, owner0, owner2) &&
            owner2.Keys == owner0.Keys + Range(hp, n)
  {
  }

  // ----- malloc

  /** Nodes after `f` and before `i`, going round, are too small; node |blocks| + 1 is `base`. */
  ghost predicate Scanned(mem: Memory, base: nat, blocks: seq<nat>, n: nat, f: nat, i: nat) {
    && 1 <= f <= |blocks| + 1 && 1 <= i <= |blocks| + 1
    && forall k: nat | 1 <= k <= |blocks| + 1 && (if f < i then f < k < i else f < k || k < i) ::
      Size(mem, At(base, blocks, k)) < n
  }

  lemma KeptSelf(mem: Memory, base: nat, blocks: seq<nat>, live: set<nat>, owner: map<nat, nat>)
    requires owner == map[] || State(mem, base, blocks, live, owner)
    ensures Kept(mem, mem, live, owner) && SameLive(live, owner, owner)
  {
    hide Linked, Ordered, Whole, End;
  }

  lemma FirstState(mem0: Memory, mem: Memory, base: nat, n: nat)
    requires base in mem && mem[base] == Header(base, 0)
    ensures State(mem, base, [], {}, map[]) && Coalesced(mem, []) && OnList(base, [], base)
    ensures Kept(mem0, mem, {}, map[]) && !Fits(mem0, [], n) && !Fits(mem, [], n)
  {
  }

  lemma StartScan(mem: Memory, base: nat, blocks: seq<nat>, live: set<nat>, owner: map<nat, nat>, freep: nat, n: nat)
    returns (f: nat, i: nat)
    requires State(mem, base, blocks, live, owner) && OnList(base, blocks, freep)
    ensures 1 <= i <= |blocks| + 1 && 1 <= f <= |blocks| + 1 && Scanned(mem, base, blocks, n, f, i)
    ensures freep in mem && mem[freep].ptr == At(base, blocks, i) &&
            freep == At(base, blocks, f) == At(base, blocks, i - 1)
  {
    hide Ordered, Partition;
    var k := Index(base, blocks, freep);
    f := if k == 0 then |blocks| + 1 else k;
    i := k + 1;
    assert At(base, blocks, k) in mem;
  }

  lemma NodeIn(mem: Memory, base: nat, blocks: seq<nat>, live: set<nat>, owner: map<nat, nat>, i: nat)
    requires State(mem, base, blocks, live, owner) && 1 <= i <= |blocks| + 1
    ensures At(base, blocks, i) in mem && At(base, blocks, i - 1) in mem && At(base, blocks, i - 1) >= base
  {
    hide Partition;
    assert At(base, blocks, i - 1) in mem;
    assert At(base, blocks, if i == |blocks| + 1 then 0 else i) in mem;
  }

  lemma NextNode(mem: Memory, base: nat, blocks: seq<nat>, live: set<nat>, owner: map<nat, nat>, n: nat, f: nat, i: nat)
    requires State(mem, base, blocks, live, owner) && Scanned(mem, base, blocks, n, f, i) &&
             Size(mem, At(base, blocks, i)) < n
    requires At(base, blocks, i) != At(base, blocks, f)
    ensures var next := if i == |blocks| + 1 then 1 else i + 1;
            && At(base, blocks, i) in mem && mem[At(base, blocks, i)].ptr == At(base, blocks, next)
            && At(base, blocks, i) == At(base, blocks, next - 1)
            && Scanned(mem, base, blocks, n, f, next)
  {
    hide Ordered, Partition;
    assert At(base, blocks, if i == |blocks| + 1 then 0 else i) in mem;
  }

  /** When the scan is back where it started, no block fits. */
  lemma RoundDone(mem: Memory, base: nat, blocks: seq<nat>, live: set<nat>, owner: map<nat, nat>, n: nat, f: nat,
                  i: nat)
    requires State(mem, base, blocks, live, owner) && Scanned(mem, base, blocks, n, f, i) &&
             Size(mem, At(base, blocks, i)) < n
    requires At(base, blocks, i) == At(base, blocks, f)
    ensures !Fits(mem, blocks, n)
  {
    hide Partition, Linked;
    AtDistinct(mem, base, blocks, if i == |blocks| + 1 then 0 else i, if f == |blocks| + 1 then 0 else f);
    forall k | 0 <= k < |blocks|
      ensures Size(mem, blocks[k]) < n
    {
      assert At(base, blocks, k + 1) == blocks[k];
    }
  }

  lemma TakeFits(mem: Memory, base: nat, blocks: seq<nat>, live: set<nat>, owner: map<nat, nat>, i: nat, n: nat)
    requires State(mem, base, blocks, live, owner) && 1 <= i <= |blocks| + 1 && Size(mem, At(base, blocks, i)) >= n > 0
    ensures i <= |blocks| && At(base, blocks, i) == blocks[i - 1] && Fits(mem, blocks, n)
    ensures At(base, blocks, i) in owner && At(base, blocks, i) !in live
  {
    hide Partition, Linked;
    OwnFirst(mem, base, blocks, live, owner, At(base, blocks, i));
  }

  function SplitOwner(owner: map<nat, nat>, head: nat, tail: nat): (o: map<nat, nat>) {
    map u | u in owner :: if owner[u] == head && u >= tail then tail else owner[u]
  }

  /** A block of the right size leaves the list. */
  lemma TakeWhole(mem: Memory, base: nat, blocks: seq<nat>, live: set<nat>, owner: map<nat, nat>, i: nat)
    requires State(mem, base, blocks, live, owner) && Coalesced(mem, blocks) && 1 <= i <= |blocks|
    ensures var p, prev := blocks[i - 1], At(base, blocks, i - 1);
            && p in mem && prev in mem && p != prev
            && var m := mem[prev := Header(mem[p].ptr, mem[prev].size)];
               && State(m, base, Without(blocks, i - 1), live + {p}, owner) && Coalesced(m, Without(blocks, i - 1))
               && OnList(base, Without(blocks, i - 1), prev)
               && Kept(mem, m, live, owner) && SameLive(live, owner, owner) && Size(m, p) == Size(mem, p)
  {
    hide Linked, Ordered, Partition, CoalescedBut, Without, End, Ptr, Kept;
    var p, prev := blocks[i - 1], At(base, blocks, i - 1);
    NodeIn(mem, base, blocks, live, owner, i);
    AtDistinct(mem, base, blocks, i - 1, i);
    var m := mem[prev := Header(mem[p].ptr, mem[prev].size)];
    UnlinkFields(mem, p, prev);
    UnlinkLinked(mem, m, base, blocks, i);
    UnlinkOrdered(mem, m, base, blocks, i - 1);
    UnlinkPartition(mem, m, base, blocks, live, owner, i - 1);
    if i > 1 {
      OwnFirst(mem, base, blocks, live, owner, prev);
    }
    WithoutMembers(mem, base, blocks, i - 1);
    StoresKept(mem, m, base, blocks, live, live, owner, prev, prev);
  }

  lemma UnlinkFields(mem: Memory, p: nat, prev: nat)
    requires p in mem && prev in mem
    ensures var m := mem[prev := Header(mem[p].ptr, mem[prev].size)];
            && m.Keys == mem.Keys && (forall h: nat :: End(m, h) == End(mem, h) && Size(m, h) == Size(mem, h))
            && (forall h: nat :: Ptr(m, h) == if h == prev then Ptr(mem, p) else Ptr(mem, h))
  {
  }

  lemma UnlinkLinked(mem: Memory, m: Memory, base: nat, blocks: seq<nat>, i: nat)
    requires Linked(mem, base, blocks) && Ordered(mem, base, blocks) && 1 <= i <= |blocks| && m.Keys == mem.Keys
    requires forall h: nat ::
               Ptr(m, h) == if h == At(base, blocks, i - 1) then Ptr(mem, At(base, blocks, i)) else Ptr(mem, h)
    ensures Linked(m, base, Without(blocks, i - 1))
  {
    hide Ordered, At, Without, Ptr;
    var bl := Without(blocks, i - 1);
    AtWithout(base, blocks, i - 1, 0);
    forall k: nat | k <= |bl|
      ensures At(base, bl, k) in m && Ptr(m, At(base, bl, k)) == At(base, bl, k + 1)
    {
      AtWithout(base, blocks, i - 1, k);
      AtWithout(base, blocks, i - 1, k + 1);
      AtDistinct(mem, base, blocks, if k <= i - 1 then k else k + 1, i - 1);
      assert At(base, blocks, i) in mem;
    }
  }

  lemma UnlinkOrdered(mem: Memory, m: Memory, base: nat, blocks: seq<nat>, k: nat)
    requires Ordered(mem, base, blocks) && Coalesced(mem, blocks) && k < |blocks| &&
             forall h: nat :: End(m, h) == End(mem, h)
    ensures Ordered(m, base, Without(blocks, k)) && Coalesced(m, Without(blocks, k))
  {
    hide End;
    BaseEnd(mem, m, base);
    var bl := Without(blocks, k);
    assert forall j | 0 <= j < |bl| :: bl[j] == blocks[if j < k then j else j + 1];
    forall j | 0 <= j < |bl| - 1
      ensures End(m, bl[j]) < bl[j + 1]
    {
      var i := if j < k then j else j + 1;
      assert bl[j] == blocks[i] && End(mem, blocks[i]) < blocks[i + 1];
      assert bl[j + 1] == blocks[if j + 1 < k then j + 1 else j + 2];
    }
  }

  lemma UnlinkPartition(mem: Memory, m: Memory, base: nat, blocks: seq<nat>, live: set<nat>, owner: map<nat, nat>,
                        k: nat)
    requires Ordered(mem, base, blocks) && Partition(mem, base, blocks, live, owner) && k < |blocks|
    requires m.Keys == mem.Keys && forall h: nat :: End(m, h) == End(mem, h)
    ensures Partition(m, base, Without(blocks, k), live + {blocks[k]}, owner)
  {
    hide End, Without, Inside, Whole;
    WithoutMembers(mem, base, blocks, k);
    var bl := Without(blocks, k);
    assert forall h: nat :: IsBlock(bl, live + {blocks[k]}, h) <==> IsBlock(blocks, live, h);
    SameBlocks(mem, m, blocks, bl, live, live + {blocks[k]}, owner);
  }

  lemma NodeOn(base: nat, blocks: seq<nat>, i: nat)
    ensures OnList(base, blocks, At(base, blocks, i))
  {
  }

  /** The tail of a larger block is split off. */
  lemma TakePart(mem: Memory, m: Memory, base: nat, blocks: seq<nat>, live: set<nat>, owner: map<nat, nat>, p: nat,
                 q: nat, n: nat)
    requires State(mem, base, blocks, live, owner) && Coalesced(mem, blocks) && p in blocks && n > 0 &&
             q + n == p + Size(mem, p) && p < q
    requires p in mem && q in mem && m == mem[p := Header(mem[p].ptr, q - p)][q := Header(mem[q].ptr, n)]
    ensures State(m, base, blocks, live + {q}, SplitOwner(owner, p, q)) && Coalesced(m, blocks)
    ensures Kept(mem, m, live, owner) && SameLive(live, owner, SplitOwner(owner, p, q)) &&
            SplitOwner(owner, p, q).Keys == owner.Keys
    ensures q !in live && Size(m, q) == n
  {
    hide Linked, Ordered, Inside, Whole, CoalescedBut, SplitOwner, End, Ptr, Kept, SameLive;
    SplitPlace(mem, base, blocks, live, owner, p, q, n);
    SplitFields(mem, p, q, n);
    SplitLinked(mem, m, base, blocks, q);
    SplitOrdered(mem, m, base, blocks, p, q);
    SplitInside(mem, m, blocks, live, owner, p, q);
    SplitWhole(mem, m, blocks, live, owner, p, q);
    SplitLive(live, owner, p, q);
    StoresKept(mem, m, base, blocks, live, live, owner, p, q);
  }

  lemma SplitPlace(mem: Memory, base: nat, blocks: seq<nat>, live: set<nat>, owner: map<nat, nat>, p: nat, q: nat,
                   n: nat)
    requires State(mem, base, blocks, live, owner) && p in blocks && p < q && n > 0 && q + n == p + Size(mem, p)
    ensures p in mem && q in mem && !IsBlock(blocks, live, q) && base < p && p !in live && End(mem, p) == q + n
    ensures p in owner && owner[p] == p && q in owner && owner[q] == p
  {
    hide Linked;
    OwnFirst(mem, base, blocks, live, owner, p);
    assert IsBlock(blocks, live, p) && p <= q < End(mem, p);
    assert q in owner && owner[q] == p;
    if IsBlock(blocks, live, q) {
      OwnFirst(mem, base, blocks, live, owner, q);
    }
  }

  lemma SplitFields(mem: Memory, p: nat, q: nat, n: nat)
    requires p in mem && q in mem && p < q && n > 0 && End(mem, p) == q + n
    ensures var m := mem[p := Header(mem[p].ptr, mem[p].size - n)][q := Header(mem[q].ptr, n)];
            && m.Keys == mem.Keys && m[p].size == q - p && (forall h: nat :: Ptr(m, h) == Ptr(mem, h))
            && (forall h: nat :: End(m, h) == if h == p then q else if h == q then End(mem, p) else End(mem, h))
  {
  }

  lemma SplitLinked(mem: Memory, m: Memory, base: nat, blocks: seq<nat>, q: nat)
    requires Linked(mem, base, blocks) && m.Keys == mem.Keys && forall h: nat :: Ptr(m, h) == Ptr(mem, h)
    ensures Linked(m, base, blocks)
  {
    hide Ptr;
  }

  lemma SplitOrdered(mem: Memory, m: Memory, base: nat, blocks: seq<nat>, p: nat, q: nat)
    requires Ordered(mem, base, blocks) && Coalesced(mem, blocks) && base < p < q < End(mem, p) && q !in blocks
    requires forall h: nat :: End(m, h) == if h == p then q else if h == q then End(mem, p) else End(mem, h)
    ensures Ordered(m, base, blocks) && Coalesced(m, blocks)
  {
    hide End;
    BaseEnd(mem, m, base);
  }

  lemma SplitInside(mem: Memory, m: Memory, blocks: seq<nat>, live: set<nat>, owner: map<nat, nat>, p: nat, q: nat)
    requires Inside(mem, blocks, live, owner) && m.Keys == mem.Keys && p < q < End(mem, p) && !IsBlock(blocks, live, q)
    requires forall h: nat :: End(m, h) == if h == p then q else if h == q then End(mem, p) else End(mem, h)
    ensures Inside(m, blocks, live + {q}, SplitOwner(owner, p, q))
  {
    hide End;
    var o := SplitOwner(owner, p, q);
    forall u <- o
      ensures u in m && IsBlock(blocks, live + {q}, o[u]) && o[u] <= u < End(m, o[u])
    {
      assert IsBlock(blocks, live, owner[u]);
    }
  }

  lemma SplitWhole(mem: Memory, m: Memory, blocks: seq<nat>, live: set<nat>, owner: map<nat, nat>, p: nat, q: nat)
    requires Whole(mem, blocks, live, owner) && p < q < End(mem, p) && IsBlock(blocks, live, p) &&
             !IsBlock(blocks, live, q)
    requires forall h: nat :: End(m, h) == if h == p then q else if h == q then End(mem, p) else End(mem, h)
    ensures Whole(m, blocks, live + {q}, SplitOwner(owner, p, q))
  {
    hide End;
    var o := SplitOwner(owner, p, q);
    forall h: nat, u: nat | IsBlock(blocks, live + {q}, h) && h <= u < End(m, h)
      ensures u in o && o[u] == h
    {
      assert IsBlock(blocks, live, if h == q then p else h);
    }
  }

  lemma SplitLive(live: set<nat>, owner: map<nat, nat>, p: nat, q: nat)
    requires p !in live
    ensures SameLive(live, owner, SplitOwner(owner, p, q)) && SplitOwner(owner, p, q).Keys == owner.Keys
  {
  }

  lemma KeptTwice(mem0: Memory, mem1: Memory, mem2: Memory, live: set<nat>, owner0: map<nat, nat>, owner1: map<nat,
                  nat>, owner2: map<nat, nat>)
    requires Kept(mem0, mem1, live, owner0) && SameLive(live, owner0, owner1)
    requires Kept(mem1, mem2, live, owner1) && SameLive(live, owner1, owner2)
    ensures Kept(mem0, mem2, live, owner0) && SameLive(live, owner0, owner2)
  {
  }

  // ----- conservation

  function Total(mem: Memory, hs: seq<nat>): (n: nat) {
    if hs == [] then 0 else Total(mem, hs[..|hs| - 1]) + Size(mem, hs[|hs| - 1])
  }

  /** The units of the blocks in `hs`. */
  ghost function UnitsOf(owner: map<nat, nat>, hs: seq<nat>): (s: set<nat>) {
    set u | u in owner && owner[u] in hs
  }

  lemma {:induction false} RangeSize(a: nat, n: nat)
    ensures |Range(a, n)| == n
  {
    if n == 0 {
      assert Range(a, 0) == {};
    } else {
      RangeSize(a, n - 1);
      assert Range(a, n) == Range(a, n - 1) + {a + n - 1};
    }
  }

  lemma UnitsSplit(mem: Memory, base: nat, blocks: seq<nat>, live: set<nat>, owner: map<nat, nat>, hs: seq<nat>, h: nat)
    requires Partition(mem, base, blocks, live, owner) && IsBlock(blocks, live, h) && h !in hs
    ensures UnitsOf(owner, hs + [h]) == UnitsOf(owner, hs) + Range(h, Size(mem, h))
    ensures UnitsOf(owner, hs) !! Range(h, Size(mem, h))
  {
    hide IsBlock;
    forall u: nat
      ensures u in Range(h, Size(mem, h)) <==> u in owner && owner[u] == h
    {
    }
  }

  lemma {:induction false} UnitsCounted(mem: Memory, base: nat, blocks: seq<nat>, live: set<nat>, owner: map<nat, nat>,
                                        hs: seq<nat>)
    requires State(mem, base, blocks, live, owner)
    requires (forall h <- hs :: IsBlock(blocks, live, h)) && forall i, j | 0 <= i < j < |hs| :: hs[i] != hs[j]
    ensures Total(mem, hs) == |UnitsOf(owner, hs)|
  {
    hide Linked, Ordered, Partition, IsBlock, UnitsOf, Range;
    if hs == [] {
      NoUnits(owner);
    } else {
      var rest, h := hs[..|hs| - 1], hs[|hs| - 1];
      assert hs == rest + [h] && h !in rest;
      UnitsCounted(mem, base, blocks, live, owner, rest);
      RangeSize(h, Size(mem, h));
      UnitsSplit(mem, base, blocks, live, owner, rest, h);
    }
  }

  lemma NoUnits(owner: map<nat, nat>)
    ensures UnitsOf(owner, []) == {}
  {
  }

  /** The sizes of all blocks, free and allocated, add up to the units obtained from sbrk. */
  lemma UnitsConserved(mem: Memory, base: nat, blocks: seq<nat>, live: set<nat>, owner: map<nat, nat>, all: seq<nat>)
    requires State(mem, base, blocks, live, owner)
    requires (forall h: nat :: h in all <==> IsBlock(blocks, live, h)) &&
             forall i, j | 0 <= i < j < |all| :: all[i] != all[j]
    ensures Total(mem, all) == |owner.Keys|
  {
    hide Linked, Ordered, Whole;
    UnitsCounted(mem, base, blocks, live, owner, all);
    assert UnitsOf(owner, all) == owner.Keys;
  }
}
