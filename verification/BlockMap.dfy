/** What the file system stores (kernel/fs.h, kernel/fs.c): the free bitmap, inodes with
    direct and indirect block addresses, who owns which block, and the bytes of a file. */
module BlockMap {
  import opened Disk

  const NDIRECT := 57
  const NINDIRECT := WORDS_PER_BLOCK
  const MAXFILE := NDIRECT + NINDIRECT

  // ----- bitmap bits

  function Mask(k: nat): (m: bv8)
    requires k < 8
  {
    match k case 0 => 1 case 1 => 2 case 2 => 4 case 3 => 8 case 4 => 16 case 5 => 32 case 6 => 64 case _ => 128
  }

  predicate TestMask(x: bv8, k: nat)
    requires k < 8
  {
    x & Mask(k) != 0
  }

  function OrMask(x: bv8, k: nat): (y: bv8)
    requires k < 8
  {
    x | Mask(k)
  }

  function AndNotMask(x: bv8, k: nat): (y: bv8)
    requires k < 8
  {
    x & !Mask(k)
  }

  lemma OrMaskBits(x: bv8, i: nat, j: nat)
    requires i < 8 && j < 8
    ensures TestMask(OrMask(x, i), j) <==> (i == j || TestMask(x, j))
  {
    match i case 0 => case 1 => case 2 => case 3 => case 4 => case 5 => case 6 => case _ =>
  }

  lemma AndNotMaskBits(x: bv8, i: nat, j: nat)
    requires i < 8 && j < 8
    ensures TestMask(AndNotMask(x, i), j) <==> (i != j && TestMask(x, j))
  {
    match i case 0 => case 1 => case 2 => case 3 => case 4 => case 5 => case 6 => case _ =>
  }

  /** The bits of a byte are its binary digits, the lowest first. */
  lemma BinaryDigits(x: bv8)
    ensures x == (if TestMask(x, 0) then 1 else 0) + (if TestMask(x, 1) then 2 else 0) +
                 (if TestMask(x, 2) then 4 else 0) + (if TestMask(x, 3) then 8 else 0) +
                 (if TestMask(x, 4) then 16 else 0) + (if TestMask(x, 5) then 32 else 0) +
                 (if TestMask(x, 6) then 64 else 0) + (if TestMask(x, 7) then 128 else 0)
  {
  }

  predicate Bit(bitmap: seq<bv8>, b: nat)
    requires b < 8 * |bitmap|
  {
    TestMask(bitmap[b / 8], b % 8)
  }

  function SetBit(bitmap: seq<bv8>, b: nat): (r: seq<bv8>)
    requires b < 8 * |bitmap|
    ensures |r| == |bitmap|
  {
    bitmap[b / 8 := OrMask(bitmap[b / 8], b % 8)]
  }

  function ClearBit(bitmap: seq<bv8>, b: nat): (r: seq<bv8>)
    requires b < 8 * |bitmap|
    ensures |r| == |bitmap|
  {
    bitmap[b / 8 := AndNotMask(bitmap[b / 8], b % 8)]
  }

  /** Setting or clearing one bit changes no other. */
  lemma BitUpdates(bitmap: seq<bv8>, b: nat, c: nat)
    requires b < 8 * |bitmap| && c < 8 * |bitmap|
    ensures Bit(SetBit(bitmap, b), c) <==> (b == c || Bit(bitmap, c))
    ensures Bit(ClearBit(bitmap, b), c) <==> (b != c && Bit(bitmap, c))
  {
    hide TestMask, OrMask, AndNotMask;
    OrMaskBits(bitmap[b / 8], b % 8, c % 8);
    AndNotMaskBits(bitmap[b / 8], b % 8, c % 8);
  }

  lemma MarkUsed(bitmap: seq<bv8>, owner: seq<Owner>, b: nat)
    requires Marked(bitmap, owner) && b < |owner|
    ensures Marked(SetBit(bitmap, b), owner[b := Held])
    ensures Marked(ClearBit(bitmap, b), owner[b := Free])
  {
    hide Bit, SetBit, ClearBit;
    forall c: nat | c < |owner|
      ensures Bit(SetBit(bitmap, b), c) <==> owner[b := Held][c] != Free
      ensures Bit(ClearBit(bitmap, b), c) <==> owner[b := Free][c] != Free
    {
      BitUpdates(bitmap, b, c);
    }
  }

  // ----- inodes and their slots

  /** The part of an inode that concerns its contents. */
  datatype Inode = Inode(typ: nat, size: Word, addrs: seq<Word>) {
    predicate Ok() {
      |addrs| == NDIRECT + 1
    }
  }

  /** Places that can name a block: the NDIRECT direct addresses, the address of the
      indirect block, and the NINDIRECT words in the indirect block. */
  const INDIRECT := NDIRECT
  const SLOTS := NDIRECT + 1 + NINDIRECT

  function Slot(ip: Inode, data: Blocks, k: nat): (b: Word)
    requires ip.Ok() && k < SLOTS
  {
    if k <= INDIRECT then ip.addrs[k]
    else if ip.addrs[INDIRECT] == 0 || ip.addrs[INDIRECT] >= |data| then 0
    else GetWord(data[ip.addrs[INDIRECT]], k - INDIRECT - 1)
  }

  /** The slot for block `bn` of the file. */
  function DataSlot(bn: nat): (k: nat)
    requires bn < MAXFILE
    ensures k < SLOTS && k != INDIRECT
  {
    if bn < NDIRECT then bn else bn + 1
  }

  /** Block `bn` of the file as bytes; a hole reads as zeros. */
  function FileBlock(ip: Inode, data: Blocks, bn: nat): (r: Block)
    requires ip.Ok() && bn < MAXFILE
  {
    BlockAt(data, Slot(ip, data, DataSlot(bn)))
  }

  function BlockAt(data: Blocks, b: Word): (r: Block) {
    if b == 0 || b >= |data| then ZERO_BLOCK else data[b]
  }

  function FileByte(ip: Inode, data: Blocks, pos: nat): (x: Byte)
    requires ip.Ok() && pos < MAXFILE * BSIZE
  {
    FileBlock(ip, data, pos / BSIZE)[pos % BSIZE]
  }

  // ----- ownership

  /** Held: marked in use by an operation that has not linked or freed it yet. */
  datatype Owner = Free | Meta | Held | Of(inum: nat, slot: nat)

  ghost predicate Inodes(cur: seq<Inode>) {
    forall i | 0 <= i < |cur| :: cur[i].Ok()
  }

  /** Each block named by a slot is owned by that slot alone, and each owned block is named
      by its owner; metadata blocks are never named. */
  ghost predicate Owned(cur: seq<Inode>, data: Blocks, owner: seq<Owner>, nmeta: nat) {
    && Inodes(cur) && |owner| == |data| && 0 < nmeta
    && (forall i, k | 0 <= i < |cur| && 0 <= k < SLOTS && Slot(cur[i], data, k) != 0 ::
          Slot(cur[i], data, k) < |data| && owner[Slot(cur[i], data, k)] == Of(i, k))
    && (forall b: nat | b < |owner| && owner[b].Of? ::
          owner[b].inum < |cur| && owner[b].slot < SLOTS && Slot(cur[owner[b].inum], data, owner[b].slot) == b)
    && (forall b: nat | b < |owner| :: owner[b] == Meta <==> b < nmeta)
  }

  /** The bitmap marks exactly the blocks in use. */
  ghost predicate Marked(bitmap: seq<bv8>, owner: seq<Owner>) {
    |owner| <= 8 * |bitmap| && forall b: nat | b < |owner| :: Bit(bitmap, b) <==> owner[b] != Free
  }

  ghost predicate SameSlots(cur: seq<Inode>, data: Blocks, cur': seq<Inode>, data': Blocks) {
    && Inodes(cur) && Inodes(cur') && |cur'| == |cur|
    && forall i, k | 0 <= i < |cur| && 0 <= k < SLOTS :: Slot(cur'[i], data', k) == Slot(cur[i], data, k)
  }

  ghost predicate SameFiles(cur: seq<Inode>, data: Blocks, cur': seq<Inode>, data': Blocks) {
    && Inodes(cur) && Inodes(cur') && |cur'| == |cur|
    && forall i, bn | 0 <= i < |cur| && 0 <= bn < MAXFILE ::
      FileBlock(cur'[i], data', bn) == FileBlock(cur[i], data, bn)
  }

  /** The slots of all inodes differ only in slot `k` of inode `i`, which now names `b`. */
  ghost predicate SlotSet(cur: seq<Inode>, data: Blocks, cur': seq<Inode>, data': Blocks, i: nat, k: nat, b: Word) {
    && Inodes(cur) && Inodes(cur') && |cur'| == |cur| && |data'| == |data|
    && forall j, l | 0 <= j < |cur| && 0 <= l < SLOTS ::
         Slot(cur'[j], data', l) == if j == i && l == k then b else Slot(cur[j], data, l)
  }

  // ----- changing one block

  /** Blocks that are not indirect blocks do not influence any slot. */
  lemma DataUpdateSlots(cur: seq<Inode>, data: Blocks, owner: seq<Owner>, nmeta: nat, b: nat, x: Block)
    requires Owned(cur, data, owner, nmeta) && b < |data|
    requires owner[b].Of? ==> owner[b].slot != INDIRECT
    ensures SameSlots(cur, data, cur, data[b := x])
    ensures Owned(cur, data[b := x], owner, nmeta)
  {
    hide GetWord;
    forall i, k | 0 <= i < |cur| && 0 <= k < SLOTS
      ensures Slot(cur[i], data[b := x], k) == Slot(cur[i], data, k)
    {
      assert Slot(cur[i], data, INDIRECT) == cur[i].addrs[INDIRECT];
    }
  }

  /** Files differ only in block `bn` of inode `i`, which now holds `x`. */
  ghost predicate FileBlockSet(cur: seq<Inode>, data: Blocks, cur': seq<Inode>, data': Blocks, i: nat, bn: nat,
                               x: Block) {
    && Inodes(cur) && Inodes(cur') && |cur'| == |cur|
    && forall j, n | 0 <= j < |cur| && 0 <= n < MAXFILE ::
         FileBlock(cur'[j], data', n) == if j == i && n == bn then x else FileBlock(cur[j], data, n)
  }

  /** Overwriting the block that holds block `bn` of a file changes that file block only. */
  lemma DataUpdateFiles(cur: seq<Inode>, data: Blocks, owner: seq<Owner>, nmeta: nat, i: nat, bn: nat, x: Block)
    requires Owned(cur, data, owner, nmeta) && i < |cur| && bn < MAXFILE
    requires Slot(cur[i], data, DataSlot(bn)) != 0
    ensures var b := Slot(cur[i], data, DataSlot(bn));
            b < |data| && FileBlockSet(cur, data, cur, data[b := x], i, bn, x)
  {
    hide GetWord;
    var b := Slot(cur[i], data, DataSlot(bn));
    DataUpdateSlots(cur, data, owner, nmeta, b, x);
    forall j, n | 0 <= j < |cur| && 0 <= n < MAXFILE
      ensures FileBlock(cur[j], data[b := x], n) == if j == i && n == bn then x else FileBlock(cur[j], data, n)
    {
      assert Slot(cur[j], data[b := x], DataSlot(n)) == Slot(cur[j], data, DataSlot(n));
      if Slot(cur[j], data, DataSlot(n)) == b {
        assert owner[b] == Of(j, DataSlot(n));
      }
    }
  }

  /** Overwriting a block that no slot names changes no file. */
  lemma FreeUpdateFiles(cur: seq<Inode>, data: Blocks, owner: seq<Owner>, nmeta: nat, b: nat, x: Block)
    requires Owned(cur, data, owner, nmeta) && b < |data| && !owner[b].Of?
    ensures SameFiles(cur, data, cur, data[b := x])
  {
    hide GetWord;
    DataUpdateSlots(cur, data, owner, nmeta, b, x);
    forall j, n | 0 <= j < |cur| && 0 <= n < MAXFILE
      ensures FileBlock(cur[j], data[b := x], n) == FileBlock(cur[j], data, n)
    {
      assert Slot(cur[j], data[b := x], DataSlot(n)) == Slot(cur[j], data, DataSlot(n));
    }
  }

  // ----- linking an allocated block into an empty slot

  lemma LinkOwned(cur: seq<Inode>, data: Blocks, owner: seq<Owner>, nmeta: nat,
                  cur': seq<Inode>, data': Blocks, i: nat, k: nat, b: Word)
    requires Owned(cur, data, owner, nmeta) && i < |cur| && k < SLOTS && b < |data|
    requires SlotSet(cur, data, cur', data', i, k, b)
    requires owner[b] == Held && b != 0 && Slot(cur[i], data, k) == 0
    ensures Owned(cur', data', owner[b := Of(i, k)], nmeta)
  {
    hide Slot;
    var owner' := owner[b := Of(i, k)];
    forall j, l | 0 <= j < |cur| && 0 <= l < SLOTS && Slot(cur'[j], data', l) != 0
      ensures Slot(cur'[j], data', l) < |data'| && owner'[Slot(cur'[j], data', l)] == Of(j, l)
    {
      assert Slot(cur'[j], data', l) == if j == i && l == k then b else Slot(cur[j], data, l);
    }
    forall c: nat | c < |owner'| && owner'[c].Of?
      ensures owner'[c].inum < |cur'| && owner'[c].slot < SLOTS &&
              Slot(cur'[owner'[c].inum], data', owner'[c].slot) == c
    {
      if c == b {
        assert Slot(cur'[i], data', k) == b;
      } else {
        var o := owner[c];
        assert Slot(cur[o.inum], data, o.slot) == c;
        assert Slot(cur'[o.inum], data', o.slot) == c;
      }
    }
  }

  /** A direct address, or the address of a zeroed indirect block. */
  lemma SetAddr(cur: seq<Inode>, data: Blocks, i: nat, k: nat, b: Word)
    requires Inodes(cur) && i < |cur| && k <= INDIRECT && cur[i].addrs[k] == 0
    requires k == INDIRECT ==> b < |data| && data[b] == ZERO_BLOCK
    ensures var ip := cur[i].(addrs := cur[i].addrs[k := b]);
            ip.Ok() && SlotSet(cur, data, cur[i := ip], data, i, k, b)
  {
  }

  /** A word of an existing indirect block. */
  lemma SetIndirect(cur: seq<Inode>, data: Blocks, owner: seq<Owner>, nmeta: nat, i: nat, j: nat, b: Word)
    requires Owned(cur, data, owner, nmeta) && i < |cur| && j < NINDIRECT
    requires cur[i].addrs[INDIRECT] != 0
    ensures var ind := cur[i].addrs[INDIRECT];
            && ind < |data| && owner[ind] == Of(i, INDIRECT)
            && SlotSet(cur, data, cur, data[ind := PutWord(data[ind], j, b)], i, INDIRECT + 1 + j, b)
  {
    var ind := cur[i].addrs[INDIRECT];
    assert Slot(cur[i], data, INDIRECT) == ind;
    var data' := data[ind := PutWord(data[ind], j, b)];
    hide GetWord, PutWord;
    forall m, l | 0 <= m < |cur| && 0 <= l < SLOTS
      ensures Slot(cur[m], data', l) == if m == i && l == INDIRECT + 1 + j then b else Slot(cur[m], data, l)
    {
      if l > INDIRECT {
        assert Slot(cur[m], data, INDIRECT) == cur[m].addrs[INDIRECT];
        if m == i {
          GetPutWord(data[ind], j, b, l - INDIRECT - 1);
        }
      }
    }
  }

  /** Linking a zeroed block into an empty slot changes no file. */
  lemma LinkFiles(cur: seq<Inode>, data: Blocks, owner: seq<Owner>, nmeta: nat,
                  cur': seq<Inode>, data': Blocks, i: nat, k: nat, b: Word)
    requires Owned(cur, data, owner, nmeta) && i < |cur| && k < SLOTS && b < |data|
    requires SlotSet(cur, data, cur', data', i, k, b)
    requires owner[b] == Held && data[b] == ZERO_BLOCK && Slot(cur[i], data, k) == 0
    requires forall c: nat | c < |data| && (c == b || (owner[c].Of? && owner[c].slot != INDIRECT)) ::
               data'[c] == data[c]
    ensures SameFiles(cur, data, cur', data')
  {
    hide Slot;
    forall j, bn | 0 <= j < |cur| && 0 <= bn < MAXFILE
      ensures FileBlock(cur'[j], data', bn) == FileBlock(cur[j], data, bn)
    {
      var c := Slot(cur[j], data, DataSlot(bn));
      assert Slot(cur'[j], data', DataSlot(bn)) == if j == i && DataSlot(bn) == k then b else c;
    }
  }

  // ----- emptying slots

  /** Blocks named by slots `from..to` of inode `i` pass to `o`; the others keep their owner. */
  ghost predicate Released(owner: seq<Owner>, owner': seq<Owner>, i: nat, from: nat, to: nat, o: Owner) {
    && |owner'| == |owner|
    && forall b: nat | b < |owner| ::
         owner'[b] == if owner[b].Of? && owner[b].inum == i && from <= owner[b].slot < to then o else owner[b]
  }

  /** Slots `from..to` of inode `i` are empty; all other slots are as before. */
  ghost predicate Emptied(cur: seq<Inode>, cur': seq<Inode>, data: Blocks, i: nat, from: nat, to: nat) {
    && Inodes(cur) && Inodes(cur') && |cur'| == |cur|
    && forall j, k | 0 <= j < |cur| && 0 <= k < SLOTS ::
         Slot(cur'[j], data, k) == if j == i && from <= k < to then 0 else Slot(cur[j], data, k)
  }

  lemma EmptiedOwned(cur: seq<Inode>, cur': seq<Inode>, data: Blocks, owner: seq<Owner>, owner': seq<Owner>, nmeta: nat,
                     i: nat, from: nat, to: nat, o: Owner)
    requires Owned(cur, data, owner, nmeta) && Emptied(cur, cur', data, i, from, to)
    requires Released(owner, owner', i, from, to, o) && (o == Free || o == Held)
    ensures Owned(cur', data, owner', nmeta)
  {
    hide Slot;
    forall b: nat | b < |owner'| && owner'[b].Of?
      ensures owner'[b].inum < |cur'| && owner'[b].slot < SLOTS && Slot(cur'[owner'[b].inum], data, owner'[b].slot) == b
    {
      assert Slot(cur[owner[b].inum], data, owner[b].slot) == b;
    }
    forall j, k | 0 <= j < |cur'| && 0 <= k < SLOTS && Slot(cur'[j], data, k) != 0
      ensures Slot(cur'[j], data, k) < |data| && owner'[Slot(cur'[j], data, k)] == Of(j, k)
    {
      assert Slot(cur[j], data, k) == Slot(cur'[j], data, k);
    }
  }

  lemma EmptyAddr(cur: seq<Inode>, data: Blocks, i: nat, k: nat)
    requires Inodes(cur) && i < |cur| && k < INDIRECT
    ensures Emptied(cur, cur[i := cur[i].(addrs := cur[i].addrs[k := 0])], data, i, k, k + 1)
  {
  }

  /** Forgetting the indirect block empties its own slot and every slot inside it. */
  lemma EmptyIndirect(cur: seq<Inode>, data: Blocks, i: nat)
    requires Inodes(cur) && i < |cur|
    ensures Emptied(cur, cur[i := cur[i].(addrs := cur[i].addrs[INDIRECT := 0])], data, i, INDIRECT, SLOTS)
  {
  }

  // ----- what ownership means

  ghost predicate Named(cur: seq<Inode>, data: Blocks, b: nat)
    requires Inodes(cur)
  {
    exists i, k | 0 <= i < |cur| && 0 <= k < SLOTS :: b != 0 && Slot(cur[i], data, k) == b
  }

  /** Ownership without its bookkeeping: a block is marked in the bitmap exactly when it is
      metadata, held by an operation, or named by a slot; and no block is named twice. */
  lemma OwnershipMeaning(cur: seq<Inode>, data: Blocks, owner: seq<Owner>, bitmap: seq<bv8>, nmeta: nat)
    requires Owned(cur, data, owner, nmeta) && Marked(bitmap, owner)
    ensures forall b: nat | b < |data| ::
              Bit(bitmap, b) <==> b < nmeta || owner[b] == Held || Named(cur, data, b)
    ensures forall i, k, j, l | 0 <= i < |cur| && 0 <= k < SLOTS && 0 <= j < |cur| && 0 <= l < SLOTS
              && Slot(cur[i], data, k) == Slot(cur[j], data, l) != 0 :: i == j && k == l
    ensures forall i, k | 0 <= i < |cur| && 0 <= k < SLOTS && Slot(cur[i], data, k) != 0 ::
              nmeta <= Slot(cur[i], data, k) < |data|
  {
    hide Slot;
    forall b: nat | b < |data|
      ensures Bit(bitmap, b) <==> b < nmeta || owner[b] == Held || Named(cur, data, b)
    {
      if owner[b].Of? {
        assert Slot(cur[owner[b].inum], data, owner[b].slot) == b;
      }
    }
  }
}
