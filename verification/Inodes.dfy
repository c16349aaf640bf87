// The inode table of inode.c: 26-word records in 32-word slots, 32 slots to a block, and a byte-per-inode bitmap.

module Inodes {
  import opened Blocks
  import opened Store

  const NUM_INODE := 40960
  // Slots per block (blocksize / INODE_SIZE) and their size in words.
  const PER_BLOCK := 32
  const SLOT := 32
  const INODE_WORDS := 26
  // Words of the record: size and times take two each, and word 3 is padding.
  const MODE := 0
  const UID := 1
  const GID := 2
  const PADDING := 3
  const SIZE_LO := 4
  const SIZE_HI := 5
  const ACCESSED := 6
  const MODIFIED := 8
  const DIRECT := 10
  const SINGLE := 22
  const DOUBLE := 23
  const TRIPLE := 24
  const LINK_COUNT := 25
  const DIR_ID_NUM := 12

  type Inode = n: seq<Word> | |n| == INODE_WORDS witness seq(INODE_WORDS, _ => 0)

  function Size(n: Inode): nat
  {
    n[SIZE_LO] + 0x1_0000_0000 * (n[SIZE_HI] as int)
  }

  function WithSize(n: Inode, size: nat): (n': Inode)
    requires size < 0x1_0000_0000_0000_0000
    ensures Size(n') == size
    ensures forall i :: 0 <= i < INODE_WORDS && i != SIZE_LO && i != SIZE_HI ==> n'[i] == n[i]
  {
    n[SIZE_LO := size % 0x1_0000_0000][SIZE_HI := size / 0x1_0000_0000]
  }

  // Number of blocks a file of this size maps.
  function BlocksOf(n: Inode): nat
  {
    Size(n) / DB_SIZE + if Size(n) % DB_SIZE != 0 then 1 else 0
  }

  function TableBlock(inum: nat): nat
  {
    START_ILIST + inum / PER_BLOCK
  }

  function SlotStart(inum: nat): (o: nat)
    ensures o + INODE_WORDS <= ENTRIES
  {
    SLOT * (inum % PER_BLOCK)
  }

  function InodeAt(d: Disk, inum: nat): Inode
  {
    W(d, TableBlock(inum))[SlotStart(inum)..SlotStart(inum) + INODE_WORDS]
  }

  // The bitmap byte of the inode is set.
  predicate InUse(d: Disk, inum: nat)
  {
    Bytes(W(d, START_BITMAP + inum / DB_SIZE))[inum % DB_SIZE] != 0
  }

  // The fields of a record by their bytes: it starts at a multiple of 128 in a block of the table.
  lemma RecordLayout(d: Disk, inum: nat, k: nat)
    requires k < 12
    ensures var b, o, n := Bytes(W(d, 11 + inum / 32)), 128 * (inum % 32), InodeAt(d, inum);
      && n[MODE] == Field(b, o) && n[UID] == Field(b, o + 4) && n[GID] == Field(b, o + 8)
      && Size(n) == Field(b, o + 16) + 0x1_0000_0000 * Field(b, o + 20)
      && n[ACCESSED] == Field(b, o + 24) && n[ACCESSED + 1] == Field(b, o + 28)
      && n[MODIFIED] == Field(b, o + 32) && n[MODIFIED + 1] == Field(b, o + 36)
      && n[DIRECT + k] == Field(b, o + 40 + 4 * k)
      && n[SINGLE] == Field(b, o + 88) && n[DOUBLE] == Field(b, o + 92) && n[TRIPLE] == Field(b, o + 96)
      && n[LINK_COUNT] == Field(b, o + 100)
    ensures InUse(d, inum) <==> Bytes(W(d, 1 + inum / 4096))[inum % 4096] != 0
  {
    forall w | 0 <= w < INODE_WORDS
      ensures InodeAt(d, inum)[w] == Field(Bytes(W(d, 11 + inum / 32)), 128 * (inum % 32) + 4 * w)
    {
      RecordWord(d, inum, w);
    }
  }

  lemma RecordWord(d: Disk, inum: nat, w: nat)
    requires w < INODE_WORDS
    ensures InodeAt(d, inum)[w] == Field(Bytes(W(d, 11 + inum / 32)), 128 * (inum % 32) + 4 * w)
  {
    var ws := W(d, 11 + inum / 32);
    WordsRoundTrip(ws);
    WordAt(Bytes(ws), 32 * (inum % 32) + w);
  }

  lemma TableRange(inum: nat)
    requires inum < NUM_INODE
    ensures START_ILIST <= TableBlock(inum) < START_DATA_BLOCK
    ensures START_BITMAP <= START_BITMAP + inum / DB_SIZE < START_ILIST
  {
  }

  // Distinct inodes have distinct places in the table.
  lemma PlacesDistinct(i: nat, j: nat)
    requires i != j && TableBlock(i) == TableBlock(j)
    ensures SlotStart(i) + SLOT <= SlotStart(j) || SlotStart(j) + SLOT <= SlotStart(i)
  {
    assert i == PER_BLOCK * (i / PER_BLOCK) + i % PER_BLOCK && j == PER_BLOCK * (j / PER_BLOCK) + j % PER_BLOCK;
  }

  lemma RecordFrame(d: Disk, d': Disk, inum: nat)
    requires inum < NUM_INODE && W(d', TableBlock(inum)) == W(d, TableBlock(inum))
    ensures InodeAt(d', inum) == InodeAt(d, inum)
  {
  }

  // find_inode_by_inum
  method FindInode(s: Device, inum: nat) returns (node: Option<Inode>)
    requires Sized(s.blocks)
    modifies s.log
    ensures node == if inum < NUM_INODE && InUse(s.blocks, inum) then Some(InodeAt(s.blocks, inum)) else None
  {
    if inum > NUM_INODE - 1 {
      return None;
    }
    TableRange(inum);
    var bitmap := DbRead(s, START_BITMAP + inum / DB_SIZE);
    if Bytes(bitmap.value)[inum % DB_SIZE] == 0 {
      return None;
    }
    var block := DbRead(s, START_ILIST + inum / PER_BLOCK);
    var o := inum % PER_BLOCK * SLOT;
    node := Some(block.value[o..o + INODE_WORDS]);
  }

  // d' is d with the record of inum replaced by node.
  predicate Stored(d: Disk, d': Disk, inum: nat, node: Inode)
  {
    && |d'| == |d| && InodeAt(d', inum) == node
    && (forall b :: 0 <= b < |d| && b != TableBlock(inum) ==> d'[b] == d[b])
    && (forall j {:trigger InodeAt(d', j)} :: 0 <= j < NUM_INODE && j != inum ==> InodeAt(d', j) == InodeAt(d, j))
  }

  // write_inode_to_disk: the inode reads back as written, and every other inode and block as before.
  method WriteInode(s: Device, inum: nat, node: Inode) returns (status: int)
    requires Sized(s.blocks)
    modifies s.log, s`blocks
    ensures status == if inum < NUM_INODE then 0 else -1
    ensures if status == 0 then Stored(old(s.blocks), s.blocks, inum, node) else s.blocks == old(s.blocks)
  {
    if inum > NUM_INODE - 1 {
      return -1;
    }
    TableRange(inum);
    ghost var d := s.blocks;
    var bid := START_ILIST + inum / PER_BLOCK;
    var block := DbRead(s, bid);
    var o := inum % PER_BLOCK * SLOT;
    var _ := DbWrite(s, block.value[..o] + node + block.value[o + INODE_WORDS..], bid);
    StoredSlot(d, s.blocks, inum, node);
    status := 0;
  }

  lemma StoredSlot(d: Disk, d': Disk, inum: nat, node: Inode)
    requires |d'| == |d| && TableBlock(inum) < |d|
    requires forall b :: 0 <= b < |d| && b != TableBlock(inum) ==> d'[b] == d[b]
    requires var o, ws := SlotStart(inum), W(d, TableBlock(inum));
      W(d', TableBlock(inum)) == ws[..o] + node + ws[o + INODE_WORDS..]
    ensures Stored(d, d', inum, node)
  {
    forall j | 0 <= j < NUM_INODE && j != inum
      ensures InodeAt(d', j) == InodeAt(d, j)
    {
      if TableBlock(j) == TableBlock(inum) { PlacesDistinct(inum, j); }
    }
  }
}
