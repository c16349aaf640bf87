// mkfs up to the root directory (fs.c): the superblock and the free list are written behind the cache, the bitmap and
// the inode table through it.

module Format {
  import opened Blocks
  import opened CacheSpec
  import opened DiskCache
  import opened InitialList
  import Calls
  import CacheTraces
  import Store
  import Inodes
  import FreeList
  import Ownership
  import BlockMap

  // ---------- the cache during formatting ----------

  // Blocks from `next` on are not cached, the superblock is in front if it is, and no list pointer is stale.
  ghost predicate Ready(st: State, next: nat)
  {
    && Ok(st) && 3 <= |st.slots| && !st.stale
    && (forall b: nat {:trigger Cached(st, b)} :: Cached(st, b) ==> b < next)
    && (Cached(st, 0) ==> Find(st.slots, 0) <= 1)
  }

  // The device a caller sees is dev.
  ghost predicate Shows(st: State, dev: seq<Block>)
  {
    |st.raw| == RAW_BLOCKS == |dev| && forall b {:trigger View(st, b)} :: 0 <= b < RAW_BLOCKS ==> View(st, b) == dev[b]
  }

  lemma ShowsStep(st: State, dev: seq<Block>, op: Op)
    requires Ok(st) && Shows(st, dev) && (op.Sync? || op.block < RAW_BLOCKS) && (op.Bypass? ==> !Cached(st, op.block))
    ensures Shows(Step(st, op), if op.Write? || op.Bypass? then dev[op.block := op.data] else dev)
  {
    StepOk(st, op);
    forall b | 0 <= b < RAW_BLOCKS
      ensures View(Step(st, op), b) == Written(op, b, dev[b])
    {
      StepView(st, op, b);
      assert View(st, b) == dev[b];
    }
  }

  // Only the block accessed can enter the cache.
  lemma CachedStep(st: State, op: Op, b: nat)
    requires Ok(st) && !op.Sync? && Cached(Step(st, op), b)
    ensures Cached(st, b) || (b == op.block && !op.Bypass?)
  {
  }

  lemma ReadZero(st: State, next: nat)
    requires Ready(st, next) && 0 < next
    ensures !Trips(st, Read(0)) && Ready(Step(st, Read(0)), next) && Find(Step(st, Read(0)).slots, 0) == 0
  {
    StepOk(st, Read(0));
    forall b: nat | Cached(Step(st, Read(0)), b)
      ensures b < next
    {
      CachedStep(st, Read(0), b);
    }
  }

  lemma WriteNext(st: State, next: nat, b: nat, data: Block)
    requires Ready(st, next) && Find(st.slots, 0) == 0 && next <= b < RAW_BLOCKS
    ensures !Trips(st, Write(b, data)) && Ready(Step(st, Write(b, data)), b + 1)
  {
    var op := Write(b, data);
    assert !Cached(st, b);
    StepOk(st, op);
    forall x: nat | Cached(Step(st, op), x)
      ensures x < b + 1
    {
      CachedStep(st, op, x);
    }
    assert Holds(Step(st, op).slots[1], 0);
  }

  lemma BypassNext(st: State, next: nat, b: nat, data: Block)
    requires Ready(st, next) && next <= b < RAW_BLOCKS
    ensures !Cached(st, b) && Ready(Step(st, Bypass(b, data)), next)
  {
    var op := Bypass(b, data);
    assert !Cached(st, b);
    StepOk(st, op);
    forall x: nat | Cached(Step(st, op), x)
      ensures x < next
    {
      CachedStep(st, op, x);
    }
  }

  // A valid cache in such a state.  The definition is sealed: it is used only where Unsealed is mentioned.
  ghost predicate Formatting(c: Cache, dev: seq<Block>, next: nat)
    reads c, c.list, c.list.members, c.hashTable, c.hashTable.list, c.hashTable.Repr, c.buffer
  {
    forall w {:trigger FreeList.Unsealed(w)} :: FreeList.Unsealed(w) ==>
      c.Valid() && Ready(c.abs, next) && Shows(c.abs, dev)
  }

  // sb_read
  method SbRead(c: Cache, ghost dev: seq<Block>, ghost next: nat) returns (super: Store.SuperBlock)
    requires Formatting(c, dev, next) && 0 < next
    modifies c`add, c`abs, c.list, c.list.members, c.hashTable, c.hashTable.list, c.hashTable.Repr, c.buffer, c.log
    ensures Formatting(c, dev, next) && fresh(c.hashTable.Repr - old(c.hashTable.Repr))
    ensures Find(c.abs.slots, 0) == 0 && |dev| == RAW_BLOCKS && Words(dev[0])[..Store.SB_WORDS] == super
    ensures c.log.ops == old(c.log.ops) + [Read(0)]
  {
    assert FreeList.Unsealed(true);
    ReadZero(c.abs, next);
    ShowsStep(c.abs, dev, Read(0));
    assert View(c.abs, 0) == dev[0];
    var block := c.DiskRead(0);
    super := Words(block)[..Store.SB_WORDS];
  }

  // db_write, for a block that the superblock counts and the cache has not seen.
  method DbWrite(c: Cache, data: Block, b: nat, ghost dev: seq<Block>, ghost next: nat)
    requires |dev| == RAW_BLOCKS && Formatting(c, dev, next) && 0 < next <= b < RAW_BLOCKS
    requires b <= Words(dev[0])[Store.NUM_BLOCK]
    modifies c`add, c`abs, c.list, c.list.members, c.hashTable, c.hashTable.list, c.hashTable.Repr, c.buffer, c.log
    ensures Formatting(c, dev[b := data], b + 1) && fresh(c.hashTable.Repr - old(c.hashTable.Repr))
    ensures c.log.ops == old(c.log.ops) + [Read(0), Write(b, data)]
  {
    ghost var ops := c.log.ops;
    var super := SbRead(c, dev, next);
    assert super[Store.NUM_BLOCK] == Words(dev[0])[Store.NUM_BLOCK];
    Writing(c, data, b, dev, next);
    assert c.log.ops == ops + [Read(0), Write(b, data)];
  }

  // disk_write of a block that the cache has not seen, with the superblock in front.
  method Writing(c: Cache, data: Block, b: nat, ghost dev: seq<Block>, ghost next: nat)
    requires |dev| == RAW_BLOCKS && Formatting(c, dev, next) && Find(c.abs.slots, 0) == 0 && 0 < next <= b < RAW_BLOCKS
    modifies c`add, c`abs, c.list, c.list.members, c.hashTable, c.hashTable.list, c.hashTable.Repr, c.buffer, c.log
    ensures Formatting(c, dev[b := data], b + 1) && fresh(c.hashTable.Repr - old(c.hashTable.Repr))
    ensures c.log.ops == old(c.log.ops) + [Write(b, data)]
  {
    assert FreeList.Unsealed(true);
    WriteNext(c.abs, next, b, data);
    ShowsStep(c.abs, dev, Write(b, data));
    c.DiskWrite(data, b);
  }

  // disk_write behind the cache.
  method Bypassing(c: Cache, data: Block, b: nat, ghost dev: seq<Block>, ghost next: nat)
    requires |dev| == RAW_BLOCKS && Formatting(c, dev, next) && next <= b < RAW_BLOCKS
    modifies c`add, c`abs, c.log
    ensures Formatting(c, dev[b := data], next) && c.log.ops == old(c.log.ops) + [Bypass(b, data)]
  {
    assert FreeList.Unsealed(true);
    BypassNext(c.abs, next, b, data);
    ShowsStep(c.abs, dev, Bypass(b, data));
    c.DiskBypass(data, b);
  }

  // ---------- mkfs ----------

  const FILE_SIZE := 30 * 1024 * 1024 * 1024
  const MAX_FILE_SIZE := (12 + 1024 + 1024 * 1024 + 1024 * 1024 * 1024) * 4096
  const TWO_32 := 0x1_0000_0000

  // The superblock that sb_init writes, with the counts, the padding and the mount time as parameters.
  function SuperWords(numBlock: Word, numFree: Word, clock: (Word, Word, Word)): (super: Store.SuperBlock)
  {
    [numBlock, numFree, Inodes.PER_BLOCK, numFree, 0, clock.0, clock.1, clock.2,
     FILE_SIZE % TWO_32, FILE_SIZE / TWO_32, MAX_FILE_SIZE % TWO_32, MAX_FILE_SIZE / TWO_32, DB_SIZE, Inodes.NUM_INODE,
     Store.START_DATA_BLOCK, Store.START_ILIST, Store.START_BITMAP, Store.START_DATA_BLOCK,
     Inodes.DIR_ID_NUM, Ownership.INDIR_ID_NUM, Ownership.INDIR_ID_NUM * Ownership.INDIR_ID_NUM,
     Ownership.INDIR_ID_NUM * Ownership.INDIR_ID_NUM * Ownership.INDIR_ID_NUM, 4 * Inodes.SLOT, 0]
  }

  // A 64-bit field.
  function Wide(ws: WordBlock, place: nat): nat
    requires place + 1 < ENTRIES
  {
    ws[place] + TWO_32 * ws[place + 1]
  }

  // Block ws holds the superblock, field by field; padding, mount time and what follows the struct are arbitrary.
  predicate SuperOk(ws: WordBlock, numBlock: Word, numFree: Word)
  {
    && ws[Store.NUM_BLOCK] == numBlock && ws[Store.NUM_FREE_BLOCK] == numFree
    && ws[Store.SB_INODE_PER_BLOCK] == 32 && ws[Store.SB_NUM_DATABLOCK] == numFree && ws[Store.SB_NUM_MOUNT_TIME] == 0
    && Wide(ws, Store.SB_FILESIZE) == 32212254720 && Wide(ws, Store.SB_MAX_FILE_SIZE) == 4402345721856
    && ws[Store.SB_BLOCKSIZE] == 4096 && ws[Store.SB_MAX_NUM_INODE] == 40960
    && ws[Store.SB_START_DATA_BLOCK] == 1291 && ws[Store.SB_START_ILIST] == 11 && ws[Store.SB_START_BITMAP] == 1
    && ws[Store.FREE_LIST] == 1291
    && ws[Store.SB_DIR_ID_NUM] == 12 && ws[Store.SB_INDIR_ID_NUM] == 1024
    && ws[Store.SB_D_INDIR_ID_NUM] == 1048576 && ws[Store.SB_T_INDIR_ID_NUM] == 1073741824
    && ws[Store.SB_INODE_SIZE] == 128 && ws[Store.SB_ROOT_INUM] == 0
  }

  // The struct in its block.
  lemma SuperFields(numBlock: Word, numFree: Word, clock: (Word, Word, Word), rest: seq<Word>)
    requires |rest| == ENTRIES - Store.SB_WORDS
    ensures SuperOk(SuperWords(numBlock, numFree, clock) + rest, numBlock, numFree)
  {
  }

  // The constants of this model are what the code reads from the superblock.
  lemma SuperConstants(ws: WordBlock, numBlock: Word, numFree: Word)
    requires SuperOk(ws, numBlock, numFree)
    ensures ws[Store.SB_BLOCKSIZE] == DB_SIZE && ws[Store.SB_MAX_NUM_INODE] == Inodes.NUM_INODE
    ensures ws[Store.SB_INODE_PER_BLOCK] == Inodes.PER_BLOCK && ws[Store.SB_INODE_SIZE] == 4 * Inodes.SLOT
    ensures ws[Store.SB_START_BITMAP] == Store.START_BITMAP && ws[Store.SB_START_ILIST] == Store.START_ILIST
    ensures ws[Store.SB_START_DATA_BLOCK] == Store.START_DATA_BLOCK == ws[Store.FREE_LIST]
    ensures ws[Store.SB_DIR_ID_NUM] == Inodes.DIR_ID_NUM && ws[Store.SB_INDIR_ID_NUM] == Ownership.INDIR_ID_NUM
    ensures ws[Store.SB_D_INDIR_ID_NUM] == Ownership.INDIR_ID_NUM * Ownership.INDIR_ID_NUM
    ensures ws[Store.SB_ROOT_INUM] == 0
  {
  }

  // The fields by byte, as the C struct has them.
  lemma SuperBytes(b: Block, numBlock: Word, numFree: Word)
    requires SuperOk(Words(b), numBlock, numFree)
    ensures Field(b, 0) == numBlock && Field(b, 4) == numFree && Field(b, 8) == 32 && Field(b, 12) == numFree
    ensures Field(b, 16) == 0 && Field(b, 32) + TWO_32 * Field(b, 36) == 32212254720
    ensures Field(b, 40) + TWO_32 * Field(b, 44) == 4402345721856
    ensures Field(b, 48) == 4096 && Field(b, 52) == 40960 && Field(b, 56) == 1291 && Field(b, 60) == 11
    ensures Field(b, 64) == 1 && Field(b, 68) == 1291 && Field(b, 72) == 12 && Field(b, 76) == 1024
    ensures Field(b, 80) == 1048576 && Field(b, 84) == 1073741824 && Field(b, 88) == 128 && Field(b, 92) == 0
  {
    forall k | 0 <= k < Store.SB_WORDS
      ensures Field(b, 4 * k) == Words(b)[k]
    {
      WordAt(b, k);
    }
  }

  // sb_init
  method SbInit(c: Cache, numBlock: Word, numFree: Word, clock: (Word, Word, Word), rest: seq<Word>,
                ghost dev: seq<Block>)
    returns (ghost dev': seq<Block>)
    requires |dev| == RAW_BLOCKS && Formatting(c, dev, 0) && |rest| == ENTRIES - Store.SB_WORDS
    modifies c`add, c`abs, c.log
    ensures |dev'| == RAW_BLOCKS && Formatting(c, dev', 1) && dev' == dev[0 := dev'[0]]
    ensures SuperOk(Words(dev'[0]), numBlock, numFree)
    ensures c.log.ops == old(c.log.ops) + [Bypass(0, dev'[0])]
  {
    var super: WordBlock := SuperWords(numBlock, numFree, clock) + rest;
    SuperFields(numBlock, numFree, clock, rest);
    WordsRoundTrip(super);
    Bypassing(c, Bytes(super), 0, dev, 0);
    dev' := dev[0 := Bytes(super)];
  }

  // dev' is dev with blocks lo..hi-1 replaced by data.
  ghost predicate Filled(dev: seq<Block>, dev': seq<Block>, lo: nat, hi: nat, data: Block)
  {
    |dev'| == |dev| && forall b :: 0 <= b < |dev| ==> dev'[b] == if lo <= b < hi then data else dev[b]
  }

  // What a loop of db_writes asks of the cache.
  function FillOps(data: Block, lo: nat, hi: nat): seq<Op>
  {
    if hi <= lo then [] else FillOps(data, lo, hi - 1) + [Read(0), Write(hi - 1, data)]
  }

  // The loops of inode_bitmap_init and inode_list_init: one block written over a range.
  method Fill(c: Cache, data: Block, lo: nat, hi: nat, ghost dev: seq<Block>) returns (ghost dev': seq<Block>)
    requires 0 < lo <= hi < RAW_BLOCKS == |dev| && Formatting(c, dev, lo) && hi <= Words(dev[0])[Store.NUM_BLOCK]
    modifies c`add, c`abs, c.list, c.list.members, c.hashTable, c.hashTable.list, c.hashTable.Repr, c.buffer, c.log
    ensures Formatting(c, dev', hi) && fresh(c.hashTable.Repr - old(c.hashTable.Repr))
    ensures Filled(dev, dev', lo, hi, data) && c.log.ops == old(c.log.ops) + FillOps(data, lo, hi)
  {
    dev' := dev;
    ghost var ops := c.log.ops;
    for b := lo to hi
      invariant Formatting(c, dev', b) && fresh(c.hashTable.Repr - old(c.hashTable.Repr))
      invariant Filled(dev, dev', lo, b, data) && c.log.ops == ops + FillOps(data, lo, b)
    {
      FilledOps(ops, data, lo, b);
      DbWrite(c, data, b, dev', b);
      dev' := dev'[b := data];
    }
  }

  lemma FilledOps(ops: seq<Op>, data: Block, lo: nat, b: nat)
    requires lo <= b
    ensures ops + FillOps(data, lo, b) + [Read(0), Write(b, data)] == ops + FillOps(data, lo, b + 1)
  {
  }

  // inode_bitmap_init
  method InodeBitmapInit(c: Cache, ghost dev: seq<Block>) returns (ghost dev': seq<Block>)
    requires |dev| == RAW_BLOCKS && Formatting(c, dev, Store.START_BITMAP)
    requires Store.START_ILIST <= Words(dev[0])[Store.NUM_BLOCK]
    modifies c`add, c`abs, c.list, c.list.members, c.hashTable, c.hashTable.list, c.hashTable.Repr, c.buffer, c.log
    ensures Formatting(c, dev', Store.START_ILIST) && fresh(c.hashTable.Repr - old(c.hashTable.Repr))
    ensures Filled(dev, dev', Store.START_BITMAP, Store.START_ILIST, Bytes(BlockMap.Zeros()))
    ensures c.log.ops == old(c.log.ops) + [Read(0)] +
      FillOps(Bytes(BlockMap.Zeros()), Store.START_BITMAP, Store.START_ILIST)
  {
    var _ := SbRead(c, dev, Store.START_BITMAP);
    dev' := Fill(c, Bytes(BlockMap.Zeros()), Store.START_BITMAP, Store.START_ILIST, dev);
  }

  // A block of the inode table with the same record in every slot.
  predicate TableOf(ws: WordBlock, node: Inodes.Inode, count: nat)
    requires count <= Inodes.PER_BLOCK
  {
    forall i :: 0 <= i < count ==> ws[Inodes.SLOT * i..Inodes.SLOT * i + Inodes.INODE_WORDS] == node
  }

  method DefaultTable(node: Inodes.Inode) returns (block: WordBlock)
    ensures TableOf(block, node, Inodes.PER_BLOCK)
  {
    block := BlockMap.Zeros();
    for i := 0 to Inodes.PER_BLOCK
      invariant TableOf(block, node, i)
    {
      ghost var was := block;
      block := block[..Inodes.SLOT * i] + node + block[Inodes.SLOT * i + Inodes.INODE_WORDS..];
      forall k | 0 <= k < i + 1
        ensures block[Inodes.SLOT * k..Inodes.SLOT * k + Inodes.INODE_WORDS] == node
      {
        if k < i {
          assert block[Inodes.SLOT * k..Inodes.SLOT * k + Inodes.INODE_WORDS]
            == was[Inodes.SLOT * k..Inodes.SLOT * k + Inodes.INODE_WORDS];
        }
      }
    }
  }

  // The record that inode_list_init stores: every field is zero, the padding is arbitrary.
  function DefaultRecord(padding: Word): (node: Inodes.Inode)
    ensures forall w :: 0 <= w < Inodes.INODE_WORDS && w != Inodes.PADDING ==> node[w] == 0
  {
    seq(Inodes.INODE_WORDS, w => if w == Inodes.PADDING then padding else 0)
  }

  // inode_list_init
  method InodeListInit(c: Cache, padding: Word, ghost dev: seq<Block>)
    returns (ghost dev': seq<Block>, ghost table: WordBlock)
    requires |dev| == RAW_BLOCKS && Formatting(c, dev, Store.START_ILIST)
    requires Store.START_DATA_BLOCK <= Words(dev[0])[Store.NUM_BLOCK]
    modifies c`add, c`abs, c.list, c.list.members, c.hashTable, c.hashTable.list, c.hashTable.Repr, c.buffer, c.log
    ensures Formatting(c, dev', Store.START_DATA_BLOCK) && fresh(c.hashTable.Repr - old(c.hashTable.Repr))
    ensures TableOf(table, DefaultRecord(padding), Inodes.PER_BLOCK)
    ensures Filled(dev, dev', Store.START_ILIST, Store.START_DATA_BLOCK, Bytes(table))
    ensures c.log.ops == old(c.log.ops) + [Read(0)] + FillOps(Bytes(table), Store.START_ILIST, Store.START_DATA_BLOCK)
  {
    var _ := SbRead(c, dev, Store.START_ILIST);
    var block := DefaultTable(DefaultRecord(padding));
    dev' := Fill(c, Bytes(block), Store.START_ILIST, Store.START_DATA_BLOCK, dev);
    table := block;
  }

  // The two kinds of index block that db_init builds.
  method FullIndex(n: nat, i: nat, input: WordBlock) returns (ws: WordBlock)
    requires FitsWords(n) && i < n / ENTRIES
    ensures i < IndexCount(n) && forall j :: 0 <= j < ENTRIES ==> ws[j] == IndexWord(n, i, j)
  {
    assert IndexId(i + 1) <= IndexId(IndexCount(n));
    ws := input[0 := Store.START_DATA_BLOCK + (i + 1) * ENTRIES];
    for j := 1 to ENTRIES
      invariant ws[0] == IndexId(i + 1) && forall k :: 1 <= k < j ==> ws[k] == IndexId(i) + k
    {
      ws := ws[j := Store.START_DATA_BLOCK + i * ENTRIES + j];
    }
  }

  method LastIndex(n: nat) returns (ws: WordBlock)
    requires FitsWords(n) && n % ENTRIES > 0
    ensures n / ENTRIES < IndexCount(n) && forall j :: 0 <= j < ENTRIES ==> ws[j] == IndexWord(n, n / ENTRIES, j)
  {
    ws := BlockMap.Zeros();
    for k := 0 to n % ENTRIES
      invariant forall j :: 0 <= j < ENTRIES ==> ws[j] == if j < k then IndexId(n / ENTRIES) + j else 0
    {
      ws := ws[k := Store.START_DATA_BLOCK + n / ENTRIES * ENTRIES + k];
    }
  }

  // The first i index blocks are written; nothing before the data region has changed.
  ghost predicate LaidTo(dev: seq<Block>, dev': seq<Block>, n: nat, i: nat)
    requires FitsWords(n) && i <= IndexCount(n) && n <= MOST
  {
    && |dev| == RAW_BLOCKS == |dev'|
    && (forall b :: 0 <= b < Store.START_DATA_BLOCK ==> dev'[b] == dev[b])
    && (forall k, j :: 0 <= k < i && 0 <= j < ENTRIES && IndexId(k) < |dev'| ==>
         Words(dev'[IndexId(k)])[j] == IndexWord(n, k, j))
  }

  lemma LaidNext(dev: seq<Block>, dev': seq<Block>, n: nat, i: nat, ws: WordBlock)
    requires FitsWords(n) && i < IndexCount(n) && n <= MOST && LaidTo(dev, dev', n, i)
    requires forall j :: 0 <= j < ENTRIES ==> ws[j] == IndexWord(n, i, j)
    ensures Store.START_DATA_BLOCK <= IndexId(i) < RAW_BLOCKS && LaidTo(dev, dev'[IndexId(i) := Bytes(ws)], n, i + 1)
  {
    WordsRoundTrip(ws);
  }

  // What the first i writes of db_init ask of the cache.
  function LayOps(dev: seq<Block>, i: nat): seq<Op>
    requires |dev| == RAW_BLOCKS && i <= 1023
  {
    if i == 0 then [] else LayOps(dev, i - 1) + [Bypass(IndexId(i - 1), dev[IndexId(i - 1)])]
  }

  lemma {:induction false} LaidOps(dev: seq<Block>, i: nat, j: nat, data: Block)
    requires |dev| == RAW_BLOCKS && i <= j < 1023
    ensures LayOps(dev[IndexId(j) := data], i) == LayOps(dev, i)
  {
    if i > 0 { LaidOps(dev, i - 1, j, data); }
  }

  lemma LaidLog(ops: seq<Op>, dev: seq<Block>, i: nat, data: Block)
    requires |dev| == RAW_BLOCKS && i < 1023
    ensures ops + LayOps(dev, i) + [Bypass(IndexId(i), data)] == ops + LayOps(dev[IndexId(i) := data], i + 1)
  {
    LaidOps(dev, i, i, data);
  }

  // One write of db_init.
  method LayIndex(c: Cache, ws: WordBlock, n: nat, i: nat, ghost dev: seq<Block>, ghost dev0: seq<Block>,
                  ghost ops: seq<Op>)
    returns (ghost dev': seq<Block>)
    requires Formatting(c, dev0, Store.START_DATA_BLOCK)
    requires |dev0| == RAW_BLOCKS && i < 1023 && c.log.ops == ops + LayOps(dev0, i)
    requires FitsWords(n) && i < IndexCount(n) && n <= MOST && LaidTo(dev, dev0, n, i)
    requires forall j :: 0 <= j < ENTRIES ==> ws[j] == IndexWord(n, i, j)
    modifies c`add, c`abs, c.log
    ensures Formatting(c, dev', Store.START_DATA_BLOCK) && LaidTo(dev, dev', n, i + 1)
    ensures c.log.ops == ops + LayOps(dev', i + 1)
  {
    LaidLog(ops, dev0, i, Bytes(ws));
    LaidNext(dev, dev0, n, i, ws);
    Bypassing(c, Bytes(ws), Store.START_DATA_BLOCK + i * ENTRIES, dev0, Store.START_DATA_BLOCK);
    dev' := dev0[IndexId(i) := Bytes(ws)];
  }

  // The full index blocks of db_init...
  method LayFull(c: Cache, numFree: nat, ghost dev: seq<Block>, ghost ops: seq<Op>) returns (ghost dev': seq<Block>)
    requires |dev| == RAW_BLOCKS && Formatting(c, dev, Store.START_DATA_BLOCK) && numFree <= MOST && c.log.ops == ops
    modifies c`add, c`abs, c.log
    ensures Formatting(c, dev', Store.START_DATA_BLOCK) && FitsWords(numFree)
    ensures numFree / ENTRIES <= IndexCount(numFree) <= 1023 && LaidTo(dev, dev', numFree, numFree / ENTRIES)
    ensures c.log.ops == ops + LayOps(dev', numFree / ENTRIES)
  {
    dev' := dev;
    var maxIndex := numFree / ENTRIES;
    var input: WordBlock :| true;
    for i := 0 to maxIndex
      invariant Formatting(c, dev', Store.START_DATA_BLOCK) && FitsWords(numFree)
      invariant maxIndex <= IndexCount(numFree) <= 1023 && LaidTo(dev, dev', numFree, i)
      invariant c.log.ops == ops + LayOps(dev', i)
    {
      input := FullIndex(numFree, i, input);
      dev' := LayIndex(c, input, numFree, i, dev, dev', ops);
    }
  }

  // ... and all of them.
  method DbInit(c: Cache, ghost dev: seq<Block>, ghost n: nat) returns (ghost dev': seq<Block>)
    requires |dev| == RAW_BLOCKS && Formatting(c, dev, Store.START_DATA_BLOCK)
    requires n == Words(dev[0])[Store.NUM_FREE_BLOCK] <= MOST
    modifies c`add, c`abs, c.list, c.list.members, c.hashTable, c.hashTable.list, c.hashTable.Repr, c.buffer, c.log
    ensures Formatting(c, dev', Store.START_DATA_BLOCK) && fresh(c.hashTable.Repr - old(c.hashTable.Repr))
    ensures FitsWords(n) && LaidTo(dev, dev', n, IndexCount(n)) && IndexCount(n) <= 1023
    ensures c.log.ops == old(c.log.ops) + [Read(0)] + LayOps(dev', IndexCount(n))
  {
    var super := SbRead(c, dev, Store.START_DATA_BLOCK);
    assert super[Store.NUM_FREE_BLOCK] == n;
    var numFree := super[Store.NUM_FREE_BLOCK];
    ghost var ops := c.log.ops;
    dev' := LayFull(c, numFree, dev, ops);
    var maxIndex := numFree / ENTRIES;
    if numFree - maxIndex * ENTRIES > 0 {
      var input := LastIndex(numFree);
      dev' := LayIndex(c, input, numFree, maxIndex, dev, dev', ops);
    }
  }

  // What mkfs asks of the cache, for the device it leaves and the number of index blocks.
  function MkfsOps(dev: seq<Block>, count: nat): seq<Op>
    requires |dev| == RAW_BLOCKS && count <= 1023
  {
    [Bypass(0, dev[0])]
    + [Read(0)] + FillOps(Bytes(BlockMap.Zeros()), Store.START_BITMAP, Store.START_ILIST)
    + [Read(0)] + FillOps(dev[Store.START_ILIST], Store.START_ILIST, Store.START_DATA_BLOCK)
    + [Read(0)] + LayOps(dev, count)
  }

  // What a formatted device holds.
  ghost predicate Formatted(dev: seq<Block>, numBlock: Word, numFree: Word, padding: Word)
  {
    && |dev| == RAW_BLOCKS && numFree <= MOST && FitsWords(numFree)
    && SuperOk(Words(dev[0]), numBlock, numFree)
    && (forall b :: Store.START_BITMAP <= b < Store.START_ILIST ==> dev[b] == Bytes(BlockMap.Zeros()))
    && (forall b :: Store.START_ILIST <= b < Store.START_DATA_BLOCK ==>
         TableOf(Words(dev[b]), DefaultRecord(padding), Inodes.PER_BLOCK))
    && forall i, j :: 0 <= i < IndexCount(numFree) && 0 <= j < ENTRIES && IndexId(i) < |dev| ==>
         Words(dev[IndexId(i)])[j] == IndexWord(numFree, i, j)
  }

  // mkfs before pcd_mkroot, on a cache of at least three buffers that holds nothing yet.  The view has the superblock,
  // an empty bitmap, default inodes and the free list, whatever was on the device.
  method Mkfs(c: Cache, numBlock: Word, numFree: Word, clock: (Word, Word, Word), rest: seq<Word>, padding: Word,
              ghost dev: seq<Block>)
    returns (ghost dev': seq<Block>)
    requires |dev| == RAW_BLOCKS && Formatting(c, dev, 0) && numFree <= MOST
    requires Store.START_DATA_BLOCK + numFree <= numBlock < RAW_BLOCKS
    requires |rest| == ENTRIES - Store.SB_WORDS
    modifies c`add, c`abs, c.list, c.list.members, c.hashTable, c.hashTable.list, c.hashTable.Repr, c.buffer, c.log
    ensures Formatting(c, dev', Store.START_DATA_BLOCK) && fresh(c.hashTable.Repr - old(c.hashTable.Repr))
    ensures Formatted(dev', numBlock, numFree, padding)
    ensures IndexCount(numFree) <= 1023 && c.log.ops == old(c.log.ops) + MkfsOps(dev', IndexCount(numFree))
  {
    ghost var ops := c.log.ops;
    ghost var dev1 := SbInit(c, numBlock, numFree, clock, rest, dev);
    ghost var dev2 := InodeBitmapInit(c, dev1);
    ghost var dev3, table := InodeListInit(c, padding, dev2);
    dev' := DbInit(c, dev3, numFree);
    Assembled(dev1, dev2, dev3, dev', numBlock, numFree, padding, table);
    MkfsLog(ops, c.log.ops, dev1, dev2, dev3, dev', table, numFree);
  }

  lemma MkfsLog(ops: seq<Op>, ops': seq<Op>, dev1: seq<Block>, dev2: seq<Block>, dev3: seq<Block>, dev: seq<Block>,
                table: WordBlock, n: nat)
    requires |dev1| == RAW_BLOCKS && FitsWords(n) && n <= MOST && IndexCount(n) <= 1023
    requires Filled(dev1, dev2, Store.START_BITMAP, Store.START_ILIST, Bytes(BlockMap.Zeros()))
    requires Filled(dev2, dev3, Store.START_ILIST, Store.START_DATA_BLOCK, Bytes(table))
    requires LaidTo(dev3, dev, n, IndexCount(n))
    requires ops' == ops + [Bypass(0, dev1[0])]
      + [Read(0)] + FillOps(Bytes(BlockMap.Zeros()), Store.START_BITMAP, Store.START_ILIST)
      + [Read(0)] + FillOps(Bytes(table), Store.START_ILIST, Store.START_DATA_BLOCK)
      + [Read(0)] + LayOps(dev, IndexCount(n))
    ensures ops' == ops + MkfsOps(dev, IndexCount(n))
  {
    assert dev[0] == dev1[0] && dev[Store.START_ILIST] == Bytes(table);
    Joined(ops, [Bypass(0, dev1[0])],
           [Read(0)], FillOps(Bytes(BlockMap.Zeros()), Store.START_BITMAP, Store.START_ILIST),
           [Read(0)], FillOps(Bytes(table), Store.START_ILIST, Store.START_DATA_BLOCK),
           [Read(0)], LayOps(dev, IndexCount(n)));
  }

  lemma Joined(ops: seq<Op>, a: seq<Op>, b: seq<Op>, c: seq<Op>, d: seq<Op>, e: seq<Op>, f: seq<Op>, g: seq<Op>)
    ensures ops + a + b + c + d + e + f + g == ops + (a + b + c + d + e + f + g)
  {
    assert ops + a + b + c == ops + (a + b + c);
    assert ops + (a + b + c) + d + e == ops + (a + b + c + d + e);
  }

  lemma Assembled(dev1: seq<Block>, dev2: seq<Block>, dev3: seq<Block>, dev: seq<Block>, numBlock: Word, numFree: Word,
                  padding: Word, table: WordBlock)
    requires |dev1| == RAW_BLOCKS && SuperOk(Words(dev1[0]), numBlock, numFree)
    requires TableOf(table, DefaultRecord(padding), Inodes.PER_BLOCK)
    requires Filled(dev1, dev2, Store.START_BITMAP, Store.START_ILIST, Bytes(BlockMap.Zeros()))
    requires Filled(dev2, dev3, Store.START_ILIST, Store.START_DATA_BLOCK, Bytes(table))
    requires FitsWords(numFree) && numFree <= MOST && LaidTo(dev3, dev, numFree, IndexCount(numFree))
    ensures Formatted(dev, numBlock, numFree, padding)
  {
    WordsRoundTrip(table);
  }

  lemma StartReady(k: nat, raw: seq<Block>)
    requires 3 <= k && |raw| == RAW_BLOCKS
    ensures Ready(CacheTraces.Init(k, raw), 0) && Shows(CacheTraces.Init(k, raw), raw)
  {
    var st := CacheTraces.Init(k, raw);
    forall b: nat
      ensures !Cached(st, b) && (b < RAW_BLOCKS ==> View(st, b) == raw[b])
    {
      FindNone(st.slots, b);
      PositionWraps(b);
    }
  }

  // What mkfs asks of the cache up to the n-th bitmap block: sb_init writes the superblock behind the cache,
  // inode_bitmap_init reads it, and so does each of its db_writes.
  function BitmapOps(super: Block, bitmap: Block, n: nat): seq<Op>
  {
    if n == 0 then [Bypass(0, super), Read(0)] else BitmapOps(super, bitmap, n - 1) + [Read(0)] + [Write(n, bitmap)]
  }

  lemma {:induction false} BitmapFill(super: Block, bitmap: Block, n: nat)
    ensures BitmapOps(super, bitmap, n) == [Bypass(0, super)] + [Read(0)] + FillOps(bitmap, 1, n + 1)
  {
    if n > 0 { BitmapFill(super, bitmap, n - 1); }
  }

  // It is how mkfs starts.
  lemma MkfsStarts(dev: seq<Block>, count: nat)
    requires |dev| == RAW_BLOCKS && count <= 1023
    ensures BitmapOps(dev[0], Bytes(BlockMap.Zeros()), 10) + [Read(0)] + [Read(0)] <= MkfsOps(dev, count)
  {
    BitmapFill(dev[0], Bytes(BlockMap.Zeros()), 10);
    FillStarts(dev[Store.START_ILIST], Store.START_ILIST, Store.START_DATA_BLOCK);
  }

  lemma {:induction false} FillStarts(data: Block, lo: nat, hi: nat)
    requires lo < hi
    ensures [Read(0)] <= FillOps(data, lo, hi)
    decreases hi
  {
    if lo < hi - 1 { FillStarts(data, lo, hi - 1); }
  }

  lemma Snoc(st: State, ops: seq<Op>, op: Op)
    requires |st.raw| == RAW_BLOCKS && 2 <= |st.slots|
    ensures CacheTraces.Run(st, ops + [op]) == Step(CacheTraces.Run(st, ops), op)
    ensures CacheTraces.Untripped(st, ops + [op]) <==>
      CacheTraces.Untripped(st, ops) && !Trips(CacheTraces.Run(st, ops), op)
  {
    assert (ops + [op])[..|ops|] == ops;
  }

  // A cache of two buffers after n bitmap blocks: the superblock is behind the last of them.
  predicate Pushed(st: State, n: nat)
  {
    && |st.raw| == RAW_BLOCKS && |st.slots| == 2 && !st.stale
    && (if n == 0 then Holds(st.slots[0], 0) && st.slots[1].Unused? else Holds(st.slots[0], n) && Holds(st.slots[1], 0))
  }

  lemma TwoBuffersStart(raw: seq<Block>, super: Block, bitmap: Block)
    requires |raw| == RAW_BLOCKS
    ensures var st0, ops := CacheTraces.Init(2, raw), BitmapOps(super, bitmap, 0);
      CacheTraces.Untripped(st0, ops) && Pushed(CacheTraces.Run(st0, ops), 0)
  {
    var st0 := CacheTraces.Init(2, raw);
    var st1 := Step(st0, Bypass(0, super));
    Snoc(st0, [], Bypass(0, super));
    Snoc(st0, [Bypass(0, super)], Read(0));
    assert [] + [Bypass(0, super)] == [Bypass(0, super)];
    assert [Bypass(0, super)] + [Read(0)] == BitmapOps(super, bitmap, 0);
    FindNone(st1.slots, 0);
  }

  lemma TwoBuffersTurn(st: State, n: nat, bitmap: Block)
    requires Pushed(st, n)
    ensures var st1 := Step(st, Read(0));
      !Trips(st, Read(0)) && !Trips(st1, Write(n + 1, bitmap)) && Pushed(Step(st1, Write(n + 1, bitmap)), n + 1)
  {
    assert Find(st.slots, 0) == if n == 0 then 0 else 1;
    var st1 := Step(st, Read(0));
    assert Holds(st1.slots[0], 0) && !Holds(st1.slots[1], n + 1);
    FindNone(st1.slots, n + 1);
  }

  lemma TwoBuffersNext(st0: State, ops: seq<Op>, n: nat, bitmap: Block)
    requires |st0.raw| == RAW_BLOCKS && 2 <= |st0.slots|
    requires CacheTraces.Untripped(st0, ops) && Pushed(CacheTraces.Run(st0, ops), n)
    ensures var ops' := ops + [Read(0)] + [Write(n + 1, bitmap)];
      CacheTraces.Untripped(st0, ops') && Pushed(CacheTraces.Run(st0, ops'), n + 1)
  {
    Snoc(st0, ops, Read(0));
    Snoc(st0, ops + [Read(0)], Write(n + 1, bitmap));
    TwoBuffersTurn(CacheTraces.Run(st0, ops), n, bitmap);
  }

  // With two buffers, every bitmap block pushes the superblock to the tail.
  lemma {:induction false} TwoBuffersFilled(raw: seq<Block>, super: Block, bitmap: Block, n: nat)
    requires |raw| == RAW_BLOCKS
    ensures var st0, ops := CacheTraces.Init(2, raw), BitmapOps(super, bitmap, n);
      CacheTraces.Untripped(st0, ops) && Pushed(CacheTraces.Run(st0, ops), n)
  {
    if n == 0 {
      TwoBuffersStart(raw, super, bitmap);
    } else {
      TwoBuffersFilled(raw, super, bitmap, n - 1);
      TwoBuffersNext(CacheTraces.Init(2, raw), BitmapOps(super, bitmap, n - 1), n - 1, bitmap);
    }
  }

  // With only two buffers the superblock is at the tail when the bitmap is written, and the two reads of it that open
  // inode_list_init, its own and that of its first db_write, break the list: the first operation of mkfs to do so.
  lemma TwoBuffersTrip(raw: seq<Block>, super: Block, bitmap: Block)
    requires |raw| == RAW_BLOCKS
    ensures var n := Store.START_ILIST - Store.START_BITMAP;
      var st0, ops := CacheTraces.Init(2, raw), BitmapOps(super, bitmap, n) + [Read(0)];
      CacheTraces.Untripped(st0, ops) && Trips(CacheTraces.Run(st0, ops), Read(0)) &&
      !CacheTraces.SafeTrace(ops + [Read(0)], 2)
  {
    var st0, ops := CacheTraces.Init(2, raw), BitmapOps(super, bitmap, Store.START_ILIST - Store.START_BITMAP);
    TwoBuffersFilled(raw, super, bitmap, Store.START_ILIST - Store.START_BITMAP);
    Snoc(st0, ops, Read(0));
    TwoBuffersTwice(CacheTraces.Run(st0, ops), Store.START_ILIST - Store.START_BITMAP);
    Snoc(st0, ops + [Read(0)], Read(0));
    CacheTraces.SafeExactly(2, raw, ops + [Read(0)] + [Read(0)]);
  }

  lemma TwoBuffersTwice(st: State, n: nat)
    requires Pushed(st, n) && n > 0
    ensures !Trips(st, Read(0)) && Trips(Step(st, Read(0)), Read(0))
  {
    assert Find(st.slots, 0) == 1;
  }

  // initialize and mkfs over any device.
  method FormatDevice(k: nat, raw: seq<Block>, numBlock: Word, numFree: Word, clock: (Word, Word, Word),
                      rest: seq<Word>, padding: Word)
    returns (c: Cache, ghost dev: seq<Block>)
    requires 3 <= k && |raw| == RAW_BLOCKS && numFree <= MOST
    requires Store.START_DATA_BLOCK + numFree <= numBlock < RAW_BLOCKS
    requires |rest| == ENTRIES - Store.SB_WORDS
    ensures c.Valid() && Shows(c.abs, dev) && Formatted(dev, numBlock, numFree, padding)
    ensures IndexCount(numFree) <= 1023 && c.log.ops == MkfsOps(dev, IndexCount(numFree))
  {
    c := new Cache(k, raw);
    StartReady(k, raw);
    assert Formatting(c, raw, 0);
    dev := Mkfs(c, numBlock, numFree, clock, rest, padding, raw);
    assert FreeList.Unsealed(true);
  }

  // ---------- the formatted file system ----------

  // The device seen through the cache, as words.
  function AsWords(dev: seq<Block>): (d: Store.Disk)
    ensures |d| == |dev| && forall b :: 0 <= b < |d| ==> d[b] == Words(dev[b])
  {
    seq(|dev|, b requires 0 <= b < |dev| => Words(dev[b]))
  }

  lemma FormattedList(dev: seq<Block>, numBlock: Word, numFree: Word, padding: Word)
    requires Formatted(dev, numBlock, numFree, padding) && Store.START_DATA_BLOCK + numFree <= numBlock < RAW_BLOCKS
    ensures Store.Sized(AsWords(dev))
    ensures FreeList.Records(AsWords(dev), ChainFrom(0, IndexCount(numFree)),
                             Range(Store.START_DATA_BLOCK, Store.START_DATA_BLOCK + numFree))
  {
    var d := AsWords(dev);
    forall i, j | 0 <= i < IndexCount(numFree) && 0 <= j < ENTRIES
      ensures Store.W(d, IndexId(i))[j] == IndexWord(numFree, i, j)
    {
      assert IndexId(i) < |dev|;
      assert d[IndexId(i)] == Words(dev[IndexId(i)]);
    }
    InitialListOk(d, numFree);
  }

  // An all-zero bitmap block marks nothing.
  lemma ZeroMark(ws: WordBlock, k: nat)
    requires ws == BlockMap.Zeros() && k < DB_SIZE
    ensures Bytes(ws)[k] == 0
  {
    ZeroBytes(ws);
  }

  lemma FormattedMark(dev: seq<Block>, numBlock: Word, numFree: Word, padding: Word, i: nat)
    requires Formatted(dev, numBlock, numFree, padding) && i < Inodes.NUM_INODE
    ensures !Inodes.InUse(AsWords(dev), i)
  {
    Inodes.TableRange(i);
    ZeroWords(dev, Store.START_BITMAP + i / DB_SIZE);
    Unmarked(AsWords(dev), i);
  }

  lemma Unmarked(d: Store.Disk, i: nat)
    requires Store.W(d, Store.START_BITMAP + i / DB_SIZE) == BlockMap.Zeros()
    ensures !Inodes.InUse(d, i)
  {
    ZeroMark(BlockMap.Zeros(), i % DB_SIZE);
  }

  lemma ZeroWords(dev: seq<Block>, b: nat)
    requires b < |dev| && dev[b] == Bytes(BlockMap.Zeros())
    ensures Store.W(AsWords(dev), b) == BlockMap.Zeros()
  {
    WordsRoundTrip(BlockMap.Zeros());
  }

  lemma FormattedRecord(dev: seq<Block>, numBlock: Word, numFree: Word, padding: Word, i: nat)
    requires Formatted(dev, numBlock, numFree, padding) && i < Inodes.NUM_INODE
    ensures Inodes.InodeAt(AsWords(dev), i) == DefaultRecord(padding)
  {
    var t := Inodes.TableBlock(i);
    Inodes.TableRange(i);
    assert TableOf(Words(dev[t]), DefaultRecord(padding), Inodes.PER_BLOCK);
    assert Store.W(AsWords(dev), t) == Words(dev[t]);
  }

  // What mkfs leaves, whatever was on the device before: a file system without inodes in use, with default records,
  // whose free list holds exactly the numFree blocks of the data region.
  lemma FormattedFs(dev: seq<Block>, numBlock: Word, numFree: Word, padding: Word)
    requires Formatted(dev, numBlock, numFree, padding) && Store.START_DATA_BLOCK + numFree <= numBlock < RAW_BLOCKS
    ensures var d, free := AsWords(dev), Range(Store.START_DATA_BLOCK, Store.START_DATA_BLOCK + numFree);
      && FreeList.Records(d, ChainFrom(0, IndexCount(numFree)), free) && BlockMap.FsOk(d, free, map[], {})
      && forall i :: 0 <= i < Inodes.NUM_INODE ==> !Inodes.InUse(d, i) && Inodes.InodeAt(d, i) == DefaultRecord(padding)
  {
    FormattedList(dev, numBlock, numFree, padding);
    forall i | 0 <= i < Inodes.NUM_INODE
      ensures !Inodes.InUse(AsWords(dev), i) && Inodes.InodeAt(AsWords(dev), i) == DefaultRecord(padding)
    {
      FormattedMark(dev, numBlock, numFree, padding, i);
      FormattedRecord(dev, numBlock, numFree, padding, i);
    }
    var free := Range(Store.START_DATA_BLOCK, Store.START_DATA_BLOCK + numFree);
    BlockMap.Close(AsWords(dev), free, map[], {});
  }

  // That device, taken over by the layers above.
  method Mount(dev: seq<Block>, ghost numBlock: Word, ghost numFree: Word, ghost padding: Word)
    returns (s: Store.Device)
    requires Formatted(dev, numBlock, numFree, padding) && Store.START_DATA_BLOCK + numFree <= numBlock < RAW_BLOCKS
    ensures BlockMap.Fs(s) && s.blocks == AsWords(dev)
    ensures s.live == {} && s.own == map[] && s.free == Range(Store.START_DATA_BLOCK, Store.START_DATA_BLOCK + numFree)
  {
    FormattedFs(dev, numBlock, numFree, padding);
    s := new Store.Device(AsWords(dev));
    s.chain := ChainFrom(0, IndexCount(numFree));
    s.free := Range(Store.START_DATA_BLOCK, Store.START_DATA_BLOCK + numFree);
  }
}
