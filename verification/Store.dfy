// The block device as the layers above the cache see it, and the superblock in block 0.

module Store {
  import opened Blocks
  import CacheSpec
  import Calls

  // Places of the superblock fields, in words; the struct takes the first SB_WORDS words of block 0.  Word 5 is
  // padding, and the mount time and the two sizes take two words each.
  const SB_WORDS := 24
  const NUM_BLOCK := 0
  const NUM_FREE_BLOCK := 1
  const SB_INODE_PER_BLOCK := 2
  const SB_NUM_DATABLOCK := 3
  const SB_NUM_MOUNT_TIME := 4
  const SB_MOUNT_TIME := 6
  const SB_FILESIZE := 8
  const SB_MAX_FILE_SIZE := 10
  const SB_BLOCKSIZE := 12
  const SB_MAX_NUM_INODE := 13
  const SB_START_DATA_BLOCK := 14
  const SB_START_ILIST := 15
  const SB_START_BITMAP := 16
  const FREE_LIST := 17
  const SB_DIR_ID_NUM := 18
  const SB_INDIR_ID_NUM := 19
  const SB_D_INDIR_ID_NUM := 20
  const SB_T_INDIR_ID_NUM := 21
  const SB_INODE_SIZE := 22
  const SB_ROOT_INUM := 23

  // Fixed by sb_init and never rewritten.
  const START_BITMAP := 1
  const START_ILIST := 11
  const START_DATA_BLOCK := 1291

  type SuperBlock = s: seq<Word> | |s| == SB_WORDS witness seq(SB_WORDS, _ => 0)

  // A place of an inode's block map that can hold a block id: the entry for data block `num`, the single or double
  // indirect pointer, or entry j of the double indirect block.
  datatype Ref = Data(num: nat) | Single | Double | Ind(j: nat)

  datatype Owner = Owner(inum: nat, ref: Ref)

  // The contents of a device.
  type Disk = seq<WordBlock>

  // A plain array of blocks: what CacheTraces.RunTransparent says the cache is.  A block is kept as its words, which
  // determine its bytes and are determined by them (Blocks.WordsRoundTrip, Blocks.BytesRoundTrip).
  class Device {
    var blocks: Disk
    // The index blocks of the free list, head first.
    ghost var chain: seq<nat>
    // The blocks they record.
    ghost var free: set<nat>
    // The inodes in use, and the reference that owns each block they use.
    ghost var live: set<nat>
    ghost var own: map<nat, Owner>

    // Every access made through Read and Write.
    const log: Calls.Log

    constructor (blocks: Disk)
      ensures this.blocks == blocks && chain == [] && free == {} && live == {} && own == map[]
      ensures fresh(log) && log.ops == []
    {
      this.blocks, chain, free, live, own := blocks, [], {}, {}, map[];
      log := new Calls.Log();
    }

    // disk_read
    method Read(b: nat) returns (data: WordBlock)
      requires b < |blocks|
      modifies log
      ensures data == blocks[b] && log.ops == old(log.ops) + [CacheSpec.Read(b)]
    {
      data := blocks[b];
      log.ops := log.ops + [CacheSpec.Read(b)];
    }

    // disk_write
    method Write(data: WordBlock, b: nat)
      requires b < |blocks|
      modifies `blocks, log
      ensures blocks == old(blocks)[b := data] && log.ops == old(log.ops) + [CacheSpec.Write(b, Bytes(data))]
    {
      blocks := blocks[b := data];
      log.ops := log.ops + [CacheSpec.Write(b, Bytes(data))];
    }
  }

  // Block b as unsigned ints.
  function W(d: Disk, b: nat): WordBlock
  {
    if b < |d| then d[b] else seq(ENTRIES, _ => 0)
  }

  // The device holds a superblock and every block it counts.
  predicate Sized(d: Disk)
  {
    0 < |d| && START_DATA_BLOCK <= W(d, 0)[NUM_BLOCK] < |d|
  }

  function NumBlock(d: Disk): nat
  {
    W(d, 0)[NUM_BLOCK]
  }

  function NumFree(d: Disk): nat
  {
    W(d, 0)[NUM_FREE_BLOCK]
  }

  function FreeHead(d: Disk): nat
  {
    W(d, 0)[FREE_LIST]
  }

  predicate InData(d: Disk, b: nat)
  {
    START_DATA_BLOCK <= b < NumBlock(d)
  }

  // sb_read
  method SbRead(s: Device) returns (super: SuperBlock)
    requires 0 < |s.blocks|
    modifies s.log
    ensures s.log.ops == old(s.log.ops) + Calls.Accesses(Calls.SbRead)
    ensures forall i :: 0 <= i < SB_WORDS ==> super[i] == W(s.blocks, 0)[i]
  {
    var ws := s.Read(0);
    super := ws[..SB_WORDS];
  }

  // sb_write: the struct is copied into a fresh, uninitialised buffer, so the rest of block 0 is arbitrary.
  method SbWrite(s: Device, super: SuperBlock)
    requires 0 < |s.blocks|
    modifies s.log, s`blocks
    ensures |s.blocks| == |old(s.blocks)|
    ensures s.log.ops == old(s.log.ops) + Calls.Accesses(Calls.SbWrite(Bytes(s.blocks[0])))
    ensures forall i :: 0 <= i < SB_WORDS ==> s.blocks[0][i] == super[i]
    ensures forall c :: 0 < c < |s.blocks| ==> s.blocks[c] == old(s.blocks[c])
  {
    assert |seq(ENTRIES - SB_WORDS, _ => 0 as Word)| == ENTRIES - SB_WORDS;
    var junk: seq<Word> :| |junk| == ENTRIES - SB_WORDS;
    s.Write(super + junk, 0);
  }

  // db_read: ids above NUM_BLOCK are refused.
  method DbRead(s: Device, b: nat) returns (data: Option<WordBlock>)
    requires Sized(s.blocks)
    modifies s.log
    ensures data == if b > NumBlock(s.blocks) then None else Some(s.blocks[b])
    ensures s.log.ops == old(s.log.ops) + Calls.Accesses(if data.None? then Calls.SbRead else Calls.DbRead(b))
  {
    ghost var ops := s.log.ops;
    var super := SbRead(s);
    if b > super[NUM_BLOCK] {
      return None;
    }
    var block := s.Read(b);
    data := Some(block);
    assert s.log.ops == ops + Calls.Accesses(Calls.DbRead(b));
  }

  // db_write
  method DbWrite(s: Device, data: WordBlock, b: nat) returns (ok: bool)
    requires Sized(s.blocks)
    modifies s.log, s`blocks
    ensures ok == (b <= NumBlock(old(s.blocks)))
    ensures s.blocks == if ok then old(s.blocks)[b := data] else old(s.blocks)
    ensures s.log.ops == old(s.log.ops) + Calls.Accesses(if ok then Calls.DbWrite(b, Bytes(data)) else Calls.SbRead)
  {
    ghost var ops := s.log.ops;
    var super := SbRead(s);
    if b > super[NUM_BLOCK] {
      return false;
    }
    s.Write(data, b);
    ok := true;
    assert s.log.ops == ops + Calls.Accesses(Calls.DbWrite(b, Bytes(data)));
  }
}
