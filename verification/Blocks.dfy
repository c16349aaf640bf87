// Blocks, words and device positions: the vocabulary shared by every layer.

module Blocks {

  const DB_SIZE := 4096
  // Unsigned ints in one block.
  const ENTRIES := 1024
  const UINT_MAX := 0xFFFF_FFFF
  // Blocks that a 32-bit byte offset can tell apart.
  const RAW_BLOCKS := 0x10_0000

  type Byte = x: int | 0 <= x < 256
  type Word = x: int | 0 <= x <= UINT_MAX
  type Block = b: seq<Byte> | |b| == DB_SIZE witness seq(DB_SIZE, _ => 0)
  type WordBlock = w: seq<Word> | |w| == ENTRIES witness seq(ENTRIES, _ => 0)

  datatype Option<+T> = None | Some(value: T)

  // ---------- little-endian words ----------

  function Little(b0: int, b1: int, b2: int, b3: int): int
  {
    b0 + 0x100 * b1 + 0x1_0000 * b2 + 0x100_0000 * b3
  }

  function ByteOf(w: Word, k: nat): Byte
    requires k < 4
  {
    if k == 0 then w % 0x100
    else if k == 1 then w / 0x100 % 0x100
    else if k == 2 then w / 0x1_0000 % 0x100
    else w / 0x100_0000 % 0x100
  }

  function Decode(b: seq<Byte>): (ws: seq<Word>)
    ensures |ws| == |b| / 4
  {
    if |b| < 4 then [] else [Little(b[0], b[1], b[2], b[3])] + Decode(b[4..])
  }

  function Encode(ws: seq<Word>): (b: seq<Byte>)
    ensures |b| == 4 * |ws|
  {
    if ws == [] then [] else
      [ByteOf(ws[0], 0), ByteOf(ws[0], 1), ByteOf(ws[0], 2), ByteOf(ws[0], 3)] + Encode(ws[1..])
  }

  // memcpy of a block into an array of unsigned ints.
  function Words(b: Block): WordBlock
  {
    Decode(b)
  }

  // memcpy of an array of unsigned ints into a block.
  function Bytes(ws: WordBlock): Block
  {
    Encode(ws)
  }

  lemma WordBytes(w: Word)
    ensures w == Little(ByteOf(w, 0), ByteOf(w, 1), ByteOf(w, 2), ByteOf(w, 3))
  {
    var a, b, c := w / 0x100, w / 0x1_0000, w / 0x100_0000;
    assert b == a / 0x100 && c == b / 0x100 && c < 0x100;
  }

  lemma LittleBytes(b0: Byte, b1: Byte, b2: Byte, b3: Byte)
    ensures var w := Little(b0, b1, b2, b3);
      ByteOf(w, 0) == b0 && ByteOf(w, 1) == b1 && ByteOf(w, 2) == b2 && ByteOf(w, 3) == b3
  {
    var w := Little(b0, b1, b2, b3);
    assert w / 0x100 == b1 + 0x100 * b2 + 0x1_0000 * b3;
    assert w / 0x1_0000 == b2 + 0x100 * b3;
    assert w / 0x100_0000 == b3;
  }

  lemma {:induction false} DecodeEncode(ws: seq<Word>)
    ensures Decode(Encode(ws)) == ws
  {
    if ws != [] {
      WordBytes(ws[0]);
      DecodeEncode(ws[1..]);
      assert Encode(ws)[4..] == Encode(ws[1..]);
    }
  }

  lemma {:induction false} EncodeDecode(b: seq<Byte>)
    requires |b| % 4 == 0
    ensures Encode(Decode(b)) == b
  {
    if b != [] {
      LittleBytes(b[0], b[1], b[2], b[3]);
      EncodeDecode(b[4..]);
      assert Decode(b)[1..] == Decode(b[4..]);
    }
  }

  // The unsigned int at byte i.
  function Field(b: seq<Byte>, i: nat): int
    requires i + 4 <= |b|
  {
    (b[i] as int) + 256 * (b[i + 1] as int) + 65536 * (b[i + 2] as int) + 16777216 * (b[i + 3] as int)
  }

  lemma {:induction false} DecodeAt(b: seq<Byte>, k: nat)
    requires 4 * k + 4 <= |b|
    ensures Decode(b)[k] == Field(b, 4 * k)
  {
    if k > 0 { DecodeAt(b[4..], k - 1); }
  }

  // Word k of a block is the little-endian one at byte 4 * k.
  lemma WordAt(b: Block, k: nat)
    requires k < ENTRIES
    ensures Words(b)[k] == Field(b, 4 * k)
  {
    DecodeAt(b, k);
  }

  lemma WordsRoundTrip(ws: WordBlock)
    ensures Words(Bytes(ws)) == ws
  {
    DecodeEncode(ws);
  }

  // A block is determined by its words, so the word view and the byte view agree.
  lemma BytesRoundTrip(b: Block)
    ensures Bytes(Words(b)) == b
  {
    EncodeDecode(b);
  }

  lemma {:induction false} ZeroBytes(ws: seq<Word>)
    requires forall i :: 0 <= i < |ws| ==> ws[i] == 0
    ensures forall k :: 0 <= k < 4 * |ws| ==> Encode(ws)[k] == 0
  {
    if ws != [] { ZeroBytes(ws[1..]); }
  }

  // ---------- device positions ----------

  // lseek(add, block_id * DB_SIZE): the product is taken on 32 bits.
  function Position(b: nat): (p: nat)
    ensures p < RAW_BLOCKS
  {
    (b * DB_SIZE) % 0x1_0000_0000 / DB_SIZE
  }

  // Position is the low 20 bits of the id: ids below 2^20 keep their own place on the device, and two ids share
  // a place exactly when they agree modulo 2^20.
  lemma PositionWraps(b: nat)
    ensures Position(b) == b % RAW_BLOCKS
    ensures b < RAW_BLOCKS <==> Position(b) == b
  {
    var q, r := b / RAW_BLOCKS, b % RAW_BLOCKS;
    assert b * DB_SIZE == q * 0x1_0000_0000 + r * DB_SIZE;
  }
}
