/** Blocks of the disk image and where each thing lives: block 0 is the superblock, blocks 1..4
    the inode map, 5..64 the data map, 65..1088 the inodes (two to a block), 1089.. the data. */
module DiskLayout {
  import opened Volume

  const BLOCK_SIZE := 512
  const DISK_BLOCKS := 32768
  const MAGIC := 4511000

  newtype byte = x: int | 0 <= x < 256

  type MapBytes = s: seq<byte> | |s| == BLOCK_SIZE witness seq(BLOCK_SIZE, _ => 0)

  datatype Block =
    | Untouched
    | Super(inodeMap: nat, iList: nat, dataMap: nat, dList: nat, magic: nat)
    | Map(bytes: MapBytes)
    | Pair(lo: Inode, hi: Inode)
    | Dir(slots: Slots)

  const SUPER := Super(1, 65, 5, 1089, MAGIC)

  function ZeroInode(): Inode { Inode(Regular, 0, seq(NUM_DIRECT, _ => 0)) }

  /** A block that was never written in the wanted shape reads as zeroes. */
  function AsMap(b: Block): MapBytes { if b.Map? then b.bytes else seq(BLOCK_SIZE, _ => 0) }
  function AsPair(b: Block): (Inode, Inode) { if b.Pair? then (b.lo, b.hi) else (ZeroInode(), ZeroInode()) }
  function AsDir(b: Block): Slots { if b.Dir? then b.slots else seq(SLOTS, _ => Slot(0, "")) }

  /** The inode with number `n` inside its block, and the block with that half replaced. */
  function Half(b: Block, n: nat): Inode { if n % 2 == 0 then AsPair(b).0 else AsPair(b).1 }
  function WithHalf(b: Block, n: nat, i: Inode): Block {
    if n % 2 == 0 then Pair(i, AsPair(b).1) else Pair(AsPair(b).0, i)
  }

  ghost predicate ImageSized(d: seq<Block>) { |d| == DISK_BLOCKS }

  /** The cells of the four tables inside an image. */
  ghost function MapBit(d: seq<Block>, first: nat, n: int): bool {
    0 <= n && first + n / 512 < |d| && AsMap(d[first + n / 512])[n % 512] != 0
  }
  ghost function InodeCell(d: seq<Block>, n: int): Inode {
    if 0 <= n && 65 + n / 2 < |d| then Half(d[65 + n / 2], n) else ZeroInode()
  }
  ghost function DirCell(d: seq<Block>, n: int): Slots {
    if 0 <= n && DLIST + n < |d| then AsDir(d[DLIST + n]) else AsDir(Untouched)
  }

  ghost function View(d: seq<Block>): (v: Store)
    requires ImageSized(d)
    ensures v.Sized()
  {
    Store(seq(INODES, n => MapBit(d, 1, n)), seq(DATA, n => MapBit(d, 5, n)),
          seq(INODES, n => InodeCell(d, n)), seq(DATA, n => DirCell(d, n)))
  }

  /** The block a write goes to, and the new content of that block. */
  function Target(w: Write): (b: nat) {
    match w
    case MarkInode(n) => 1 + n / 512
    case PutInode(n, _) => 65 + n / 2
    case MarkData(n) => 5 + n / 512
    case PutDir(n, _) => DLIST + n
  }

  function Image(old_: Block, w: Write): Block {
    match w
    case MarkInode(n) => Map(AsMap(old_)[n % 512 := 1])
    case PutInode(n, i) => WithHalf(old_, n, i)
    case MarkData(n) => Map(AsMap(old_)[n % 512 := 1])
    case PutDir(_, s) => Dir(s)
  }

  lemma InodeMapChanges(d: seq<Block>, w: Write, d': seq<Block>)
    requires ImageSized(d) && w.InRegion() && d' == d[Target(w) := Image(d[Target(w)], w)]
    ensures View(d').inodeMap == Apply(View(d), w).inodeMap
  {
  }

  lemma DataMapChanges(d: seq<Block>, w: Write, d': seq<Block>)
    requires ImageSized(d) && w.InRegion() && d' == d[Target(w) := Image(d[Target(w)], w)]
    ensures View(d').dataMap == Apply(View(d), w).dataMap
  {
  }

  /** Each write stays inside its own region, and in the four tables it changes one cell: the
      sibling inode, the other map bytes and the superblock are untouched. */
  lemma WriteChangesOneCell(d: seq<Block>, w: Write)
    requires ImageSized(d) && w.InRegion()
    ensures match w
      case MarkInode(_) => 1 <= Target(w) < 5
      case MarkData(_) => 5 <= Target(w) < 65
      case PutInode(_, _) => 65 <= Target(w) < 1089
      case PutDir(_, _) => 1089 <= Target(w) < 31809
    ensures View(d[Target(w) := Image(d[Target(w)], w)]) == Apply(View(d), w)
    ensures d[Target(w) := Image(d[Target(w)], w)][0] == d[0]
  {
    var d' := d[Target(w) := Image(d[Target(w)], w)];
    InodeMapChanges(d, w, d');
    DataMapChanges(d, w, d');
    assert View(d').inodes == Apply(View(d), w).inodes;
    assert View(d').dirs == Apply(View(d), w).dirs;
  }
}
