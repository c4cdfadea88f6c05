/** What the file system stores, one level above blocks: the two allocation maps, the inode
    table and the directory blocks, together with the four kinds of write that the code performs
    on them. Every block write of the file system is one `Write`; a crash keeps a prefix of them. */
module Volume {

  const INODES := 2048
  const DATA := 30720
  /** First data block; a direct pointer holds `DLIST + index`, and 0 when unused. */
  const DLIST := 1089
  const NUM_DIRECT := 44
  const SLOTS := 16
  const MAX_FNAME := 24
  const INUM_FREE := 568754

  datatype Option<+T> = None | Some(value: T)

  datatype Kind = Directory | Regular

  type Direct = s: seq<nat> | |s| == NUM_DIRECT witness seq(NUM_DIRECT, _ => 0)

  datatype Inode = Inode(kind: Kind, ino: nat, directp: Direct)

  datatype Slot = Slot(inum: nat, name: string)

  type Slots = s: seq<Slot> | |s| == SLOTS witness seq(SLOTS, _ => Slot(0, ""))

  datatype Store = Store(inodeMap: seq<bool>, dataMap: seq<bool>, inodes: seq<Inode>, dirs: seq<Slots>) {
    ghost predicate Sized() {
      |inodeMap| == |inodes| == INODES && |dataMap| == |dirs| == DATA
    }
  }

  datatype Write =
    | MarkInode(n: nat)
    | PutInode(n: nat, inode: Inode)
    | MarkData(n: nat)
    | PutDir(n: nat, slots: Slots)
  {
    ghost predicate InRegion() {
      match this
      case MarkInode(n) => n < INODES
      case PutInode(n, _) => n < INODES
      case MarkData(n) => n < DATA
      case PutDir(n, _) => n < DATA
    }
  }

  ghost function Apply(v: Store, w: Write): (r: Store)
    requires v.Sized() && w.InRegion()
    ensures r.Sized()
  {
    match w
    case MarkInode(n) => v.(inodeMap := v.inodeMap[n := true])
    case PutInode(n, i) => v.(inodes := v.inodes[n := i])
    case MarkData(n) => v.(dataMap := v.dataMap[n := true])
    case PutDir(n, s) => v.(dirs := v.dirs[n := s])
  }

  ghost predicate AllInRegion(ws: seq<Write>) {
    forall i :: 0 <= i < |ws| ==> ws[i].InRegion()
  }

  ghost function ApplyAll(v: Store, ws: seq<Write>): (r: Store)
    requires v.Sized() && AllInRegion(ws)
    ensures r.Sized()
  {
    if ws == [] then v else Apply(ApplyAll(v, ws[..|ws|-1]), ws[|ws|-1])
  }

  /** The allocation scans stop at the first zero byte of a map. */
  ghost function FirstFree(bits: seq<bool>): (n: nat)
    ensures n <= |bits|
    ensures forall i :: 0 <= i < n ==> bits[i]
    ensures n < |bits| ==> !bits[n]
  {
    if bits == [] || !bits[0] then 0 else 1 + FirstFree(bits[1..])
  }

  lemma FirstFreeIs(bits: seq<bool>, n: nat)
    requires n <= |bits|
    requires forall i :: 0 <= i < n ==> bits[i]
    requires n < |bits| ==> !bits[n]
    ensures FirstFree(bits) == n
  {}
}
