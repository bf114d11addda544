/** The RAM disk of drivers/drvrfs.c as values: what its blocks hold and which map from names to byte
    strings they stand for. Only the header fields the driver reads are kept. */
module Rfs {
  import opened Bits

  type byte = bv8

  const BLKSZ: nat := 0x1000     // FSYS_ALCBLKSZ
  const FIRST: nat := 0x200      // fmd_fileifstbkoff: where data and directory entries begin
  const ENTSZ: nat := 128        // bytes of rfsdir_t
  const SLOTS: nat := 28         // directory entries in one block
  const DATA: nat := 0xE00       // data bytes in one block
  const NAME_MAX: nat := 104     // DR_NM_MAX

  datatype Kind = Null | Directory | Plain | Deleted

  /** rfsdir_t. */
  datatype Entry = Entry(kind: Kind, blk: nat, name: string)

  /** fimgrhd_t: fmd_type, fmd_sfblk, fmd_filesz, fmd_fileifstbkoff, fmd_curfwritebk, fmd_curfinwbkoff and
      fmd_fleblk[0].fb_blkstart. */
  datatype Head = Head(kind: Kind, self: nat, size: nat, first: nat, wblk: nat, off: nat, blk0: nat)

  datatype Block = Raw
                 | Super(bmp: nat, all: nat, root: Entry)
                 | Bitmap(used: seq<nat>)
                 | Folder(head: Head, entries: seq<Entry>)
                 | File(head: Head, data: seq<byte>)

  const NO_ENTRY := Entry(Null, 0, "")

  // ---------------------------------------------------------------- paths

  /** A slash followed by a name without slashes that fits an entry. */
  predicate PathOk(path: string) {
    2 <= |path| < NAME_MAX && path[0] == '/' && '/' !in path[1..]
  }

  // ---------------------------------------------------------------- the map a disk stands for

  predicate Live(e: Entry) { e.kind == Plain }

  /** Super block and block map are where the driver looks for them. */
  ghost predicate Basic(bs: seq<Block>) {
    3 <= |bs| <= BLKSZ && bs[0].Super? && bs[0].bmp == 1 && bs[1].Bitmap? && |bs[1].used| == BLKSZ
  }

  /** Blocks 0 and 1 and those the device does not have are never free. */
  ghost predicate Reserved(bs: seq<Block>)
    requires Basic(bs)
  {
    forall b :: 0 <= b < BLKSZ && (b < 2 || b >= |bs|) ==> bs[1].used[b] != 0
  }

  /** Neither is the root directory. */
  ghost predicate Layout(bs: seq<Block>) {
    Basic(bs) && Reserved(bs) && 2 <= bs[0].root.blk < |bs| && bs[1].used[bs[0].root.blk] != 0
  }

  function Root(bs: seq<Block>): (r: nat)
    requires Layout(bs)
  {
    bs[0].root.blk
  }

  /** The directory is filled from the front, one entry after the other. */
  ghost predicate FolderOk(b: Block, r: nat) {
    && b.Folder? && |b.entries| == SLOTS
    && exists k: nat :: FolderFill(b, r, k)
  }

  ghost predicate FolderFill(b: Block, r: nat, k: nat) {
    && b.Folder? && |b.entries| == SLOTS && k <= SLOTS
    && b.head == Head(Directory, r, ENTSZ * k, FIRST, r, FIRST + ENTSZ * k, r)
    && forall i :: k <= i < SLOTS ==> b.entries[i] == NO_ENTRY
  }

  /** Block b holds a file with contents c. */
  ghost predicate FileAt(b: Block, blk: nat, c: seq<byte>) {
    && b.File? && |b.data| == DATA && |c| < DATA && b.data[..|c|] == c
    && b.head == Head(Plain, blk, |c|, FIRST, blk, FIRST + |c|, blk)
  }

  /** A live entry names a file whose block is marked and is neither block 0, block 1 nor the root. */
  ghost predicate EntryOk(bs: seq<Block>, files: map<string, seq<byte>>, e: Entry)
    requires Layout(bs)
  {
    && e.name != "" && e.name in files && 2 <= e.blk < |bs| && e.blk != Root(bs) && bs[1].used[e.blk] != 0
    && FileAt(bs[e.blk], e.blk, files[e.name])
  }

  ghost predicate EntriesOk(bs: seq<Block>, files: map<string, seq<byte>>, l: seq<Entry>)
    requires Layout(bs)
  {
    forall i :: 0 <= i < |l| && Live(l[i]) ==> EntryOk(bs, files, l[i])
  }

  /** Live entries have different names and different blocks. */
  ghost predicate Unique(l: seq<Entry>) {
    forall i, j :: 0 <= i < j < |l| && Live(l[i]) && Live(l[j]) ==> l[i].name != l[j].name && l[i].blk != l[j].blk
  }

  ghost predicate Complete(l: seq<Entry>, files: map<string, seq<byte>>) {
    forall f :: f in files ==> Find(l, f) < |l|
  }

  /** The first live entry of that name, |l| when there is none. */
  function Find(l: seq<Entry>, name: string): (i: nat)
    ensures i <= |l| && (i < |l| ==> Live(l[i]) && l[i].name == name)
    ensures forall j :: 0 <= j < i ==> !(Live(l[j]) && l[j].name == name)
  {
    if l == [] || (Live(l[0]) && l[0].name == name) then 0 else 1 + Find(l[1..], name)
  }

  /** The disk stands for this map from names to contents. */
  ghost predicate Refines(bs: seq<Block>, files: map<string, seq<byte>>) {
    && Layout(bs) && FolderOk(bs[Root(bs)], Root(bs))
    && EntriesOk(bs, files, bs[Root(bs)].entries) && Unique(bs[Root(bs)].entries)
      && Complete(bs[Root(bs)].entries, files)
  }

  /** A name is found exactly when the map has it. */
  lemma FoundIff(bs: seq<Block>, files: map<string, seq<byte>>, name: string)
    requires Refines(bs, files)
    ensures Find(bs[Root(bs)].entries, name) < SLOTS <==> name in files
    ensures name in files ==> EntryOk(bs, files, bs[Root(bs)].entries[Find(bs[Root(bs)].entries, name)])
  {
  }

  /** A disk stands for one map only. */
  lemma RefinesUnique(bs: seq<Block>, f: map<string, seq<byte>>, g: map<string, seq<byte>>)
    requires Refines(bs, f) && Refines(bs, g)
    ensures f == g
  {
    forall n | n in f || n in g ensures n in f && n in g && f[n] == g[n] {
      FoundIff(bs, f, n);
      FoundIff(bs, g, n);
    }
  }

  /** The first live entry with that block, |l| when there is none. */
  function Owner(l: seq<Entry>, b: nat): (i: nat)
    ensures i <= |l| && (i < |l| ==> Live(l[i]) && l[i].blk == b)
    ensures forall j :: 0 <= j < i ==> !(Live(l[j]) && l[j].blk == b)
  {
    if l == [] || (Live(l[0]) && l[0].blk == b) then 0 else 1 + Owner(l[1..], b)
  }

  lemma Findable(l: seq<Entry>, name: string, i: nat)
    requires i < |l| && Live(l[i]) && l[i].name == name
    ensures Find(l, name) <= i
  {
  }

  // ---------------------------------------------------------------- what the operations do

  function Marked(bs: seq<Block>, b: nat, v: nat): (r: seq<Block>)
    requires |bs| >= 2 && bs[1].Bitmap? && b < |bs[1].used|
  {
    bs[1 := Bitmap(bs[1].used[b := v])]
  }

  /** Marking one more block used changes no file. */
  lemma MarkKeeps(bs: seq<Block>, files: map<string, seq<byte>>, b: nat)
    requires Refines(bs, files) && b < BLKSZ
    ensures Refines(Marked(bs, b, 1), files)
  {
    hide FileAt, FolderFill, Unique, Complete;
    var bs' := Marked(bs, b, 1);
    assert Layout(bs');
    var l := bs[Root(bs)].entries;
    forall i | 0 <= i < |l| && Live(l[i]) ensures EntryOk(bs', files, l[i]) {
      assert EntryOk(bs, files, l[i]);
    }
  }

  /** The file block with n bytes appended. */
  function Appended(b: Block, bytes: seq<byte>): (r: Block)
    requires b.File? && FIRST <= b.head.off && b.head.off - FIRST + |bytes| <= |b.data|
  {
    var o := b.head.off - FIRST;
    File(b.head.(size := b.head.size + |bytes|, off := b.head.off + |bytes|),
      b.data[..o] + bytes + b.data[o + |bytes|..])
  }

  /** The map after contents c are stored in block blk: the file that owns the block has them. */
  function Stored(files: map<string, seq<byte>>, l: seq<Entry>, blk: nat, c: seq<byte>): (r: map<string, seq<byte>>) {
    var k := Owner(l, blk);
    if k < |l| then files[l[k].name := c] else files
  }

  /** Storing a file block gives its contents to the file that owns the block, and to no other. */
  lemma StoreKeeps(bs: seq<Block>, files: map<string, seq<byte>>, b: Block, blk: nat, c: seq<byte>)
    requires Refines(bs, files) && FileAt(b, blk, c) && 2 <= blk < |bs| && blk != Root(bs)
    ensures Refines(bs[blk := b], Stored(files, bs[Root(bs)].entries, blk, c))
  {
    hide FileAt, FolderFill, Find, Owner, Unique, Reserved, Complete;
    var l := bs[Root(bs)].entries;
    var k, bs', files' := Owner(l, blk), bs[blk := b], Stored(files, l, blk, c);
    ReservedSet(bs, blk, b);
    forall i | 0 <= i < |l| && Live(l[i]) ensures EntryOk(bs', files', l[i]) {
      assert EntryOk(bs, files, l[i]);
      if i != k && k < |l| {
        UniqueAt(l, i, k);
      }
    }
    assert k < |l| ==> EntryOk(bs, files, l[k]);
    SameNames(l, files, files');
  }

  /** A write through a buffer with contents c appends to the file it was opened for exactly when the
      buffer is current: the file still owns the block and still has those contents. */
  lemma AppendsIff(bs: seq<Block>, files: map<string, seq<byte>>, name: string, blk: nat, c: seq<byte>,
                   bytes: seq<byte>)
    requires Refines(bs, files) && name in files && bytes != []
    ensures var l := bs[Root(bs)].entries;
      Stored(files, l, blk, c + bytes) == files[name := files[name] + bytes] <==> Current(files, l, name, blk, c)
  {
    var l := bs[Root(bs)].entries;
    var k, files' := Owner(l, blk), Stored(files, l, blk, c + bytes);
    HoldsOwner(l, name, blk);
    assert |files[name] + bytes| > |files[name]|;
    if files' == files[name := files[name] + bytes] {
      assert files'[name] == files[name] + bytes;
      assert k < |l| && l[k].name == name;
      SamePrefix(c, files[name], bytes);
    }
  }

  lemma SamePrefix(c: seq<byte>, d: seq<byte>, bytes: seq<byte>)
    requires c + bytes == d + bytes
    ensures c == d
  {
    assert |c| == |d|;
    assert c == (c + bytes)[..|c|];
  }

  /** Some live entry has that name and that block. */
  ghost predicate Holds(l: seq<Entry>, name: string, blk: nat) {
    exists i :: 0 <= i < |l| && l[i] == Entry(Plain, blk, name)
  }

  /** The file `name` owns block blk and has contents c. */
  ghost predicate Current(files: map<string, seq<byte>>, l: seq<Entry>, name: string, blk: nat, c: seq<byte>) {
    name in files && files[name] == c && Holds(l, name, blk)
  }

  lemma HoldsOwner(l: seq<Entry>, name: string, blk: nat)
    requires Unique(l)
    ensures Holds(l, name, blk) <==> Owner(l, blk) < |l| && l[Owner(l, blk)].name == name
  {
    hide Unique;
    if Holds(l, name, blk) {
      var i: nat :| i < |l| && l[i] == Entry(Plain, blk, name);
      assert Owner(l, blk) <= i;
      if Owner(l, blk) != i {
        UniqueAt(l, Owner(l, blk), i);
      }
    } else if Owner(l, blk) < |l| {
      assert l[Owner(l, blk)] != Entry(Plain, blk, name);
    }
  }

  /** Storing another block leaves a current buffer current. */
  lemma StoreOthers(files: map<string, seq<byte>>, l: seq<Entry>, name: string, blk: nat, c: seq<byte>, b: nat,
                    d: seq<byte>)
    requires Unique(l) && Current(files, l, name, blk, c) && b != blk
    ensures Current(Stored(files, l, b, d), l, name, blk, c)
  {
    HoldsOwner(l, name, blk);
    if Owner(l, b) < |l| {
      UniqueAt(l, Owner(l, blk), Owner(l, b));
    }
  }

  /** A current buffer stored with contents d gives them to its file, and stays current with them. */
  lemma StoreOwn(files: map<string, seq<byte>>, l: seq<Entry>, name: string, blk: nat, c: seq<byte>, d: seq<byte>)
    requires Unique(l) && Current(files, l, name, blk, c)
    ensures Stored(files, l, blk, d) == files[name := d] && Current(Stored(files, l, blk, d), l, name, blk, d)
  {
    HoldsOwner(l, name, blk);
  }

  /** Replacing an entry of another name leaves a current buffer current. */
  lemma EntryOthers(l: seq<Entry>, k: nat, e: Entry, name: string, blk: nat)
    requires k < |l| && Holds(l, name, blk) && (Live(l[k]) ==> l[k].name != name)
    ensures Holds(l[k := e], name, blk)
  {
    var i :| 0 <= i < |l| && l[i] == Entry(Plain, blk, name);
    assert l[k := e][i] == l[i];
  }

  lemma SameNames(l: seq<Entry>, files: map<string, seq<byte>>, files': map<string, seq<byte>>)
    requires Complete(l, files) && files'.Keys == files.Keys
    ensures Complete(l, files')
  {
  }

  lemma ReservedSet(bs: seq<Block>, b: nat, x: Block)
    requires Basic(bs) && Reserved(bs) && 2 <= b < |bs|
    ensures Reserved(bs[b := x])
  {
  }

  lemma FileIs(b: Block, blk: nat, c: seq<byte>)
    requires FileAt(b, blk, c)
    ensures b.File? && b.head.off == FIRST + |c| && |b.data| == DATA && b.head.size == |c|
    ensures b.head.kind == Plain && b.head.first == FIRST && b.head.self == b.head.wblk == b.head.blk0 == blk
  {
  }

  lemma AppendedIs(b: Block, blk: nat, c: seq<byte>, bytes: seq<byte>)
    requires FileAt(b, blk, c) && |c| + |bytes| < DATA
    ensures FileAt(Appended(b, bytes), blk, c + bytes)
    ensures var end := |c| + |bytes|; Appended(b, bytes).data[end..] == b.data[end..]
  {
  }

  lemma UniqueAt(l: seq<Entry>, i: nat, k: nat)
    requires Unique(l) && i < |l| && k < |l| && i != k && Live(l[i]) && Live(l[k])
    ensures l[i].name != l[k].name && l[i].blk != l[k].blk
  {
    assert i < k || k < i;
  }

  /** The data area of a block cleared by hal_memset. */
  function Zeros(n: nat): (d: seq<byte>)
    ensures |d| == n && forall i :: 0 <= i < n ==> d[i] == 0
  {
    if n == 0 then [] else Zeros(n - 1) + [0]
  }

  /** An empty file in block b. */
  function EmptyFile(b: nat): (r: Block) { File(Head(Plain, b, 0, FIRST, b, FIRST, b), Zeros(DATA)) }

  /** The directory with one more entry at its end. */
  function Grown(f: Block, k: nat, e: Entry): (r: Block)
    requires f.Folder? && k < |f.entries|
  {
    Folder(f.head.(size := f.head.size + ENTSZ, off := f.head.off + ENTSZ), f.entries[k := e])
  }

  function Added(bs: seq<Block>, b: nat, k: nat, name: string): (r: seq<Block>)
    requires Layout(bs) && b < |bs| && bs[Root(bs)].Folder? && k < |bs[Root(bs)].entries|
  {
    Marked(bs, b, 1)[Root(bs) := Grown(bs[Root(bs)], k, Entry(Plain, b, name))][b := EmptyFile(b)]
  }

  /** A new name gets an unmarked block and the first unused entry, and is an empty file. */
  lemma AddKeeps(bs: seq<Block>, files: map<string, seq<byte>>, b: nat, k: nat, name: string)
    requires Refines(bs, files) && name !in files && name != "" && 2 <= b < |bs| && bs[1].used[b] == 0
    requires k < SLOTS && FolderFill(bs[Root(bs)], Root(bs), k)
    ensures Refines(Added(bs, b, k, name), files[name := []])
  {
    hide FileAt, Find, Unique, Complete;
    var r := Root(bs);
    var bs', files', e := Added(bs, b, k, name), files[name := []], Entry(Plain, b, name);
    var l, l' := bs[r].entries, bs[r].entries[k := e];
    assert Layout(bs') && bs'[r] == Grown(bs[r], k, e);
    assert FolderFill(bs'[r], r, k + 1);
    EmptyIs(b);
    forall i | 0 <= i < |l'| && Live(l'[i])
      ensures EntryOk(bs', files', l'[i]) && (i != k ==> l'[i].name != name && l'[i].blk != b)
    {
      if i != k {
        assert EntryOk(bs, files, l[i]);
      }
    }
    AddUnique(l, k, e);
    AddFinds(l, files, k, e);
  }

  lemma EmptyIs(b: nat)
    ensures FileAt(EmptyFile(b), b, [])
  {
  }

  lemma AddUnique(l: seq<Entry>, k: nat, e: Entry)
    requires Unique(l) && k < |l| && forall i :: 0 <= i < |l| && i != k && Live(l[i]) ==>
      l[i].name != e.name && l[i].blk != e.blk
    ensures Unique(l[k := e])
  {
  }

  lemma AddFinds(l: seq<Entry>, files: map<string, seq<byte>>, k: nat, e: Entry)
    requires k < |l| && l[k] == NO_ENTRY && Live(e) && Complete(l, files)
    ensures Complete(l[k := e], files[e.name := []])
  {
    var l' := l[k := e];
    forall f | f in files[e.name := []] ensures Find(l', f) < |l| {
      if f == e.name {
        Findable(l', f, k);
      } else {
        assert l'[Find(l, f)] == l[Find(l, f)];
        Findable(l', f, Find(l, f));
      }
    }
  }

  function Removed(bs: seq<Block>, k: nat): (r: seq<Block>)
    requires Layout(bs) && bs[Root(bs)].Folder? && k < |bs[Root(bs)].entries| && bs[Root(bs)].entries[k].blk < BLKSZ
  {
    var f := bs[Root(bs)];
    Marked(bs, f.entries[k].blk, 0)[Root(bs) := f.(entries := f.entries[k := Entry(Deleted, 0, "")])]
  }

  /** Deleting clears one entry and one mark, and writes no other block. */
  lemma RemovedIs(bs: seq<Block>, k: nat)
    requires Layout(bs) && bs[Root(bs)].Folder? && k < |bs[Root(bs)].entries| && bs[Root(bs)].entries[k].blk < BLKSZ
    ensures var bs', l := Removed(bs, k), bs[Root(bs)].entries;
      && |bs'| == |bs| && bs'[1].Bitmap? && |bs'[1].used| == BLKSZ
      && (forall b :: 0 <= b < BLKSZ ==> bs'[1].used[b] == if b == l[k].blk then 0 else bs[1].used[b])
      && bs'[Root(bs)].Folder? && bs'[Root(bs)].head == bs[Root(bs)].head && |bs'[Root(bs)].entries| == |l|
      && (forall i :: 0 <= i < |l| && i != k ==> bs'[Root(bs)].entries[i] == l[i])
      && bs'[Root(bs)].entries[k].kind == Deleted && bs'[Root(bs)].entries[k].blk == 0
      && bs'[Root(bs)].entries[k].name == ""
      && forall b :: 0 <= b < |bs| && b != 1 && b != Root(bs) ==> bs'[b] == bs[b]
  {
  }

  /** Deleting a name frees its block and touches no other file. */
  lemma RemoveKeeps(bs: seq<Block>, files: map<string, seq<byte>>, name: string)
    requires Refines(bs, files) && name in files
    ensures var k := Find(bs[Root(bs)].entries, name);
      k < SLOTS && bs[Root(bs)].entries[k].blk < |bs| && Refines(Removed(bs, k), files - {name})
  {
    hide FileAt, Find, Unique, Complete, FolderFill;
    FoundIff(bs, files, name);
    var r := Root(bs);
    var l, k := bs[r].entries, Find(bs[r].entries, name);
    var bs', files', l' := Removed(bs, k), files - {name}, l[k := Entry(Deleted, 0, "")];
    assert Layout(bs') && bs'[r] == bs[r].(entries := l');
    RemoveFill(bs[r], r, k);
    forall i | 0 <= i < |l'| && Live(l'[i]) ensures EntryOk(bs', files', l'[i]) {
      assert EntryOk(bs, files, l[i]);
      UniqueAt(l, i, k);
    }
    RemoveUnique(l, k);
    RemoveFinds(l, files, k, name);
  }

  lemma RemoveFill(b: Block, r: nat, k: nat)
    requires FolderOk(b, r) && k < SLOTS && Live(b.entries[k])
    ensures FolderOk(b.(entries := b.entries[k := Entry(Deleted, 0, "")]), r)
  {
    var n: nat :| FolderFill(b, r, n);
    assert FolderFill(b.(entries := b.entries[k := Entry(Deleted, 0, "")]), r, n);
  }

  lemma RemoveUnique(l: seq<Entry>, k: nat)
    requires Unique(l) && k < |l|
    ensures Unique(l[k := Entry(Deleted, 0, "")])
  {
  }

  lemma RemoveFinds(l: seq<Entry>, files: map<string, seq<byte>>, k: nat, name: string)
    requires k < |l| && l[k].name == name && Complete(l, files)
    ensures Complete(l[k := Entry(Deleted, 0, "")], files - {name})
  {
    var l' := l[k := Entry(Deleted, 0, "")];
    forall f | f in files - {name} ensures Find(l', f) < |l| {
      assert l'[Find(l, f)] == l[Find(l, f)];
      Findable(l', f, Find(l, f));
    }
  }

  /** The room test of rfs_writefileblk on 64-bit numbers. */
  predicate HasSpace64(off: nat, len: nat) { Add64(off, len) < BLKSZ }

  /** The test accepts exactly the lengths that fit, except for those whose sum with the offset wraps: it
      accepts all of them. */
  lemma SpaceIff(off: nat, len: nat)
    requires FIRST <= off < BLKSZ && len < TWO64
    ensures HasSpace64(off, len) <==> off + len < BLKSZ || off + len >= TWO64
    ensures (HasSpace64(off, len) <==> off + len < BLKSZ) <==> len < TWO64 - off
  {
    assert off + len >= TWO64 ==> Add64(off, len) == off + len - TWO64;
  }

  // ---------------------------------------------------------------- is the block map exact?

  /** The first unmarked block from i on, the length of the map when there is none. */
  function FirstFree(used: seq<nat>, i: nat): (b: nat)
    requires i <= |used|
    ensures i <= b <= |used| && (b < |used| ==> used[b] == 0)
    ensures forall j :: i <= j < b ==> used[j] != 0
    decreases |used| - i
  {
    if i == |used| || used[i] == 0 then i else FirstFree(used, i + 1)
  }

  /** rfs_new_dirfileblk for a new name: the whole new disk. With a full directory the block is marked only,
      and so it is when no buffer is left to read the directory (`late`). */
  function Created(bs: seq<Block>, name: string, late: bool): (r: seq<Block>)
    requires Layout(bs) && bs[Root(bs)].Folder? && |bs[Root(bs)].entries| == SLOTS && FIRST <= bs[Root(bs)].head.off
  {
    var b, o := FirstFree(bs[1].used, 2), bs[Root(bs)].head.off;
    if b >= |bs| then bs
    else if late || o >= BLKSZ then Marked(bs, b, 1)
    else Added(bs, b, (o - FIRST) / ENTSZ, name)
  }

  /** A marked block is one of the first two, one the device does not have, the root, or a file's. */
  ghost predicate Exact(bs: seq<Block>)
    requires Layout(bs) && bs[Root(bs)].Folder?
  {
    var l := bs[Root(bs)].entries;
    forall b :: 0 <= b < BLKSZ ==> (bs[1].used[b] != 0 <==> b < 2 || b >= |bs| || b == Root(bs) || Owner(l, b) < |l|)
  }

  /** Marked blocks that nothing owns. */
  ghost function Lost(bs: seq<Block>): (r: set<nat>)
    requires Layout(bs) && bs[Root(bs)].Folder?
  {
    var l := bs[Root(bs)].entries;
    set b: nat | 2 <= b < |bs| && b != Root(bs) && bs[1].used[b] != 0 && Owner(l, b) == |l|
  }

  lemma OwnedIsMarked(bs: seq<Block>, files: map<string, seq<byte>>, b: nat)
    requires Refines(bs, files) && Owner(bs[Root(bs)].entries, b) < SLOTS
    ensures 2 <= b < |bs| && b != Root(bs) && bs[1].used[b] != 0
  {
    var l := bs[Root(bs)].entries;
    assert EntryOk(bs, files, l[Owner(l, b)]);
  }

  lemma ExactIff(bs: seq<Block>, files: map<string, seq<byte>>)
    requires Refines(bs, files)
    ensures Exact(bs) <==> Lost(bs) == {}
  {
    var l := bs[Root(bs)].entries;
    forall b: nat | b < BLKSZ && Owner(l, b) < |l| ensures 2 <= b < |bs| && b != Root(bs) && bs[1].used[b] != 0 {
      OwnedIsMarked(bs, files, b);
    }
    if Lost(bs) == {} {
      forall b: nat | 2 <= b < |bs| && b != Root(bs) && bs[1].used[b] != 0 ensures Owner(l, b) < |l| {
        assert b !in Lost(bs);
      }
    }
  }

  /** Marking an unmarked block without giving it to a file loses it. */
  lemma MarkLoses(bs: seq<Block>, files: map<string, seq<byte>>, b: nat)
    requires Refines(bs, files) && 2 <= b < |bs| && bs[1].used[b] == 0
    ensures Refines(Marked(bs, b, 1), files) && Lost(Marked(bs, b, 1)) == Lost(bs) + {b} && b !in Lost(bs)
  {
    hide FileAt, FolderFill, Unique, Complete;
    MarkKeeps(bs, files, b);
    var l := bs[Root(bs)].entries;
    if Owner(l, b) < |l| {
      OwnedIsMarked(bs, files, b);
    }
  }

  /** Owners after one entry is replaced. */
  lemma OwnerSet(l: seq<Entry>, k: nat, e: Entry, b: nat)
    requires k < |l| && (Live(l[k]) ==> l[k].blk != b) && (Live(e) ==> e.blk != b)
    ensures Owner(l[k := e], b) < |l| <==> Owner(l, b) < |l|
  {
    var l' := l[k := e];
    if Owner(l, b) < |l| {
      assert l'[Owner(l, b)] == l[Owner(l, b)];
    }
    if Owner(l', b) < |l| {
      assert l[Owner(l', b)] == l'[Owner(l', b)];
    }
  }

  lemma AddLoses(bs: seq<Block>, files: map<string, seq<byte>>, b: nat, k: nat, name: string)
    requires Refines(bs, files) && 2 <= b < |bs| && bs[1].used[b] == 0 && b != Root(bs) && k < SLOTS
    requires bs[Root(bs)].entries[k] == NO_ENTRY && Layout(Added(bs, b, k, name))
    ensures Lost(Added(bs, b, k, name)) == Lost(bs)
  {
    hide FileAt, FolderFill, Unique, Complete, Reserved;
    var bs', l, e := Added(bs, b, k, name), bs[Root(bs)].entries, Entry(Plain, b, name);
    var l' := l[k := e];
    assert bs'[Root(bs)].entries == l' && Root(bs') == Root(bs) && bs'[1].used == bs[1].used[b := 1];
    forall x: nat | 2 <= x < |bs| ensures x in Lost(bs') <==> x in Lost(bs) {
      if x == b {
        assert l'[k] == e;
      } else {
        OwnerSet(l, k, e, x);
      }
    }
  }

  lemma RemoveLoses(bs: seq<Block>, files: map<string, seq<byte>>, k: nat)
    requires Refines(bs, files) && k < SLOTS && Live(bs[Root(bs)].entries[k]) && bs[Root(bs)].entries[k].blk < |bs|
    requires Layout(Removed(bs, k))
    ensures Lost(Removed(bs, k)) == Lost(bs)
  {
    hide FileAt, FolderFill, Complete, Reserved;
    var bs', l, e := Removed(bs, k), bs[Root(bs)].entries, Entry(Deleted, 0, "");
    var l', b := l[k := e], l[k].blk;
    assert EntryOk(bs, files, l[k]);
    assert bs'[Root(bs)].entries == l' && Root(bs') == Root(bs) && bs'[1].used == bs[1].used[b := 0];
    forall x: nat | 2 <= x < |bs| ensures x in Lost(bs') <==> x in Lost(bs) {
      if x != b {
        OwnerSet(l, k, e, x);
      }
    }
  }

  lemma StoreLoses(bs: seq<Block>, b: nat, x: Block)
    requires Layout(bs) && bs[Root(bs)].Folder? && 2 <= b < |bs| && b != Root(bs) && Layout(bs[b := x])
    ensures Lost(bs[b := x]) == Lost(bs)
  {
  }

  /** rfs_new_file keeps the block map exact, unless a block is unmarked and the directory is full or cannot be
      read: then exactly that block is lost, and no later operation frees it. */
  lemma CreateLoses(bs: seq<Block>, files: map<string, seq<byte>>, name: string, late: bool)
    requires Refines(bs, files) && name !in files && name != ""
    ensures FIRST <= bs[Root(bs)].head.off <= BLKSZ
    ensures var b, full := FirstFree(bs[1].used, 2), late || bs[Root(bs)].head.off == BLKSZ;
      && Refines(Created(bs, name, late), if b < |bs| && !full then files[name := []] else files)
      && Lost(Created(bs, name, late)) == Lost(bs) + if b < |bs| && full then {b} else {}
  {
    hide EntriesOk, Unique, Complete, Reserved, Added, Lost;
    var r, b := Root(bs), FirstFree(bs[1].used, 2);
    var k: nat :| FolderFill(bs[r], r, k);
    assert (bs[r].head.off - FIRST) / ENTSZ == k;
    if b < |bs| {
      if late || k == SLOTS {
        MarkLoses(bs, files, b);
      } else {
        AddKeeps(bs, files, b, k, name);
        AddLoses(bs, files, b, k, name);
      }
    }
  }

  /** What creating a file writes: the mark of the first unmarked block and, unless the directory is full or
      cannot be read, an empty file in that block and the next entry of the directory. */
  lemma CreatedIs(bs: seq<Block>, files: map<string, seq<byte>>, name: string, late: bool)
    requires Refines(bs, files)
    ensures FIRST <= bs[Root(bs)].head.off <= BLKSZ
    ensures var bs', b, r := Created(bs, name, late), FirstFree(bs[1].used, 2), Root(bs);
      && |bs'| == |bs| && (b >= |bs| ==> bs' == bs)
      && (b < |bs| ==> bs'[1] == Bitmap(bs[1].used[b := 1]))
      && (b < |bs| && (late || bs[r].head.off == 0x1000) ==> forall x :: 0 <= x < |bs| && x != 1 ==> bs'[x] == bs[x])
      && (b < |bs| && !late && bs[r].head.off < 0x1000 ==>
        && b != r && (forall x :: 0 <= x < |bs| && x != 1 && x != b && x != r ==> bs'[x] == bs[x])
        && bs'[b].File? && bs'[b].head == Head(Plain, b, 0, 0x200, b, 0x200, b)
        && |bs'[b].data| == 0xE00 && (forall i :: 0 <= i < 0xE00 ==> bs'[b].data[i] == 0)
        && exists k: nat :: k < SLOTS && FolderFill(bs[r], r, k) && FolderFill(bs'[r], r, k + 1) &&
             bs'[r].entries == bs[r].entries[k := Entry(Plain, b, name)])
  {
    hide EntriesOk, Unique, Complete, Reserved;
    var r, b := Root(bs), FirstFree(bs[1].used, 2);
    var k: nat :| FolderFill(bs[r], r, k);
    assert (bs[r].head.off - FIRST) / ENTSZ == k;
    if b < |bs| && !late && k < SLOTS {
      assert FolderFill(Created(bs, name, late)[r], r, k + 1);
    }
  }

  /** Creating a file leaves root, size and the other files' entries as they were. */
  lemma CreateCurrent(bs: seq<Block>, files: map<string, seq<byte>>, name: string, late: bool, other: string, blk: nat)
    requires Refines(bs, files) && name !in files && name != "" && other in files && FIRST <= bs[Root(bs)].head.off
    requires Holds(bs[Root(bs)].entries, other, blk)
    ensures var bs' := Created(bs, name, late);
      Layout(bs') ==> Root(bs') == Root(bs) && bs'[Root(bs)].Folder? && Holds(bs'[Root(bs)].entries, other, blk)
  {
    hide EntriesOk, Unique, Complete, Reserved, FileAt;
    var r, b := Root(bs), FirstFree(bs[1].used, 2);
    var k: nat :| FolderFill(bs[r], r, k);
    assert (bs[r].head.off - FIRST) / ENTSZ == k;
    if b < |bs| && k < SLOTS && !late {
      EntryOthers(bs[r].entries, k, Entry(Plain, b, name), other, blk);
    }
  }

  lemma CreateKeepsRoot(bs: seq<Block>, files: map<string, seq<byte>>, name: string, late: bool)
    requires Refines(bs, files) && FIRST <= bs[Root(bs)].head.off <= BLKSZ && Layout(Created(bs, name, late))
    ensures Root(Created(bs, name, late)) == Root(bs) && |Created(bs, name, late)| == |bs|
  {
  }
}
