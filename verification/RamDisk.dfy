/** The RAM file system device of drivers/drvrfs.c. Blocks live in an array; an open file is a buffer with a
    copy of its block, and a file may have any number of them. Buffers are always obtained. A branch that
    stops the kernel is `assert false`. */
module RamDisk {
  import opened Rfs

  /** Every buffer holds a file of its own block, which is never one of the fixed blocks. */
  ghost predicate Buffers(bs: seq<Block>, open: map<nat, Block>, names: map<nat, string>, contents: map<nat, seq<byte>>)
    requires Layout(bs)
  {
    && open.Keys == names.Keys == contents.Keys
    && forall h :: h in open ==>
         open[h].File? && FileAt(open[h], open[h].head.self, contents[h]) && 2 <= open[h].head.self < |bs|
           && open[h].head.self != Root(bs)
  }

  /** Whether new_buf refuses: never, before a block is marked, or when the directory is read after it. */
  datatype Lack = Enough | Early | Late

  class Disk {
    const blocks: array<Block>
    var open: map<nat, Block>
    ghost var names: map<nat, string>
    ghost var contents: map<nat, seq<byte>>
    ghost var files: map<string, seq<byte>>

    /** The disk stands for `files`, and buffer h, opened for `names[h]`, holds `contents[h]`. */
    ghost predicate Valid()
      reads this, blocks
    {
      Refines(blocks[..], files) && Buffers(blocks[..], open, names, contents)
    }

    ghost function Entries(): (l: seq<Entry>)
      reads this, blocks
      requires Valid()
    {
      blocks[Root(blocks[..])].entries
    }

    /** Buffer h still holds what the file it was opened for has. */
    ghost predicate IsCurrent(h: nat)
      reads this, blocks
      requires Valid()
    {
      h in open && Current(files, Entries(), names[h], open[h].head.self, contents[h])
    }

    // ---------------------------------------------------------------- blocks

    /** rfs_new_blk: the first unmarked block from 2 on, now marked; 0 when there is none. */
    method NewBlock() returns (b: nat)
      requires Basic(blocks[..]) && Reserved(blocks[..])
      modifies blocks
      ensures var f := FirstFree(old(blocks[1]).used, 2);
        && b == (if f < blocks.Length then f else 0) && (f >= blocks.Length ==> f == BLKSZ)
        && blocks[..] == if f < blocks.Length then Marked(old(blocks[..]), f, 1) else old(blocks[..])
    {
      assert blocks[..][0] == blocks[0] && blocks[..][1] == blocks[1];
      var m := blocks[0].bmp;
      var used := blocks[m].used;
      b := 2;
      while b < BLKSZ && used[b] != 0
        invariant 2 <= b <= BLKSZ && forall x :: 2 <= x < b ==> used[x] != 0
      {
        b := b + 1;
      }
      assert b == FirstFree(used, 2);
      if b == BLKSZ {
        b := 0;
      } else {
        used := used[b := 1];
      }
      blocks[m] := Bitmap(used);
    }

    /** rfs_del_blk. */
    method FreeBlock(b: nat)
      requires Layout(blocks[..]) && b < blocks.Length
      modifies blocks
      ensures blocks[..] == Marked(old(blocks[..]), b, 0)
    {
      assert blocks[..][0] == blocks[0] && blocks[..][1] == blocks[1];
      if b > BLKSZ {
        assert false;
      }
      var m := blocks[0].bmp;
      blocks[m] := Bitmap(blocks[m].used[b := 0]);
    }

    // ---------------------------------------------------------------- format

    /** rfs_fmat on a device of n blocks: super block, block map and an empty root directory. */
    constructor (n: nat)
      requires 3 <= n <= BLKSZ
      ensures Valid() && files == map[] && open == map[] && blocks.Length == n && fresh(blocks)
      ensures Filled(0) && blocks[0] == Super(1, n, Entry(Directory, 2, "/"))
    {
      blocks := new Block[n](_ => Raw);
      open, names, contents, files := map[], map[], map[], map[];
      new;
      blocks[0] := Super(1, n, NO_ENTRY);
      var used := MakeMap(n);
      blocks[1] := Bitmap(used);
      assert used[2] == 0;
      var b := NewBlock();
      if b == 0 {
        assert false;
      }
      blocks[b] := Folder(Head(Directory, b, 0, FIRST, b, FIRST, b), seq(SLOTS, i => NO_ENTRY));
      blocks[0] := Super(1, n, Entry(Directory, b, "/"));
      assert Layout(blocks[..]);
      assert FolderFill(blocks[..][b], b, 0);
      assert forall x: nat :: Owner(blocks[..][b].entries, x) == SLOTS;
    }

    /** create_bitmap: blocks 0 and 1 and those the device does not have are marked. */
    static method MakeMap(n: nat) returns (used: seq<nat>)
      requires 2 <= n <= BLKSZ
      ensures |used| == BLKSZ && forall i :: 0 <= i < BLKSZ ==> used[i] == if 2 <= i < n then 0 else 1
    {
      used := seq(BLKSZ, i => 1);
      var b := 2;
      while b < n
        invariant 2 <= b <= n && |used| == BLKSZ
        invariant forall i :: 0 <= i < BLKSZ ==> used[i] == if 2 <= i < b then 0 else 1
      {
        used := used[b := 0];
        b := b + 1;
      }
    }

    // ---------------------------------------------------------------- names

    /** rfs_chkfilepath on the path's characters, its terminator and the memory behind it. */
    static method Scan(p: string) returns (code: nat)
      requires |p| > NAME_MAX
      ensures code == 0 <==> Accepted(p)
    {
      if p[0] != '/' {
        return 2;
      }
      var i := 1;
      while true
        invariant 1 <= i <= NAME_MAX && forall j :: 1 <= j < i ==> p[j] != '/' && (j > 1 ==> p[j] != '\0')
        decreases NAME_MAX - i
      {
        if p[i] == '/' {
          return 3;
        }
        if i >= NAME_MAX {
          return 4;
        }
        if p[i] == '\0' && i > 1 {
          break;
        }
        i := i + 1;
      }
      return 0;
    }

    /** The scan accepts exactly a slash and a name that fits, without further slashes. It does not stop at the
        end of the path "/", so there the answer depends on the memory behind it. */
    static method CheckPath(path: string, behind: string) returns (code: nat)
      requires '\0' !in path && |behind| >= NAME_MAX
      ensures path != "/" ==> (code == 0 <==> PathOk(path))
      ensures path == "/" ==> (code == 0 <==> NulFirst(behind))
    {
      code := Scan(path + ['\0'] + behind);
      if path == "/" {
        AcceptedSlash(behind);
      } else {
        AcceptedIff(path, behind);
      }
    }

    /** The directory scan shared by creation, opening and deletion. */
    static method Lookup(f: Block, name: string) returns (i: nat)
      requires f.Folder? && |f.entries| == SLOTS
      requires f.head.off == f.head.first ==> forall j :: 0 <= j < SLOTS ==> f.entries[j] == NO_ENTRY
      ensures i == Find(f.entries, name)
    {
      if f.head.off == f.head.first {
        return SLOTS;
      }
      i := 0;
      while i < SLOTS && !(f.entries[i].kind == Plain && f.entries[i].name == name)
        invariant i <= SLOTS && forall j :: 0 <= j < i ==> !(Live(f.entries[j]) && f.entries[j].name == name)
      {
        i := i + 1;
      }
    }

    /** get_rootdirfile_blk: a copy of the root directory. */
    method RootFolder() returns (f: Block)
      requires Valid()
      ensures f == blocks[Root(blocks[..])] && FolderOk(f, Root(blocks[..]))
      ensures f.head.off == f.head.first ==> forall j :: 0 <= j < SLOTS ==> f.entries[j] == NO_ENTRY
    {
      f := blocks[blocks[0].root.blk];
    }

    // ---------------------------------------------------------------- create and delete

    /** A block is unmarked while the directory is full or cannot be read. */
    ghost predicate Wasteful(late: bool)
      reads this, blocks
      requires Valid()
    {
      FirstFree(blocks[1].used, 2) < blocks.Length && (late || blocks[Root(blocks[..])].head.off == BLKSZ)
    }

    /** An unmarked block and an unused directory entry. */
    ghost predicate HasRoom()
      reads this, blocks
      requires Valid()
    {
      FirstFree(blocks[1].used, 2) < blocks.Length && blocks[Root(blocks[..])].head.off < BLKSZ
    }

    /** rfs_new_file: a name not yet in use becomes an empty file, unless block map or directory is full or a
        buffer is lacking. The block map stays exact, except that a directory that is full or cannot be read
        loses the block found. */
    method NewFile(path: string, behind: string, lack: Lack) returns (ok: bool)
      requires Valid() && '\0' !in path && |behind| >= NAME_MAX
      modifies this`files, blocks
      ensures Valid()
      ensures ok <==> PathOk(path) && path[1..] !in old(files) && old(HasRoom()) && lack == Enough
      ensures files == if ok then old(files)[path[1..] := []] else old(files)
      ensures var asked := PathOk(path) && path[1..] !in old(files) && lack != Early;
        && blocks[..] == (if asked then Created(old(blocks[..]), path[1..], lack == Late) else old(blocks[..]))
        && (Exact(blocks[..]) <==> old(Exact(blocks[..])) && !(asked && old(Wasteful(lack == Late))))
      ensures forall g :: g in open && old(IsCurrent(g)) ==> IsCurrent(g)
    {
      hide EntriesOk, Unique, Complete, Reserved, FolderFill, FileAt, Created, Exact;
      ghost var bs := blocks[..];
      var code := CheckPath(path, behind);
      if code != 0 {
        return false;
      }
      var name := path[1..];
      if |name| < 1 || |name| >= NAME_MAX || lack == Early {
        return false;
      }
      var f := RootFolder();
      FoundIff(bs, files, name);
      assert f == bs[Root(bs)];
      var i := Lookup(f, name);
      if i < SLOTS {
        return false;
      }
      ok := AddFile(name, lack == Late);
    }

    /** rfs_new_dirfileblk. When the directory is full, or no buffer is left to read it, the block stays marked
        without an owner. */
    method AddFile(name: string, late: bool) returns (ok: bool)
      requires Valid() && name !in files && name != ""
      modifies this`files, blocks
      ensures Valid()
      ensures ok <==> old(HasRoom()) && !late
      ensures files == if ok then old(files)[name := []] else old(files)
      ensures blocks[..] == Created(old(blocks[..]), name, late)
      ensures Exact(blocks[..]) <==> old(Exact(blocks[..])) && !old(Wasteful(late))
      ensures forall g :: g in open && old(IsCurrent(g)) ==> IsCurrent(g)
    {
      hide EntriesOk, Unique, Complete, Reserved, FolderFill, FileAt, Exact, Lost, Created, Holds;
      ghost var bs, fs := blocks[..], files;
      CreateLoses(bs, files, name, late);
      CreateKeepsRoot(bs, files, name, late);
      ok := AddBlocks(name, late);
      files := if ok then files[name := []] else files;
      ExactIff(bs, fs);
      ExactIff(blocks[..], files);
      forall g | g in open && old(IsCurrent(g)) ensures IsCurrent(g) {
        CreateCurrent(bs, fs, name, late, names[g], open[g].head.self);
      }
    }

    /** The writes of rfs_new_dirfileblk. */
    method AddBlocks(name: string, late: bool) returns (ok: bool)
      requires Refines(blocks[..], files) && FIRST <= blocks[Root(blocks[..])].head.off <= BLKSZ
      modifies blocks
      ensures var f := FirstFree(old(blocks[1]).used, 2);
        ok <==> f < blocks.Length && old(blocks[Root(blocks[..])]).head.off < BLKSZ && !late
      ensures blocks[..] == Created(old(blocks[..]), name, late)
    {
      hide EntriesOk, Unique, Complete, FileAt;
      ghost var bs := blocks[..];
      var r := blocks[0].root.blk;
      var b := NewBlock();
      if b == 0 || late {
        return false;
      }
      var f := blocks[r];
      ghost var k: nat :| FolderFill(bs[r], r, k);
      if f.head.off >= BLKSZ {
        return false;
      }
      var slot := (f.head.off - FIRST) / ENTSZ;
      f := Folder(f.head.(size := f.head.size + ENTSZ, off := f.head.off + ENTSZ),
        f.entries[slot := Entry(Plain, b, name)]);
      blocks[b] := File(Head(Plain, b, 0, FIRST, b, FIRST, b), Zeros(DATA));
      blocks[f.head.self] := f;
      assert blocks[..] == Added(bs, b, slot, name);
      return true;
    }

    /** rfs_del_file: removes exactly that name, open or not, and keeps the block map as exact as it was. It fails
        when there is no buffer for the directory. */
    method DeleteFile(path: string, behind: string, buffers: bool) returns (ok: bool)
      requires Valid() && '\0' !in path && |behind| >= NAME_MAX
      modifies this`files, blocks
      ensures Valid()
      ensures ok <==> PathOk(path) && path[1..] in old(files) && buffers
      ensures files == if ok then old(files) - {path[1..]} else old(files)
      ensures !ok ==> blocks[..] == old(blocks[..])
      ensures ok ==> var k := Find(old(Entries()), path[1..]);
        k < SLOTS && old(Entries())[k].blk < BLKSZ && blocks[..] == Removed(old(blocks[..]), k)
      ensures Exact(blocks[..]) <==> old(Exact(blocks[..]))
      ensures forall g :: g in open && old(IsCurrent(g)) && !(ok && names[g] == path[1..]) ==> IsCurrent(g)
    {
      hide EntriesOk, Unique, Complete, Reserved, FolderFill, FileAt, Exact, Holds, Lost;
      var code := CheckPath(path, behind);
      if code != 0 || !buffers {
        return false;
      }
      var name := path[1..];
      ghost var bs := blocks[..];
      var f := RootFolder();
      FoundIff(bs, files, name);
      assert f == bs[Root(bs)];
      var k := Lookup(f, name);
      if k == SLOTS {
        return false;
      }
      ok := true;
      Drop(name, f, k);
    }

    /** The writes of del_dirfileblk_core. */
    method Drop(name: string, dir: Block, k: nat)
      requires Valid() && name in files && dir == blocks[Root(blocks[..])] && dir.Folder?
        && k == Find(dir.entries, name)
      modifies this`files, blocks
      ensures Valid() && files == old(files) - {name} && blocks[..] == Removed(old(blocks[..]), k)
      ensures Exact(blocks[..]) <==> old(Exact(blocks[..]))
      ensures forall g :: g in open && old(IsCurrent(g)) && names[g] != name ==> IsCurrent(g)
    {
      hide EntriesOk, Unique, Complete, Reserved, FolderFill, FileAt, Exact, Lost, Holds;
      ghost var bs, fs := blocks[..], files;
      FoundIff(bs, files, name);
      RemoveKeeps(bs, files, name);
      RemoveLoses(bs, files, k);
      RootSelf(bs[Root(bs)], Root(bs));
      FreeBlock(dir.entries[k].blk);
      blocks[dir.head.self] := dir.(entries := dir.entries[k := Entry(Deleted, 0, "")]);
      assert blocks[..] == Removed(bs, k);
      files := files - {name};
      ExactIff(bs, fs);
      ExactIff(blocks[..], files);
      forall g | g in open && old(IsCurrent(g)) && names[g] != name ensures IsCurrent(g) {
        EntryOthers(dir.entries, k, Entry(Deleted, 0, ""), names[g], open[g].head.self);
      }
    }

    // ---------------------------------------------------------------- open files

    /** rfs_openfileblk: a buffer with a copy of the file's block, and so a current one. */
    method Open(path: string, behind: string, h: nat, buffers: bool) returns (ok: bool)
      requires Valid() && '\0' !in path && |behind| >= NAME_MAX && h !in open
      modifies this`open, this`names, this`contents
      ensures Valid()
      ensures ok <==> PathOk(path) && path[1..] in files && buffers
      ensures !ok ==> unchanged(this)
      ensures ok ==> open.Keys == old(open).Keys + {h} && names == old(names)[h := path[1..]]
      ensures ok ==> contents == old(contents)[h := files[path[1..]]] && IsCurrent(h)
      ensures forall g :: g in old(open) ==> open[g] == old(open)[g] && (old(IsCurrent(g)) ==> IsCurrent(g))
    {
      hide EntriesOk, Unique, Complete, Reserved, FolderFill, FileAt, Holds, EntryOk;
      var code := CheckPath(path, behind);
      if code != 0 || !buffers {
        return false;
      }
      var name := path[1..];
      ghost var bs := blocks[..];
      var f := RootFolder();
      FoundIff(bs, files, name);
      assert f == bs[Root(bs)];
      var k := Lookup(f, name);
      if k == SLOTS {
        return false;
      }
      Load(h, name, f.entries[k].blk);
      return true;
    }

    /** The copy made by rfs_openfileblk. */
    method Load(h: nat, name: string, b: nat)
      requires Valid() && h !in open && name in files && Find(Entries(), name) < |Entries()|
      requires b == Entries()[Find(Entries(), name)].blk
      modifies this`open, this`names, this`contents
      ensures Valid() && open.Keys == old(open).Keys + {h} && names == old(names)[h := name]
      ensures contents == old(contents)[h := files[name]] && IsCurrent(h)
      ensures forall g :: g in old(open) ==> open[g] == old(open)[g] && (old(IsCurrent(g)) ==> IsCurrent(g))
    {
      hide EntriesOk, Unique, Complete, Reserved, FolderFill, FolderOk, FileAt, Holds, EntryOk, Find, Buffers;
      OpenIs(blocks[..], files, name);
      var buf := blocks[b];
      BuffersAdd(blocks[..], open, names, contents, h, buf, name, files[name]);
      if buf.head.kind == Null || buf.head.first != FIRST {
        assert false;
      }
      open, names, contents := open[h := buf], names[h := name], contents[h := files[name]];
      forall g | g in old(open) && old(IsCurrent(g)) ensures IsCurrent(g) {
        StaysCurrent(g);
      }
    }

    twostate lemma StaysCurrent(g: nat)
      requires old(Valid()) && Valid() && blocks[..] == old(blocks[..]) && files == old(files) && old(IsCurrent(g))
      requires g in open && open[g] == old(open)[g] && names[g] == old(names)[g] && contents[g] == old(contents)[g]
      ensures IsCurrent(g)
    {
      hide EntriesOk, Unique, Complete, Reserved, FolderFill, FileAt, Holds;
      assert blocks[..][Root(blocks[..])] == old(blocks[..])[Root(blocks[..])];
    }

    /** rfs_write_file: the first len bytes of buf go behind what the buffer holds, and the buffer to its
        block. A current buffer appends to its file; what a stale one does is stated too. */
    method Write(h: nat, buf: seq<byte>, len: nat) returns (ok: bool)
      requires Valid()
      modifies this`open, this`contents, this`files, blocks
      ensures Valid() && open.Keys == old(open).Keys && Entries() == old(Entries())
      ensures forall g :: g in open && g != h ==> open[g] == old(open)[g]
      ensures ok <==> h in old(open) && |buf| == BLKSZ && |old(contents)[h]| + len < DATA
      ensures ok ==> open[h].head.self == old(open)[h].head.self && blocks[open[h].head.self] == open[h]
      ensures ok ==> forall b :: 0 <= b < blocks.Length && b != open[h].head.self ==> blocks[b] == old(blocks[b])
      ensures !ok ==> unchanged(this) && blocks[..] == old(blocks[..])
      ensures ok ==> contents == old(contents)[h := old(contents)[h] + buf[..len]]
      ensures ok ==> files == Stored(old(files), old(Entries()), old(open)[h].head.self, contents[h])
      ensures ok && old(IsCurrent(h)) ==>
        files == old(files)[names[h] := old(files)[names[h]] + buf[..len]]
      ensures old(IsCurrent(h)) ==> IsCurrent(h)
      ensures ok ==>
        forall g :: g in open && g != h && old(IsCurrent(g)) && open[g].head.self != old(open)[h].head.self ==>
          IsCurrent(g)
      ensures Exact(blocks[..]) <==> old(Exact(blocks[..]))
    {
      hide EntriesOk, Complete, Unique, Reserved, FolderFill, FileAt, Appended, Exact, Holds;
      if h !in open || |buf| != BLKSZ {
        return false;
      }
      var f := open[h];
      FileIs(f, f.head.self, contents[h]);
      if f.head.self != f.head.wblk || f.head.wblk != f.head.blk0 {
        assert false;
      }
      if f.head.off + len >= BLKSZ {
        return false;
      }
      ghost var fs, l, c, d := files, Entries(), contents[h], contents[h] + buf[..len];
      AppendedIs(f, f.head.self, c, buf[..len]);
      f := Appended(f, buf[..len]);
      FileIs(f, open[h].head.self, d);
      open, contents := open[h := f], contents[h := d];
      Store(h);
      if old(IsCurrent(h)) {
        StoreOwn(fs, l, names[h], f.head.self, c, d);
      }
      forall g | g in open && g != h && old(IsCurrent(g)) && open[g].head.self != f.head.self ensures IsCurrent(g) {
        StoreOthers(fs, l, names[g], open[g].head.self, contents[g], f.head.self, d);
      }
      return true;
    }

    /** rfs_read_file: the first len bytes of the data area; for a current buffer they are the file's. */
    method Read(h: nat, bufsz: nat, len: nat) returns (ok: bool, out: seq<byte>)
      requires Valid()
      ensures ok <==> h in open && bufsz == BLKSZ && len <= DATA
      ensures ok ==> open[h].File? && len <= |open[h].data| && out == open[h].data[..len]
      ensures ok ==> |out| == len && (if len <= |contents[h]| then out == contents[h][..len] else contents[h] <= out)
      ensures ok && IsCurrent(h) && len <= |files[names[h]]| ==> out == files[names[h]][..len]
    {
      hide EntriesOk, Unique, Complete, Reserved, FolderFill, Holds;
      out := [];
      if h !in open || bufsz != BLKSZ {
        return false, out;
      }
      var f := open[h];
      if f.head.self != f.head.wblk || f.head.wblk != f.head.blk0 {
        assert false;
      }
      if len > BLKSZ - f.head.first {
        return false, out;
      }
      out := f.data[f.head.first - FIRST..f.head.first - FIRST + len];
      return true, out;
    }

    /** rfs_closefileblk: the buffer is written back and dropped. For a current buffer no file changes. */
    method Close(h: nat) returns (ok: bool)
      requires Valid()
      modifies this`open, this`names, this`contents, this`files, blocks
      ensures Valid() && ok == (h in old(open))
      ensures open == old(open) - {h} && names == old(names) - {h} && contents == old(contents) - {h}
      ensures ok ==> files == Stored(old(files), old(Entries()), old(open)[h].head.self, old(contents)[h])
      ensures !ok || old(IsCurrent(h)) ==> files == old(files)
      ensures Entries() == old(Entries()) && (Exact(blocks[..]) <==> old(Exact(blocks[..])))
    {
      hide EntriesOk, Unique, Complete, Reserved, FolderFill, FileAt, Exact, Holds;
      if h !in open {
        assert open - {h} == open && names - {h} == names && contents - {h} == contents;
        return false;
      }
      Store(h);
      if old(IsCurrent(h)) {
        StoreOwn(old(files), Entries(), names[h], open[h].head.self, contents[h], contents[h]);
      }
      open, names, contents := open - {h}, names - {h}, contents - {h};
      return true;
    }

    /** write_rfsdevblk of buffer h. */
    method Store(h: nat)
      requires Valid() && h in open
      modifies this`files, blocks
      ensures Valid() && Root(blocks[..]) == old(Root(blocks[..])) && Entries() == old(Entries())
      ensures files == Stored(old(files), old(Entries()), open[h].head.self, contents[h])
      ensures Exact(blocks[..]) <==> old(Exact(blocks[..]))
      ensures blocks[..] == old(blocks[..])[open[h].head.self := open[h]]
    {
      hide EntriesOk, Complete, Unique, Reserved, FolderFill, FileAt, Exact, Lost;
      ghost var bs, fs := blocks[..], files;
      StoreKeeps(bs, files, open[h], open[h].head.self, contents[h]);
      blocks[open[h].head.self] := open[h];
      assert blocks[..] == bs[open[h].head.self := open[h]];
      files := Stored(files, bs[Root(bs)].entries, open[h].head.self, contents[h]);
      StoreLoses(bs, open[h].head.self, open[h]);
      ExactIff(bs, fs);
      ExactIff(blocks[..], files);
    }

    /** Closing a current buffer and opening its file again gives the same buffer contents. */
    method Reopen(h: nat, path: string, behind: string)
      requires Valid() && '\0' !in path && |behind| >= NAME_MAX
      requires PathOk(path) && IsCurrent(h) && names[h] == path[1..]
      modifies this, blocks
      ensures Valid() && names == old(names) && files == old(files) && contents == old(contents) && IsCurrent(h)
      ensures h in open && open[h].File? && open[h].head.size == |contents[h]|
    {
      hide Disk.Valid, Disk.IsCurrent, Disk.Entries, Exact, Stored, PathOk;
      CurrentIs(h);
      ghost var ns, cs := names, contents;
      var closed := Close(h);
      var again := Open(path, behind, h, true);
      BufferSize(h);
      Restored(ns, h);
      Restored(cs, h);
    }

    lemma CurrentIs(h: nat)
      requires Valid() && IsCurrent(h)
      ensures h in open && h in names && h in contents && names[h] in files && files[names[h]] == contents[h]
    {
      hide Refines;
    }

    lemma BufferSize(h: nat)
      requires Valid() && h in open
      ensures open[h].File? && h in contents && open[h].head.size == |contents[h]|
    {
      hide Refines;
    }

    /** What was written through a current buffer is read back after closing and opening again. */
    method WriteReopenRead(h: nat, path: string, behind: string, buf: seq<byte>, len: nat)
      returns (ok: bool, out: seq<byte>)
      requires Valid() && '\0' !in path && |behind| >= NAME_MAX && |buf| == BLKSZ
      requires PathOk(path) && IsCurrent(h) && names[h] == path[1..]
      modifies this, blocks
      ensures Valid() && names == old(names) && IsCurrent(h)
      ensures ok <==> |old(files)[path[1..]]| + len < DATA
      ensures ok ==> out == old(files)[path[1..]] + buf[..len] && files == old(files)[path[1..] := out]
    {
      hide Refines, FileAt, Holds, Exact, Stored;
      out := [];
      ok := Write(h, buf, len);
      if !ok {
        return;
      }
      Reopen(h, path, behind);
      ok, out := Read(h, BLKSZ, open[h].head.size);
    }

    /** The state after i files were created on a new disk. */
    ghost predicate Filled(i: nat)
      reads this, blocks
    {
      && Valid() && Exact(blocks[..]) && Root(blocks[..]) == 2
      && FolderFill(blocks[2], 2, i) && MarkedBelow(blocks[..], 3 + i)
      && |files| == i && forall f :: f in files ==> |f| <= i
    }

    lemma StartRoom()
      requires Filled(0) && blocks.Length >= 4
      ensures HasRoom()
    {
      CreateNext(blocks[..], 0, "");
    }

    method AddNext(path: string, behind: string, i: nat)
      requires Filled(i) && 3 + i < blocks.Length && '\0' !in path && |behind| >= NAME_MAX
      requires PathOk(path) && |path| == i + 2
      modifies this`files, blocks
      ensures i < SLOTS ==> Filled(i + 1)
      ensures i == SLOTS ==> Valid() && |files| == SLOTS && !Exact(blocks[..])
    {
      hide EntriesOk, Unique, Complete, Reserved, FileAt, Exact, Created, MarkedBelow, Holds;
      CreateNext(blocks[..], i, path[1..]);
      ghost var bs, fs := blocks[..], files;
      CreateLoses(bs, fs, path[1..], false);
      CreateKeepsRoot(bs, fs, path[1..], false);
      var ok := NewFile(path, behind, Enough);
      assert ok ==> |files| == |fs| + 1;
    }
  }

  /** A slash, then a terminator within bounds but not at once, with no slash before it. */
  ghost predicate Accepted(p: string)
    requires |p| > NAME_MAX
  {
    p[0] == '/' && exists i :: 2 <= i < NAME_MAX && p[i] == '\0' && forall j :: 1 <= j < i ==> p[j] != '/'
  }

  /** The first slash or terminator is a terminator, and within bounds. */
  ghost predicate NulFirst(behind: string)
    requires |behind| >= NAME_MAX
  {
    exists i :: 0 <= i < NAME_MAX - 2 && behind[i] == '\0' && forall j :: 0 <= j < i ==> behind[j] != '/'
  }

  lemma AcceptedIff(path: string, behind: string)
    requires '\0' !in path && |behind| >= NAME_MAX && path != "/"
    ensures Accepted(path + ['\0'] + behind) <==> PathOk(path)
  {
    var p := path + ['\0'] + behind;
    assert p[|path|] == '\0' && forall j :: 0 <= j < |path| ==> p[j] == path[j] != '\0';
    if Accepted(p) {
      var i :| 2 <= i < NAME_MAX && p[i] == '\0' && forall j :: 1 <= j < i ==> p[j] != '/';
      assert |path| == 1 ==> path == "/";
      assert forall j :: 0 <= j < |path| - 1 ==> path[1..][j] == p[j + 1];
    }
    if PathOk(path) {
      assert forall j :: 1 <= j < |path| ==> p[j] == path[1..][j - 1];
    }
  }

  lemma AcceptedSlash(behind: string)
    requires |behind| >= NAME_MAX
    ensures Accepted("/" + ['\0'] + behind) <==> NulFirst(behind)
  {
    var p := "/" + ['\0'] + behind;
    assert forall j :: 2 <= j < |p| ==> p[j] == behind[j - 2];
    if NulFirst(behind) {
      var i :| 0 <= i < NAME_MAX - 2 && behind[i] == '\0' && forall j :: 0 <= j < i ==> behind[j] != '/';
      assert p[i + 2] == '\0';
    }
    if Accepted(p) {
      var i :| 2 <= i < NAME_MAX && p[i] == '\0' && forall j :: 1 <= j < i ==> p[j] != '/';
      assert forall j :: 0 <= j < i - 2 ==> behind[j] == p[j + 2];
    }
  }

  /** The blocks marked are those below n. */
  ghost predicate MarkedBelow(bs: seq<Block>, n: nat)
    requires Basic(bs)
  {
    forall b :: 2 <= b < |bs| ==> (bs[1].used[b] != 0 <==> b < n)
  }

  lemma CreateNext(bs: seq<Block>, i: nat, name: string)
    requires Layout(bs) && Root(bs) == 2 && FolderFill(bs[2], 2, i) && MarkedBelow(bs, 3 + i) && 3 + i < |bs|
    ensures FirstFree(bs[1].used, 2) == 3 + i
    ensures i < SLOTS && Basic(Created(bs, name, false)) ==>
      FolderFill(Created(bs, name, false)[2], 2, i + 1) && MarkedBelow(Created(bs, name, false), 4 + i)
  {
    var b := FirstFree(bs[1].used, 2);
    assert bs[1].used[3 + i] == 0;
    assert b == 3 + i;
    assert (bs[2].head.off - FIRST) / ENTSZ == i;
  }

  /** On every device with room for a 29th file the block map stops being exact: after 28 files the next
      creation fails and loses a block. */
  method LoseBlock(n: nat, behind: string) returns (d: Disk)
    requires 4 + SLOTS <= n <= BLKSZ && |behind| >= NAME_MAX
    ensures d.Valid() && |d.files| == SLOTS && !Exact(d.blocks[..])
  {
    hide Refines, Buffers, Exact, FolderFill, MarkedBelow, Disk.Valid, Disk.Filled;
    d := new Disk(n);
    var path, i := "/a", 0;
    while i < SLOTS
      invariant i <= SLOTS && d.Filled(i) && fresh(d) && fresh(d.blocks) && d.blocks.Length == n
      invariant |path| == i + 2 && path[0] == '/' && '/' !in path[1..] && '\0' !in path
    {
      d.AddNext(path, behind, i);
      path, i := path + "a", i + 1;
    }
    d.AddNext(path, behind, i);
  }

  /** With two buffers of one file, what is written through the first is lost when something is written through
      the second, which does not know of it. */
  method LoseWrite(d: Disk, h: nat, g: nat, x: seq<byte>, m: nat, y: seq<byte>, n: nat)
    requires d.Valid() && d.IsCurrent(h) && d.IsCurrent(g) && h != g && d.names[h] == d.names[g]
    requires |x| == BLKSZ && |y| == BLKSZ && |d.contents[h]| + m < DATA && |d.contents[h]| + n < DATA
    modifies d`open, d`contents, d`files, d.blocks
    ensures d.Valid() && d.names[g] in old(d.files)
    ensures d.files == old(d.files)[d.names[g] := old(d.files)[d.names[g]] + y[..n]]
    ensures d.IsCurrent(g) && (d.IsCurrent(h) <==> x[..m] == y[..n])
  {
    hide EntriesOk, Complete, Unique, Reserved, FolderFill, FileAt, Exact, Holds;
    ghost var fs, l, name := d.files, d.Entries(), d.names[g];
    ghost var b, c := d.open[g].head.self, d.contents[g];
    SameBlock(l, name, d.open[h].head.self, b);
    var first := d.Write(h, x, m);
    var second := d.Write(g, y, n);
    StoreTwice(fs, l, name, b, c, c + x[..m], c + y[..n]);
    if x[..m] != y[..n] {
      assert x[..m] == (c + x[..m])[|c|..] && y[..n] == (c + y[..n])[|c|..];
    }
  }

  /** A new disk with one empty file that is open twice. */
  method OpenTwice(disk: nat, behind: string) returns (d: Disk)
    requires 4 <= disk <= BLKSZ && |behind| >= NAME_MAX
    ensures fresh(d) && fresh(d.blocks) && d.Valid() && d.files == map["a" := []] && d.IsCurrent(0) && d.IsCurrent(1)
    ensures d.names[0] == d.names[1] == "a"
  {
    hide Refines, Buffers, Exact, FolderFill, MarkedBelow, Holds, Created, Disk.HasRoom, Disk.Wasteful, Disk.Filled;
    d := new Disk(disk);
    d.StartRoom();
    var path := "/a";
    assert path[1..] == "a" && PathOk(path);
    var made := d.NewFile(path, behind, Enough);
    var first := d.Open(path, behind, 0, true);
    var second := d.Open(path, behind, 1, true);
  }

  /** The same on a new disk: m bytes written through one buffer are gone after n bytes through the other. */
  method LoseWriteOnNew(disk: nat, behind: string, x: seq<byte>, m: nat, y: seq<byte>, n: nat) returns (d: Disk)
    requires 4 <= disk <= BLKSZ && |behind| >= NAME_MAX && |x| == BLKSZ && |y| == BLKSZ && 0 < m < DATA && 0 < n < DATA
    ensures d.Valid() && d.files == map["a" := y[..n]]
  {
    hide Refines, Buffers, Holds;
    d := OpenTwice(disk, behind);
    LoseWrite(d, 0, 1, x, m, y, n);
    assert [] + y[..n] == y[..n];
  }

  lemma BuffersAdd(bs: seq<Block>, open: map<nat, Block>, names: map<nat, string>, contents: map<nat, seq<byte>>,
                   h: nat, f: Block, name: string, c: seq<byte>)
    requires Layout(bs) && Buffers(bs, open, names, contents) && f.File? && FileAt(f, f.head.self, c)
    requires 2 <= f.head.self < |bs| && f.head.self != Root(bs)
    ensures Buffers(bs, open[h := f], names[h := name], contents[h := c])
    ensures open.Keys == names.Keys == contents.Keys
  {
    hide FileAt;
  }

  lemma Restored<T>(m: map<nat, T>, h: nat)
    requires h in m
    ensures (m - {h})[h := m[h]] == m
  {
  }

  lemma SameBlock(l: seq<Entry>, name: string, a: nat, b: nat)
    requires Unique(l) && Holds(l, name, a) && Holds(l, name, b)
    ensures a == b
  {
    var i :| 0 <= i < |l| && l[i] == Entry(Plain, a, name);
    var j :| 0 <= j < |l| && l[j] == Entry(Plain, b, name);
    if i != j {
      UniqueAt(l, i, j);
    }
  }

  lemma StoreTwice(files: map<string, seq<byte>>, l: seq<Entry>, name: string, blk: nat, c: seq<byte>, d: seq<byte>,
                   e: seq<byte>)
    requires Unique(l) && Current(files, l, name, blk, c)
    ensures Stored(Stored(files, l, blk, d), l, blk, e) == files[name := e]
    ensures Current(files[name := e], l, name, blk, e)
  {
    StoreOwn(files, l, name, blk, c, d);
    StoreOwn(files[name := d], l, name, blk, d, e);
    assert files[name := d][name := e] == files[name := e];
  }

  /** The block of a file's entry is the buffer an open gets. */
  lemma OpenIs(bs: seq<Block>, files: map<string, seq<byte>>, name: string)
    requires Refines(bs, files) && name in files
    ensures var l := bs[Root(bs)].entries;
      var k := Find(l, name);
      && k < SLOTS && l[k].blk < |bs| && Holds(l, name, l[k].blk) && FileAt(bs[l[k].blk], l[k].blk, files[name])
      && 2 <= l[k].blk && l[k].blk != Root(bs)
      && bs[l[k].blk].File? && bs[l[k].blk].head.self == l[k].blk
      && bs[l[k].blk].head.kind == Plain && bs[l[k].blk].head.first == FIRST
  {
    hide EntriesOk, Unique, Complete, Reserved, FolderFill;
    FoundIff(bs, files, name);
    var l := bs[Root(bs)].entries;
    var k := Find(l, name);
    assert l[k] == Entry(Plain, l[k].blk, name);
  }

  lemma RootSelf(b: Block, r: nat)
    requires FolderOk(b, r)
    ensures b.head.self == r
  {
  }
}
