/** zipFolder of zip-folder.js: plan, write, and what comes back out of the archive. */
module ZipFolder {
  import opened ByteStrings
  import opened Options
  import opened Records
  import opened ZipFormat
  import opened ZipWriter
  import opened ZipPlan
  import Crc32

  function DirItem(d: DirEntry): Item {
    Folder(d.rel, d.at)
  }

  function FileItem(f: FileEntry): Item {
    File(f.rel, f.at, f.mode, f.content)
  }

  /** The empty folders first, then the files. */
  function ItemsOf(vs: seq<Visit>): seq<Item> {
    Mapped(DirItem, DirsOf(vs)) + Mapped(FileItem, FilesOf(vs))
  }

  lemma {:induction false} DirFrom(vs: seq<Visit>, i: nat) returns (v: Visit)
    requires i < |DirsOf(vs)|
    ensures v in vs && v.Empty? && DirsOf(vs)[i] == DirEntry(Join(v.path), v.at)
  {
    if i < |DirsOf(vs[..|vs| - 1])| { v := DirFrom(vs[..|vs| - 1], i); } else { v := vs[|vs| - 1]; }
  }

  lemma {:induction false} FileFrom(vs: seq<Visit>, i: nat) returns (v: Visit)
    requires i < |FilesOf(vs)|
    ensures v in vs && v.Took? && FilesOf(vs)[i] == FileEntry(Join(v.path), v.content, v.at, v.mode)
  {
    if i < |FilesOf(vs[..|vs| - 1])| { v := FileFrom(vs[..|vs| - 1], i); } else { v := vs[|vs| - 1]; }
  }

  lemma {:induction false} DirIn(vs: seq<Visit>, v: Visit)
    requires v in vs && v.Empty?
    ensures DirEntry(Join(v.path), v.at) in DirsOf(vs)
  {
    if v != vs[|vs| - 1] { DirIn(vs[..|vs| - 1], v); }
  }

  lemma {:induction false} FileIn(vs: seq<Visit>, v: Visit)
    requires v in vs && v.Took?
    ensures FileEntry(Join(v.path), v.content, v.at, v.mode) in FilesOf(vs)
  {
    if v != vs[|vs| - 1] { FileIn(vs[..|vs| - 1], v); }
  }

  function ItemOf(v: Visit): Item
    requires !v.Cut?
  {
    if v.Took? then File(Join(v.path), v.at, v.mode, v.content) else Folder(Join(v.path), v.at)
  }

  /** What a planned visit becomes in the archive, and where an item comes from. */
  lemma ItemIn(vs: seq<Visit>, v: Visit) returns (i: nat)
    requires v in vs && !v.Cut?
    ensures i < |ItemsOf(vs)| && ItemsOf(vs)[i] == ItemOf(v)
  {
    if v.Took? {
      FileIn(vs, v);
      var j :| 0 <= j < |FilesOf(vs)| && FilesOf(vs)[j] == FileEntry(Join(v.path), v.content, v.at, v.mode);
      i := |DirsOf(vs)| + j;
      assert ItemsOf(vs)[i] == FileItem(FilesOf(vs)[j]);
    } else {
      DirIn(vs, v);
      i :| 0 <= i < |DirsOf(vs)| && DirsOf(vs)[i] == DirEntry(Join(v.path), v.at);
      assert ItemsOf(vs)[i] == DirItem(DirsOf(vs)[i]);
    }
  }

  lemma ItemFrom(vs: seq<Visit>, i: nat) returns (v: Visit)
    requires i < |ItemsOf(vs)|
    ensures v in vs && !v.Cut? && ItemsOf(vs)[i] == ItemOf(v)
  {
    if i < |DirsOf(vs)| {
      v := DirFrom(vs, i);
      assert ItemsOf(vs)[i] == DirItem(DirsOf(vs)[i]);
    } else {
      v := FileFrom(vs, i - |DirsOf(vs)|);
      assert ItemsOf(vs)[i] == FileItem(FilesOf(vs)[i - |DirsOf(vs)|]);
    }
  }

  lemma ItemsValid(cs: seq<Child>, ex: seq<Bytes>, i: nat)
    requires ProperTree(cs) && i < |ItemsOf(Walk(cs, [], ex))|
    ensures ItemsOf(Walk(cs, [], ex))[i].at.Valid()
  {
    var v := ItemFrom(Walk(cs, [], ex), i);
    PlanExact(cs, ex, v);
    LookupProper(cs, v.path);
  }

  method WriteItems(writer: Writer, items: seq<Item>) returns (ok: bool)
    requires writer.Valid() && writer.items == [] && forall i :: 0 <= i < |items| ==> items[i].at.Valid()
    modifies writer
    ensures ok ==> writer.Valid() && writer.items == items
    ensures !ok ==> exists i :: 0 <= i < |items| && !ItemFits(writer.codec, items[i])
  {
    for i := 0 to |items|
      invariant writer.Valid() && writer.items == items[..i]
    {
      assert items[..i + 1] == items[..i] + [items[i]];
      match items[i] {
        case Folder(name, m) =>
          ok := writer.AddDirectory(name, m);
        case File(name, m, mode, content) =>
          OneChunk(content);
          OneChunk(writer.codec.deflate(content));
          ok := writer.AddFile(name, [content], [writer.codec.deflate(content)], m, mode);
      }
      if !ok { return; }
    }
    assert items[..|items|] == items;
    ok := true;
  }

  /** Succeeds exactly when the plan is within the caps and the archive's fields can hold it. */
  method Zip(codec: Codec, cs: seq<Child>, exclude: seq<Bytes>, maxFiles: nat, maxBytes: nat)
    returns (zip: Option<Bytes>, files: nat, bytes: nat, skipped: nat)
    requires ProperTree(cs)
    ensures var vs := Walk(cs, [], ExcludeList(exclude));
      && (zip.Some? <==> |FilesOf(vs)| <= maxFiles && InputBytes(FilesOf(vs)) <= maxBytes && ArchiveFits(codec, ItemsOf(vs)))
      && (zip.Some? ==> zip.value == Archive(codec, ItemsOf(vs)))
      && (zip.Some? ==> files == |FilesOf(vs)| && bytes == InputBytes(FilesOf(vs)) && skipped == |CutSet(vs)|)
  {
    SkippedCounts(cs, ExcludeList(exclude));
    ghost var vs := Walk(cs, [], ExcludeList(exclude));
    zip, files, bytes, skipped := None, 0, 0, 0;
    var plan := new Planner(exclude, maxFiles, maxBytes);
    var ok := plan.WalkDir(cs, [], [], Moment(1980, 1, 1, 0, 0, 0));
    if !ok {
      BeyondCaps(plan.visits, vs, maxFiles, maxBytes);
      return;
    }
    assert plan.visits == vs;
    files, bytes, skipped := |plan.files|, plan.bytes, plan.skipped;
    zip := Write(codec, plan.dirs, plan.files, cs, ExcludeList(exclude));
  }

  method Write(codec: Codec, dirs: seq<DirEntry>, files: seq<FileEntry>, ghost cs: seq<Child>, ghost ex: seq<Bytes>)
    returns (zip: Option<Bytes>)
    requires ProperTree(cs) && dirs == DirsOf(Walk(cs, [], ex)) && files == FilesOf(Walk(cs, [], ex))
    ensures zip.Some? <==> ArchiveFits(codec, ItemsOf(Walk(cs, [], ex)))
    ensures zip.Some? ==> zip.value == Archive(codec, ItemsOf(Walk(cs, [], ex)))
  {
    var items := Mapped(DirItem, dirs) + Mapped(FileItem, files);
    forall i | 0 <= i < |items| ensures items[i].at.Valid() { ItemsValid(cs, ex, i); }
    var writer := new Writer(codec);
    var ok := WriteItems(writer, items);
    if !ok { return None; }
    ok := writer.Finalize();
    zip := if ok then Some(writer.out) else None;
  }

  lemma OneChunk(b: Bytes)
    ensures Crc32.Flatten([b]) == b
  {
    FlatStep(Crc32.Whole, [b], 0);
    assert [b][..0] == [] && [b][..1] == [b];
  }

  lemma BeyondCaps(seen: seq<Visit>, vs: seq<Visit>, maxFiles: nat, maxBytes: nat)
    requires seen <= vs && !Within(seen, maxFiles, maxBytes)
    ensures !Within(vs, maxFiles, maxBytes)
  {
    FilesOfMore(seen, vs[|seen|..]);
    assert vs == seen + vs[|seen|..];
  }

  // ---- what comes back

  function Unzipped(cs: seq<Child>, ex: seq<Bytes>): seq<Extracted> {
    Mapped(ExtractedOf, ItemsOf(Walk(cs, [], ex)))
  }

  lemma UnzippedAt(cs: seq<Child>, ex: seq<Bytes>, i: nat) returns (v: Visit)
    requires i < |Unzipped(cs, ex)|
    ensures v in Walk(cs, [], ex) && !v.Cut? && Unzipped(cs, ex)[i] == ExtractedOf(ItemOf(v))
  {
    v := ItemFrom(Walk(cs, [], ex), i);
  }

  lemma UnzippedHas(cs: seq<Child>, ex: seq<Bytes>, v: Visit) returns (i: nat)
    requires v in Walk(cs, [], ex) && !v.Cut?
    ensures i < |Unzipped(cs, ex)| && Unzipped(cs, ex)[i] == ExtractedOf(ItemOf(v))
  {
    i := ItemIn(Walk(cs, [], ex), v);
  }

  function FileAt(cs: seq<Child>, p: Path): Item
    requires Lookup(cs, p).Some? && Lookup(cs, p).value.Regular?
  {
    var f := Lookup(cs, p).value;
    File(Join(p), f.at, f.mode, f.content)
  }

  /** A regular file of the folder comes back, whole, exactly when every name on its way is archived and no
      path handed in as `exclude`, slashes around it aside, is the file or a folder above it. */
  lemma FileComesBack(cs: seq<Child>, exclude: seq<Bytes>, p: Path)
    requires ProperTree(cs) && p != [] && Lookup(cs, p).Some? && Lookup(cs, p).value.Regular?
    ensures ExtractedOf(FileAt(cs, p)) in Unzipped(cs, ExcludeList(exclude)) <==> Shown(cs, p, exclude)
  {
    FileReached(cs, ExcludeList(exclude), p);
    ReachedIff(cs, p, exclude);
  }

  lemma FileReached(cs: seq<Child>, ex: seq<Bytes>, p: Path)
    requires ProperTree(cs) && p != [] && Lookup(cs, p).Some? && Lookup(cs, p).value.Regular?
    ensures ExtractedOf(FileAt(cs, p)) in Unzipped(cs, ex) <==> Reached(cs, p, ex)
  {
    var f := Lookup(cs, p).value;
    if Reached(cs, p, ex) {
      var v := Took(p, f.content, f.at, f.mode);
      PlanExact(cs, ex, v);
      var i := UnzippedHas(cs, ex, v);
    }
    if ExtractedOf(FileAt(cs, p)) in Unzipped(cs, ex) {
      var i :| 0 <= i < |Unzipped(cs, ex)| && Unzipped(cs, ex)[i] == ExtractedOf(FileAt(cs, p));
      var v := UnzippedAt(cs, ex, i);
      PlanExact(cs, ex, v);
      SameFile(cs, v.path, p);
    }
  }

  lemma SameFile(cs: seq<Child>, p: Path, q: Path)
    requires ProperTree(cs) && Lookup(cs, p).Some? && Lookup(cs, q).Some? && Join(p) == Join(q)
    ensures p == q
  {
    LookupProper(cs, p);
    LookupProper(cs, q);
    JoinInjective(p, q);
  }

  /** Nothing else comes out: each extracted entry is a file or a folder of the tree with nothing kept in it,
      whose names are all archived and which no path handed in covers. */
  lemma NothingElse(cs: seq<Child>, exclude: seq<Bytes>, i: nat) returns (p: Path)
    requires ProperTree(cs) && i < |Unzipped(cs, ExcludeList(exclude))|
    ensures p != [] && Lookup(cs, p).Some? && Shown(cs, p, exclude)
    ensures var x, n := Unzipped(cs, ExcludeList(exclude))[i], Lookup(cs, p).value;
      if x.isDir then n.Directory? && x.name == Join(p) + [SLASH] && x.content == []
      else n.Regular? && x == ExtractedOf(FileAt(cs, p))
    ensures Unzipped(cs, ExcludeList(exclude))[i].isDir ==> forall name :: !ShownBelow(cs, p, name, exclude)
  {
    var ex := ExcludeList(exclude);
    var v := UnzippedAt(cs, ex, i);
    p := v.path;
    PlanExact(cs, ex, v);
    LookupProper(cs, p);
    JoinEnds(p);
    ReachedIff(cs, p, exclude);
    if v.Empty? { EmptyShowsNothing(cs, p, exclude); }
  }

  lemma EmptyShowsNothing(cs: seq<Child>, p: Path, exclude: seq<Bytes>)
    requires ProperTree(cs) && p != [] && Lookup(cs, p).Some? && Lookup(cs, p).value.Directory?
    requires !KeepsAny(Lookup(cs, p).value.children, p, ExcludeList(exclude))
    ensures forall name :: !ShownBelow(cs, p, name, exclude)
  {
    forall name ensures !ShownBelow(cs, p, name, exclude) {
      if ShownBelow(cs, p, name, exclude) { ShownKeeps(cs, p, name, exclude); }
    }
  }

  /** The folder `p` has a file or folder of that name to show. */
  ghost predicate ShownBelow(cs: seq<Child>, p: Path, name: Bytes, exclude: seq<Bytes>) {
    var n := Lookup(cs, p + [name]);
    n.Some? && (n.value.Regular? || n.value.Directory?) && Shown(cs, p + [name], exclude)
  }

  lemma ShownKeeps(cs: seq<Child>, p: Path, name: Bytes, exclude: seq<Bytes>)
    requires ProperTree(cs) && p != [] && ShownBelow(cs, p, name, exclude)
    requires Lookup(cs, p).Some? && Lookup(cs, p).value.Directory?
    ensures KeepsAny(Lookup(cs, p).value.children, p, ExcludeList(exclude))
  {
    var q := p + [name];
    LookupDown(cs, p, name);
    ReachedIff(cs, q, exclude);
    assert q[..|q|] == q;
    assert Clear(cs, q, ExcludeList(exclude));
    ReachedKept(cs, q, ExcludeList(exclude));
    var i := Found(Lookup(cs, p).value.children, name);
    assert Kept(Lookup(cs, p).value.children[i], p, ExcludeList(exclude));
  }

  lemma ReachedKept(cs: seq<Child>, q: Path, ex: seq<Bytes>)
    requires ProperTree(cs) && q != [] && Reached(cs, q, ex)
    ensures !IsExcluded(Join(q), ex)
  {
    OpenIsReached(cs, q, ex);
    OpenSteps(cs, [], q, ex);
    assert q[..|q|] == q && [] + q == q;
    assert OpenStep(cs, [], q[..|q|], ex);
  }

  lemma {:induction false} LookupDown(cs: seq<Child>, p: Path, name: Bytes)
    requires p != [] && Lookup(cs, p).Some? && Lookup(cs, p).value.Directory?
    ensures Lookup(cs, p + [name]) == Find(Lookup(cs, p).value.children, name)
    decreases p
  {
    if |p| > 1 {
      LookupDown(Find(cs, p[0]).value.children, p[1..], name);
      assert (p + [name])[1..] == p[1..] + [name];
    } else {
      assert (p + [name])[1..] == [name];
    }
  }

  /** The archive of a folder, read back. */
  lemma ArchiveComesBack(codec: Codec, cs: seq<Child>, ex: seq<Bytes>)
    requires codec.Lawful() && ArchiveFits(codec, ItemsOf(Walk(cs, [], ex)))
    ensures ReadArchive(codec, Archive(codec, ItemsOf(Walk(cs, [], ex)))) == Some(Unzipped(cs, ex))
  {
    ArchiveReadsBack(codec, ItemsOf(Walk(cs, [], ex)));
  }

  lemma JoinEnds(p: Path)
    requires ProperPath(p) && p != []
    ensures TrimSlashes(Join(p)) == Join(p)
  {
    JoinBare(p);
  }

  /** Every folder of the tree that is shown exists again after extraction: some entry lies at or under it. */
  lemma FolderComesBack(cs: seq<Child>, exclude: seq<Bytes>, p: Path) returns (i: nat)
    requires ProperTree(cs) && p != [] && Lookup(cs, p).Some? && Lookup(cs, p).value.Directory? && Shown(cs, p, exclude)
    ensures i < |Unzipped(cs, ExcludeList(exclude))| && Join(p) + [SLASH] <= Unzipped(cs, ExcludeList(exclude))[i].name
  {
    ReachedIff(cs, p, exclude);
    i := FolderReached(cs, ExcludeList(exclude), p);
  }

  lemma FolderReached(cs: seq<Child>, ex: seq<Bytes>, p: Path) returns (i: nat)
    requires ProperTree(cs) && p != [] && Reached(cs, p, ex) && Lookup(cs, p).Some? && Lookup(cs, p).value.Directory?
    ensures i < |Unzipped(cs, ex)| && Join(p) + [SLASH] <= Unzipped(cs, ex)[i].name
  {
    var v := FolderListed(cs, p, ex);
    i := UnzippedHas(cs, ex, v);
    PlanExact(cs, ex, v);
    LookupProper(cs, v.path);
    JoinEnds(v.path);
    var name := ExtractedOf(ItemOf(v)).name;
    assert v.Empty? ==> name == Join(v.path) + [SLASH];
    if |p| < |v.path| {
      PrefixJoins(v.path, |p|);
      assert v.path[..|p|] == p;
      assert Join(v.path) <= name;
    } else {
      assert v.path == p;
    }
  }

  // ---- sizes

  /** Deflate's worst case, far above the five bytes per stored block of section 3.2.4 of RFC 1951. */
  ghost predicate Bounded(codec: Codec) {
    forall b: Bytes :: 8 * |codec.deflate(b)| <= 9 * |b| + 512
  }

  function StoredName(it: Item): Bytes {
    if it.Folder? then TrimSlashes(it.name) + [SLASH] else it.name
  }

  function NameBytes(items: seq<Item>): nat {
    if items == [] then 0 else NameBytes(items[..|items| - 1]) + |StoredName(items[|items| - 1])|
  }

  function ContentBytes(items: seq<Item>): nat {
    if items == [] then 0
    else
      var it := items[|items| - 1];
      ContentBytes(items[..|items| - 1]) + if it.File? then |it.content| else 0
  }

  lemma {:induction false} LocalsSize(codec: Codec, items: seq<Item>)
    requires Bounded(codec)
    ensures 8 * |Locals(codec, items)| <= 880 * |items| + 8 * NameBytes(items) + 9 * ContentBytes(items)
  {
    if items != [] {
      var it := items[|items| - 1];
      LocalsSize(codec, items[..|items| - 1]);
      RecordLength(codec, it, 0);
      if it.File? { assert 8 * |codec.deflate(it.content)| <= 9 * |it.content| + 512; }
    }
  }

  lemma EntryFront(codec: Codec, items: seq<Item>, front: seq<Item>, i: nat)
    requires i < |front| && front <= items
    ensures Entries(codec, items)[i] == Entries(codec, front)[i]
  {
    OffsetOf(codec, items, i);
    OffsetOf(codec, front, i);
    assert front[..i] == items[..i];
  }

  lemma EntryName(codec: Codec, items: seq<Item>, i: nat)
    requires i < |items|
    ensures Entries(codec, items)[i].name == StoredName(items[i])
  {
    OffsetOf(codec, items, i);
  }

  lemma Extends<T>(all: seq<T>, front: seq<T>)
    requires |all| == |front| + 1 && forall i :: 0 <= i < |front| ==> all[i] == front[i]
    ensures all == front + [all[|front|]]
  {}

  lemma EntriesGrow(codec: Codec, items: seq<Item>, front: seq<Item>)
    requires |items| == |front| + 1 && front <= items
    ensures Entries(codec, items) == Entries(codec, front) + [Entries(codec, items)[|front|]]
  {
    forall i | 0 <= i < |front| ensures Entries(codec, items)[i] == Entries(codec, front)[i] {
      EntryFront(codec, items, front, i);
    }
    Extends(Entries(codec, items), Entries(codec, front));
  }

  lemma CentralGrows(es: seq<Entry>, front: seq<Entry>, last: Entry)
    requires es == front + [last]
    ensures |Central(es)| == |Central(front)| + 46 + |last.name|
  {
    assert es[..|es| - 1] == front;
  }

  lemma {:induction false} CentralSize(codec: Codec, items: seq<Item>)
    ensures |Central(Entries(codec, items))| == 46 * |items| + NameBytes(items)
  {
    if items == [] {
      assert Entries(codec, items) == [];
    } else {
      var front := items[..|items| - 1];
      CentralSize(codec, front);
      EntriesGrow(codec, items, front);
      EntryName(codec, items, |front|);
      CentralGrows(Entries(codec, items), Entries(codec, front), Entries(codec, items)[|front|]);
    }
  }

  /** Within the caps every field of the archive holds its value, given a bound on the number of entries
      and on the names: the caps bound only the files. */
  lemma CapsFit(codec: Codec, items: seq<Item>)
    requires Bounded(codec) && |items| <= MAX16
    requires forall i :: 0 <= i < |items| ==> items[i].at.Valid() && |StoredName(items[i])| <= MAX16
    requires ContentBytes(items) <= 0x8000_0000 && NameBytes(items) <= 0x4000_0000
    ensures ArchiveFits(codec, items)
  {
    LocalsSize(codec, items);
    CentralSize(codec, items);
    forall i | 0 <= i < |items| ensures ItemFits(codec, items[i]) {
      ContentWithin(items, i);
      if items[i].File? { assert 8 * |codec.deflate(items[i].content)| <= 9 * |items[i].content| + 512; }
    }
  }

  lemma {:induction false} ContentWithin(items: seq<Item>, i: nat)
    requires i < |items|
    ensures items[i].File? ==> |items[i].content| <= ContentBytes(items)
  {
    if i < |items| - 1 { ContentWithin(items[..|items| - 1], i); }
  }

  lemma {:induction false} NoContent(dirs: seq<DirEntry>)
    ensures ContentBytes(Mapped(DirItem, dirs)) == 0
  {
    if dirs != [] {
      NoContent(dirs[..|dirs| - 1]);
      var items := Mapped(DirItem, dirs);
      assert items[..|items| - 1] == Mapped(DirItem, dirs[..|dirs| - 1]) && items[|items| - 1] == DirItem(dirs[|dirs| - 1]);
    }
  }

  lemma {:induction false} PlanContent(dirs: seq<DirEntry>, files: seq<FileEntry>)
    ensures ContentBytes(Mapped(DirItem, dirs) + Mapped(FileItem, files)) == InputBytes(files)
  {
    var items := Mapped(DirItem, dirs) + Mapped(FileItem, files);
    if files == [] {
      assert items == Mapped(DirItem, dirs);
      NoContent(dirs);
    } else {
      PlanContent(dirs, files[..|files| - 1]);
      assert items[..|items| - 1] == Mapped(DirItem, dirs) + Mapped(FileItem, files[..|files| - 1]);
      assert items[|items| - 1] == FileItem(files[|files| - 1]);
    }
  }

  /** With the default caps, names of at most 65535 bytes and 1 GiB of them, a folder within the caps has
      an archive exactly when its plan lists no more than 65535 entries. */
  lemma FolderFitsIff(codec: Codec, cs: seq<Child>, ex: seq<Bytes>)
    requires ProperTree(cs) && Bounded(codec) && Within(Walk(cs, [], ex), 20_000, 0x8000_0000)
    requires NameBytes(ItemsOf(Walk(cs, [], ex))) <= 0x4000_0000
    requires forall i :: 0 <= i < |ItemsOf(Walk(cs, [], ex))| ==> |StoredName(ItemsOf(Walk(cs, [], ex))[i])| <= MAX16
    ensures var vs := Walk(cs, [], ex);
      ArchiveFits(codec, ItemsOf(vs)) <==> |DirsOf(vs)| + |FilesOf(vs)| <= 65_535
  {
    var vs := Walk(cs, [], ex);
    if |ItemsOf(vs)| <= MAX16 {
      forall i | 0 <= i < |ItemsOf(vs)| ensures ItemsOf(vs)[i].at.Valid() { ItemsValid(cs, ex, i); }
      PlanContent(DirsOf(vs), FilesOf(vs));
      CapsFit(codec, ItemsOf(vs));
    }
  }

  /** So at most 45535 empty folders always fit beside the files the caps allow. */
  lemma FolderFits(codec: Codec, cs: seq<Child>, ex: seq<Bytes>)
    requires ProperTree(cs) && Bounded(codec) && Within(Walk(cs, [], ex), 20_000, 0x8000_0000)
    requires |DirsOf(Walk(cs, [], ex))| <= 45_535 && NameBytes(ItemsOf(Walk(cs, [], ex))) <= 0x4000_0000
    requires forall i :: 0 <= i < |ItemsOf(Walk(cs, [], ex))| ==> |StoredName(ItemsOf(Walk(cs, [], ex))[i])| <= MAX16
    ensures ArchiveFits(codec, ItemsOf(Walk(cs, [], ex)))
  {
    FolderFitsIff(codec, cs, ex);
  }

  // ---- empty folders are not capped

  function Letter(digit: nat): byte
    requires digit < 16
  {
    (97 + digit) as byte
  }

  function FloodName(n: nat): Bytes {
    [Letter(n / 16 / 16 / 16 % 16), Letter(n / 16 / 16 % 16), Letter(n / 16 % 16), Letter(n % 16)]
  }

  function EmptyFolder(name: Bytes): Child {
    Child(name, Directory([], Moment(2024, 1, 1, 0, 0, 0)))
  }

  function Flood(n: nat): (cs: seq<Child>)
    ensures |cs| == n
  {
    if n == 0 then [] else Flood(n - 1) + [EmptyFolder(FloodName(n - 1))]
  }

  lemma EmptyFolderVisit(name: Bytes)
    requires !SkipName(name) && !BareName(name)
    ensures VisitChild(EmptyFolder(name), [], []) == [Empty([name], Moment(2024, 1, 1, 0, 0, 0))]
  {
    assert [] + [name] == [name];
    assert Walk([], [name], []) == [];
  }

  lemma FloodAdmitted(n: nat)
    ensures ProperName(FloodName(n)) && !SkipName(FloodName(n)) && !BareName(FloodName(n))
  {
    assert FloodName(n)[0] != DOT_GIT[0];
  }

  lemma OneMoreDir(vs: seq<Visit>, v: Visit)
    requires v.Empty?
    ensures DirsOf(vs + [v]) == DirsOf(vs) + [DirEntry(Join(v.path), v.at)] && FilesOf(vs + [v]) == FilesOf(vs)
  {
    assert (vs + [v])[..|vs|] == vs;
  }

  lemma OneMoreFolder(cs: seq<Child>, name: Bytes)
    requires !SkipName(name) && !BareName(name)
    ensures var more := Walk(cs + [EmptyFolder(name)], [], []);
      |DirsOf(more)| == |DirsOf(Walk(cs, [], []))| + 1 && FilesOf(more) == FilesOf(Walk(cs, [], []))
  {
    EmptyFolderVisit(name);
    assert (cs + [EmptyFolder(name)])[..|cs|] == cs;
    OneMoreDir(Walk(cs, [], []), Empty([name], Moment(2024, 1, 1, 0, 0, 0)));
  }

  lemma {:induction false} FloodPlan(n: nat)
    ensures |DirsOf(Walk(Flood(n), [], []))| == n && FilesOf(Walk(Flood(n), [], [])) == []
  {
    if n > 0 {
      FloodPlan(n - 1);
      FloodAdmitted(n - 1);
      OneMoreFolder(Flood(n - 1), FloodName(n - 1));
    }
  }

  lemma LastDigit(i: nat, j: nat)
    requires Letter(i % 16) == Letter(j % 16) && i / 16 == j / 16
    ensures i == j
  {
    SameLetter(i % 16, j % 16);
    assert i == 16 * (i / 16) + i % 16 && j == 16 * (j / 16) + j % 16;
  }

  lemma SameLetter(d: nat, e: nat)
    requires d < 16 && e < 16 && Letter(d) == Letter(e)
    ensures d == e
  {
    assert Letter(d) as nat == 97 + d && Letter(e) as nat == 97 + e;
  }

  lemma FloodNames(i: nat, j: nat)
    requires i < 0x1_0000 && j < 0x1_0000 && FloodName(i) == FloodName(j)
    ensures i == j
  {
    var a, b := FloodName(i), FloodName(j);
    assert a[0] == b[0] && a[1] == b[1] && a[2] == b[2] && a[3] == b[3];
    LastDigit(i / 16 / 16 / 16, j / 16 / 16 / 16);
    LastDigit(i / 16 / 16, j / 16 / 16);
    LastDigit(i / 16, j / 16);
    LastDigit(i, j);
  }

  lemma {:induction false} FloodFinds(n: nat, i: nat)
    requires n <= i < 0x1_0000
    ensures Find(Flood(n), FloodName(i)).None?
  {
    if n > 0 {
      FloodFinds(n - 1, i);
      assert Flood(n)[..n - 1] == Flood(n - 1);
      if FloodName(n - 1) == FloodName(i) { FloodNames(n - 1, i); }
    }
  }

  lemma {:induction false} FloodProper(n: nat)
    requires n <= 0x1_0000
    ensures ProperTree(Flood(n))
  {
    if n > 0 {
      FloodProper(n - 1);
      FloodFinds(n - 1, n - 1);
      FloodAdmitted(n - 1);
      assert Flood(n)[..n - 1] == Flood(n - 1);
    }
  }

  /** 65536 empty folders and no file: within both caps, and yet no archive can be made. */
  lemma EmptyFoldersUncapped(codec: Codec)
    ensures ProperTree(Flood(0x1_0000)) && Within(Walk(Flood(0x1_0000), [], []), 20_000, 0x8000_0000)
    ensures !ArchiveFits(codec, ItemsOf(Walk(Flood(0x1_0000), [], [])))
  {
    FloodProper(0x1_0000);
    FloodPlan(0x1_0000);
  }
}
