/** ZipWriter of zip-folder.js: what it writes, and that a reader recovers what it was given. */
module ZipWriter {
  import opened ByteStrings
  import opened Options
  import opened Records
  import opened ZipFormat
  import Crc32
  import opened ZipBuffers

  /** Raw deflate, with the reader's inverse. */
  datatype Codec = Codec(deflate: Bytes -> Bytes, inflate: Bytes -> Bytes) {
    ghost predicate Lawful() {
      forall b: Bytes :: inflate(deflate(b)) == b
    }
  }

  /** A modification time broken down in local time, as a `Date` gives it. */
  datatype Moment = Moment(year: int, month: nat, day: nat, hour: nat, minute: nat, second: nat) {
    predicate Valid() {
      1 <= month <= 12 && 1 <= day <= 31 && hour < 24 && minute < 60 && second < 60
    }
  }

  /** MS-DOS date and time words (section 4.4.6). */
  function DosDate(m: Moment): nat {
    if m.year < 1980 then 33
    else ((if m.year > 2107 then 2107 else m.year) - 1980) * 512 + m.month * 32 + m.day
  }

  function DosTime(m: Moment): nat {
    if m.year < 1980 then 0 else m.hour * 2048 + m.minute * 32 + m.second / 2
  }

  /** The stored words give back the moment at two-second resolution, for the years they can hold;
      earlier moments become the first one, later years the last. */
  lemma DosStampReads(m: Moment)
    requires m.Valid()
    ensures DosDate(m) <= MAX16 && DosTime(m) <= MAX16
    ensures m.year < 1980 ==> DosDate(m) / 512 == 0 && DosDate(m) / 32 % 16 == 1 && DosDate(m) % 32 == 1 && DosTime(m) == 0
    ensures m.year >= 1980 ==>
      && DosDate(m) / 512 + 1980 == (if m.year > 2107 then 2107 else m.year)
      && DosDate(m) / 32 % 16 == m.month && DosDate(m) % 32 == m.day
      && DosTime(m) / 2048 == m.hour && DosTime(m) / 32 % 64 == m.minute && DosTime(m) % 32 == m.second / 2
  {
    if m.year >= 1980 {
      WordFields((if m.year > 2107 then 2107 else m.year) - 1980, m.month, m.day, 16);
      WordFields(m.hour, m.minute, m.second / 2, 64);
    }
  }

  lemma WordFields(high: nat, mid: nat, low: nat, width: nat)
    requires (width == 16 || width == 64) && mid < width && low < 32
    ensures var w := high * (32 * width) + mid * 32 + low;
      w / (32 * width) == high && w / 32 % width == mid && w % 32 == low
  {
    var w := high * (32 * width) + mid * 32 + low;
    assert w / 32 == high * width + mid;
  }

  /** What the caller adds: an empty folder, or a file. */
  datatype Item =
    | Folder(name: Bytes, at: Moment)
    | File(name: Bytes, at: Moment, mode: nat, content: Bytes)

  const SLASH: byte := 47

  function TrimSlashes(name: Bytes): Bytes {
    if name != [] && name[|name| - 1] == SLASH then TrimSlashes(name[..|name| - 1]) else name
  }

  /** The bytes stored for an item. */
  function Stored(codec: Codec, it: Item): Bytes {
    if it.File? then codec.deflate(it.content) else []
  }

  function EntryOf(codec: Codec, it: Item, offset: nat): Entry {
    match it
    case Folder(name, at) =>
      Entry(TrimSlashes(name) + [SLASH], METHOD_STORE, DosTime(at), DosDate(at), 0, 0, 0, offset, 0x41ed, true)
    case File(name, at, mode, content) =>
      Entry(name, METHOD_DEFLATE, DosTime(at), DosDate(at), Crc32.Crc(content), |codec.deflate(content)|, |content|, offset, mode, false)
  }

  /** What the writer's fixed-width fields can hold; `writeUInt16LE` and `writeUInt32LE` throw beyond. */
  ghost predicate ItemFits(codec: Codec, it: Item) {
    var e := EntryOf(codec, it, 0);
    |e.name| <= MAX16 && e.csize <= MAX32 && e.usize <= MAX32
  }

  // ---- the archive of a list of items

  function RecordOf(codec: Codec): Item -> Bytes {
    (it: Item) => LocalRecord(EntryOf(codec, it, 0), Stored(codec, it))
  }

  function Locals(codec: Codec, items: seq<Item>): Bytes {
    Flat(RecordOf(codec), items)
  }

  function Entries(codec: Codec, items: seq<Item>): seq<Entry> {
    seq(|items|, i requires 0 <= i < |items| => EntryOf(codec, items[i], |Locals(codec, items[..i])|))
  }

  function Central(es: seq<Entry>): Bytes {
    Flat(CentralHeader, es)
  }

  function Archive(codec: Codec, items: seq<Item>): Bytes {
    Closed(Locals(codec, items), Central(Entries(codec, items)), |items|)
  }

  /** Records and directory with the end record after them. */
  function Closed(locals: Bytes, central: Bytes, count: nat): Bytes {
    locals + central + EndRecord(count, |central|, |locals|)
  }

  ghost predicate AllFit(codec: Codec, items: seq<Item>) {
    forall i :: 0 <= i < |items| ==> ItemFits(codec, items[i]) && items[i].at.Valid()
  }

  ghost predicate ArchiveFits(codec: Codec, items: seq<Item>) {
    && AllFit(codec, items)
    && |items| <= MAX16
    && |Locals(codec, items)| <= MAX32
    && |Central(Entries(codec, items))| <= MAX32
  }

  // ---- reading an archive back

  /** One item as a reader extracts it: modes are cut to 16 bits and times to DOS words. */
  datatype Extracted = Extracted(name: Bytes, isDir: bool, mode: nat, time: nat, date: nat, content: Bytes)

  function ExtractedOf(it: Item): Extracted {
    match it
    case Folder(name, at) => Extracted(TrimSlashes(name) + [SLASH], true, 0x41ed, DosTime(at), DosDate(at), [])
    case File(name, at, mode, content) => Extracted(name, false, mode % 0x1_0000, DosTime(at), DosDate(at), content)
  }

  /** Decode one entry of the archive `b`: it is stored or deflated (methods 0 and 8 of section 4.4.5), and the
      content must match its size and its CRC. */
  function Extract(codec: Codec, b: Bytes, e: Entry): Option<Extracted> {
    if e.offset > |b| || (e.compression != 0 && e.compression != 8) then None
    else
      match ReadLocal(b[e.offset..], e)
      case None => None
      case Some(stored) =>
        var content := if e.compression == 8 then codec.inflate(stored) else stored;
        if |content| != e.usize || Crc32.Crc(content) != e.crc then None
        else Some(Extracted(e.name, e.isDir, e.mode, e.time, e.date, content))
  }

  function Extractor(codec: Codec, b: Bytes): Entry -> Option<Extracted> {
    (e: Entry) => Extract(codec, b, e)
  }

  /** Start at the end record, walk the central directory, follow each offset. */
  function ReadArchive(codec: Codec, b: Bytes): Option<seq<Extracted>> {
    match ReadEnd(b)
    case None => None
    case Some((count, cdSize, cdStart)) =>
      if cdStart + cdSize + 22 != |b| then None
      else
        match ReadMany(ReadCentralHeader, b[cdStart..cdStart + cdSize], count)
        case None => None
        case Some(es) => Traverse(Extractor(codec, b), es)
  }

  // ---- proofs

  /** The local records tile the file: each starts where the one before ends, the first at 0, and the
      central directory follows the last. */
  lemma LocalsTile(codec: Codec, items: seq<Item>, i: nat)
    requires i < |items|
    ensures var es := Entries(codec, items);
      var end := es[i].offset + 30 + |es[i].name| + es[i].csize + 16;
      && (i == 0 ==> es[i].offset == 0)
      && end == if i + 1 < |es| then es[i + 1].offset else |Locals(codec, items)|
  {
    FlatAt(RecordOf(codec), items, i);
    RecordLength(codec, items[i], |Locals(codec, items[..i])|);
    OffsetOf(codec, items, i);
    if i + 1 < |items| { OffsetOf(codec, items, i + 1); } else { assert items[..|items|] == items; }
    assert items[..0] == [];
  }

  lemma OffsetOf(codec: Codec, items: seq<Item>, i: nat)
    requires i < |items|
    ensures Entries(codec, items)[i] == EntryOf(codec, items[i], |Locals(codec, items[..i])|)
    ensures Entries(codec, items)[i].offset == |Locals(codec, items[..i])|
  {}

  lemma RecordLength(codec: Codec, it: Item, offset: nat)
    ensures |RecordOf(codec)(it)| == 30 + |EntryOf(codec, it, offset).name| + EntryOf(codec, it, offset).csize + 16
    ensures EntryOf(codec, it, offset).offset == offset
  {}

  lemma EntriesFit(codec: Codec, items: seq<Item>, i: nat)
    requires ArchiveFits(codec, items) && i < |items|
    ensures Entries(codec, items)[i].Fits()
  {
    FlatAt(RecordOf(codec), items, i);
    DosStampReads(items[i].at);
    if items[i].File? { Crc32.CrcIsWord(items[i].content); }
  }

  function CutMode(e: Entry): Entry {
    e.(mode := e.mode % 0x1_0000)
  }

  lemma CentralReads(es: seq<Entry>)
    requires forall i :: 0 <= i < |es| ==> es[i].Fits()
    ensures ReadMany(ReadCentralHeader, Central(es), |es|) == Some(Mapped(CutMode, es))
  {
    forall e, rest: Bytes | e in es
      ensures ReadCentralHeader(CentralHeader(e) + rest) == Some((CutMode(e), |CentralHeader(e)|))
    {
      CentralHeaderReads(e, rest);
    }
    FlatReads(CentralHeader, ReadCentralHeader, CutMode, es);
  }

  /** A stored record decodes to its item. */
  lemma RecordDecodes(codec: Codec, b: Bytes, it: Item, e: Entry)
    requires codec.Lawful() && e == CutMode(EntryOf(codec, it, e.offset))
    requires e.offset <= |b| && ReadLocal(b[e.offset..], e) == Some(Stored(codec, it))
    ensures Extract(codec, b, e) == Some(ExtractedOf(it))
  {
    Crc32.CrcIsWord([]);
    match it
    case Folder(_, _) => assert Stored(codec, it) == [];
    case File(_, _, _, content) => assert codec.inflate(Stored(codec, it)) == content;
  }

  lemma RecordReads(codec: Codec, it: Item, offset: nat, rest: Bytes)
    requires EntryOf(codec, it, offset).Fits()
    ensures ReadLocal(RecordOf(codec)(it) + rest, CutMode(EntryOf(codec, it, offset))) == Some(Stored(codec, it))
  {
    var e := CutMode(EntryOf(codec, it, offset));
    RecordLength(codec, it, offset);
    LocalRecordReads(e, Stored(codec, it), rest);
    assert RecordOf(codec)(it) == LocalRecord(e, Stored(codec, it));
  }

  lemma EntryReads(codec: Codec, items: seq<Item>, i: nat, tail: Bytes)
    requires codec.Lawful() && ArchiveFits(codec, items) && i < |items|
    ensures Extract(codec, Locals(codec, items) + tail, CutMode(Entries(codec, items)[i])) == Some(ExtractedOf(items[i]))
  {
    var r := RecordOf(codec);
    var before, after := Flat(r, items[..i]), Flat(r, items[i + 1..]);
    FlatAt(r, items, i);
    EntriesFit(codec, items, i);
    DropFront(before, r(items[i]), after, tail);
    RecordReads(codec, items[i], |before|, after + tail);
    RecordDecodes(codec, Locals(codec, items) + tail, items[i], CutMode(EntryOf(codec, items[i], |before|)));
  }

  lemma DropFront(a: Bytes, r: Bytes, c: Bytes, d: Bytes)
    ensures ((a + (r + c)) + d)[|a|..] == r + (c + d)
  {}

  lemma AllExtract(codec: Codec, items: seq<Item>, tail: Bytes)
    requires codec.Lawful() && ArchiveFits(codec, items)
    ensures Traverse(Extractor(codec, Locals(codec, items) + tail), Mapped(CutMode, Entries(codec, items)))
      == Some(Mapped(ExtractedOf, items))
  {
    var f := Extractor(codec, Locals(codec, items) + tail);
    var es, xs := Mapped(CutMode, Entries(codec, items)), Mapped(ExtractedOf, items);
    forall i | 0 <= i < |es| ensures f(es[i]) == Some(xs[i]) {
      EntryReads(codec, items, i, tail);
    }
    TraverseAll(f, es, xs);
  }

  lemma ReadsParts(codec: Codec, locals: Bytes, central: Bytes, end: Bytes, count: nat, es: seq<Entry>, xs: seq<Extracted>)
    requires |end| == 22 && ReadEnd(locals + central + end) == Some((count, |central|, |locals|))
    requires ReadMany(ReadCentralHeader, central, count) == Some(es)
    requires Traverse(Extractor(codec, locals + (central + end)), es) == Some(xs)
    ensures ReadArchive(codec, locals + central + end) == Some(xs)
  {
    var b := locals + central + end;
    assert b[|locals|..|locals| + |central|] == central;
    assert b == locals + (central + end);
  }

  /** A reader of the archive recovers every item: names, kinds, modes, times and bytes, in order. */
  lemma ArchiveReadsBack(codec: Codec, items: seq<Item>)
    requires codec.Lawful() && ArchiveFits(codec, items)
    ensures ReadArchive(codec, Archive(codec, items)) == Some(Mapped(ExtractedOf, items))
  {
    var locals, es := Locals(codec, items), Entries(codec, items);
    var central := Central(es);
    var end := EndRecord(|items|, |central|, |locals|);
    EndReads(locals + central, |items|, |central|, |locals|);
    forall i | 0 <= i < |es| ensures es[i].Fits() { EntriesFit(codec, items, i); }
    CentralReads(es);
    AllExtract(codec, items, central + end);
    ReadsParts(codec, locals, central, end, |items|, Mapped(CutMode, es), Mapped(ExtractedOf, items));
  }

  // ---- the writer

  class Writer {
    const codec: Codec
    const table: array<nat>
    var out: Bytes
    var offset: nat
    var entries: seq<Entry>
    ghost var items: seq<Item>

    /** Everything added so far has been written, and fits the fields it was written to. */
    ghost predicate Valid()
      reads this, table
    {
      && Crc32.IsTable(table)
      && out == Locals(codec, items) && offset == |out| && entries == Entries(codec, items)
      && AllFit(codec, items)
    }

    constructor (codec: Codec)
      ensures Valid() && fresh(table) && items == [] && this.codec == codec
    {
      var crcTable := Crc32.BuildTable();
      this.codec, table := codec, crcTable;
      out, offset, entries, items := [], 0, [], [];
    }

    method Write(buf: Bytes)
      modifies this`out, this`offset
      ensures out == old(out) + buf && offset == old(offset) + |buf|
    {
      offset := offset + |buf|;
      out := out + buf;
    }

    /** What one more item does to the abstract archive. */
    lemma Added(before: Bytes, it: Item)
      requires before == Locals(codec, items)
      ensures Locals(codec, items + [it]) == before + LocalRecord(EntryOf(codec, it, 0), Stored(codec, it))
      ensures Entries(codec, items + [it]) == Entries(codec, items) + [EntryOf(codec, it, |before|)]
    {
      assert (items + [it])[..|items|] == items;
      forall i | 0 <= i < |items| ensures Entries(codec, items + [it])[i] == Entries(codec, items)[i] {
        assert (items + [it])[..i] == items[..i];
      }
    }

    method WriteLocalHeader(name: Bytes, compression: nat, at: Moment) returns (ok: bool)
      requires at.Valid() && compression <= MAX16
      modifies this`out, this`offset
      ensures ok <==> |name| <= MAX16
      ensures ok ==> var h := LocalHeader(name, compression, DosTime(at), DosDate(at));
        out == old(out) + h && offset == old(offset) + |h|
      ensures !ok ==> out == old(out) && offset == old(offset)
    {
      DosStampReads(at);
      var h;
      ok, h := LocalHeaderBuffer(name, compression, DosTime(at), DosDate(at));
      if !ok { return; }
      LocalFieldsDecide(h[..], name, compression, DosTime(at), DosDate(at));
      Write(h[..]);
    }

    method WriteDescriptor(crc: nat, csize: nat, usize: nat) returns (ok: bool)
      requires crc <= MAX32
      modifies this`out, this`offset
      ensures ok <==> csize <= MAX32 && usize <= MAX32
      ensures ok ==> out == old(out) + Descriptor(crc, csize, usize) && offset == old(offset) + 16
    {
      var d;
      ok, d := DescriptorBuffer(crc, csize, usize);
      if !ok { return; }
      DescriptorFieldsDecide(d[..], crc, csize, usize);
      Write(d[..]);
    }

    /** The read stream's chunks: running CRC and size. */
    method Measure(chunks: seq<Bytes>) returns (crc: nat, usize: nat)
      requires Crc32.IsTable(table)
      ensures crc == Crc32.Crc(Crc32.Flatten(chunks)) && crc <= MAX32 && usize == |Crc32.Flatten(chunks)|
    {
      crc, usize := 0, 0;
      for i := 0 to |chunks|
        invariant crc == Crc32.Crc(Crc32.Flatten(chunks[..i])) && usize == |Crc32.Flatten(chunks[..i])|
      {
        assert chunks[..i + 1][..i] == chunks[..i];
        Crc32.CrcContinues(Crc32.Flatten(chunks[..i]), chunks[i]);
        crc := Crc32.Update(table, chunks[i], crc);
        usize := usize + |chunks[i]|;
      }
      assert chunks[..|chunks|] == chunks;
      Crc32.CrcIsWord(Crc32.Flatten(chunks));
    }

    /** The deflate stream's chunks, written as they come. */
    method Drain(packed: seq<Bytes>) returns (csize: nat)
      modifies this`out, this`offset
      ensures out == old(out) + Crc32.Flatten(packed) && offset == old(offset) + csize
      ensures csize == |Crc32.Flatten(packed)|
    {
      csize := 0;
      for i := 0 to |packed|
        invariant out == old(out) + Crc32.Flatten(packed[..i])
        invariant csize == |Crc32.Flatten(packed[..i])| && offset == old(offset) + csize
      {
        assert packed[..i + 1][..i] == packed[..i];
        csize := csize + |packed[i]|;
        Write(packed[i]);
      }
      assert packed[..|packed|] == packed;
    }

    /** Record an entry whose local record has just been written after `before`. */
    method Push(e: Entry, ghost before: Bytes, ghost it: Item)
      requires Crc32.IsTable(table) && before == Locals(codec, items) && entries == Entries(codec, items)
      requires AllFit(codec, items) && ItemFits(codec, it) && it.at.Valid()
      requires e == EntryOf(codec, it, |before|)
      requires out == before + LocalRecord(e, Stored(codec, it)) && offset == |out|
      modifies this`entries, this`items
      ensures Valid() && items == old(items) + [it] && entries == old(entries) + [e]
    {
      Added(before, it);
      entries := entries + [e];
      items := items + [it];
    }

    method AddDirectory(name: Bytes, at: Moment) returns (ok: bool)
      requires Valid() && at.Valid()
      modifies this
      ensures ok <==> ItemFits(codec, Folder(name, at))
      ensures ok ==> Valid() && items == old(items) + [Folder(name, at)]
      ensures !ok ==> entries == old(entries) && out == old(out)
    {
      var nameBuf, start := TrimSlashes(name) + [SLASH], offset;
      ok := WriteLocalHeader(nameBuf, METHOD_STORE, at);
      if !ok { return; }
      var _ := WriteDescriptor(0, 0, 0);
      RegroupEmpty(old(out), LocalHeader(nameBuf, METHOD_STORE, DosTime(at), DosDate(at)), Descriptor(0, 0, 0));
      Push(Entry(nameBuf, METHOD_STORE, DosTime(at), DosDate(at), 0, 0, 0, start, 0x41ed, true), old(out), Folder(name, at));
    }

    /** The read stream delivers the file as `chunks`, the deflate stream its output as `packed`. */
    method AddFile(name: Bytes, chunks: seq<Bytes>, packed: seq<Bytes>, at: Moment, mode: nat) returns (ok: bool)
      requires Valid() && at.Valid()
      requires Crc32.Flatten(packed) == codec.deflate(Crc32.Flatten(chunks))
      modifies this
      ensures ok <==> ItemFits(codec, File(name, at, mode, Crc32.Flatten(chunks)))
      ensures ok ==> Valid() && items == old(items) + [File(name, at, mode, Crc32.Flatten(chunks))]
      ensures !ok ==> entries == old(entries)
    {
      var start := offset;
      ok := WriteLocalHeader(name, METHOD_DEFLATE, at);
      if !ok { return; }
      var crc, usize := Measure(chunks);
      var csize := Drain(packed);
      ok := WriteDescriptor(crc, csize, usize);
      if !ok { return; }
      Regroup(old(out), LocalHeader(name, METHOD_DEFLATE, DosTime(at), DosDate(at)), Crc32.Flatten(packed), Descriptor(crc, csize, usize));
      Push(Entry(name, METHOD_DEFLATE, DosTime(at), DosDate(at), crc, csize, usize, start, mode, false),
        old(out), File(name, at, mode, Crc32.Flatten(chunks)));
    }

    method WriteCentralHeader(e: Entry) returns (ok: bool)
      requires e.(offset := 0).Fits()
      modifies this`out, this`offset
      ensures ok <==> e.offset <= MAX32
      ensures ok ==> out == old(out) + CentralHeader(e) && offset == old(offset) + |CentralHeader(e)|
    {
      var h;
      ok, h := CentralHeaderBuffer(e);
      if !ok { return; }
      CentralFieldsDecide(h[..], e);
      Write(h[..]);
    }

    /** The central headers, in order; stops at an offset too wide for its field. */
    method WriteCentral(ghost header: Entry -> Bytes) returns (ok: bool)
      requires offset == |out| && forall i :: 0 <= i < |entries| ==> entries[i].(offset := 0).Fits()
      requires forall i :: 0 <= i < |entries| ==> HeaderIs(header, entries[i])
      modifies this`out, this`offset
      ensures ok <==> forall i :: 0 <= i < |entries| ==> entries[i].offset <= MAX32
      ensures ok ==> out == old(out) + Flat(header, entries) && offset == |out|
    {
      ok := true;
      for i := 0 to |entries|
        invariant out == old(out) + Flat(header, entries[..i]) && offset == |out|
        invariant ok && forall j :: 0 <= j < i ==> entries[j].offset <= MAX32
      {
        ok := WriteCentralHeader(entries[i]);
        if !ok {
          assert entries[i].offset > MAX32;
          return;
        }
        assert HeaderIs(header, entries[i]);
        FlatStep(header, entries, i);
        Assoc(old(out), Flat(header, entries[..i]), header(entries[i]));
      }
      assert entries[..|entries|] == entries;
    }

    method WriteEnd(cdStart: nat, ghost locals: Bytes, ghost central: Bytes) returns (ok: bool)
      requires out == locals + central && offset == |out| && cdStart == |locals|
      modifies this`out, this`offset
      ensures ok <==> |entries| <= MAX16 && |central| <= MAX32 && |locals| <= MAX32
      ensures ok ==> out == Closed(locals, central, |entries|) && offset == |out|
    {
      var end;
      ok, end := EndBuffer(|entries|, offset - cdStart, cdStart);
      if !ok { return; }
      EndFieldsDecide(end[..], |entries|, offset - cdStart, cdStart);
      Write(end[..]);
    }

    /** Succeeds exactly when everything fits, and then the file is the archive of what was added. */
    method Finalize() returns (ok: bool)
      requires Valid()
      modifies this`out, this`offset
      ensures ok <==> ArchiveFits(codec, items)
      ensures ok ==> out == Archive(codec, items) && offset == |out|
    {
      var cdStart := offset;
      OffsetsWithin(codec, items);
      ok := WriteCentral(CentralHeader);
      if !ok { return; }
      ok := WriteEnd(cdStart, Locals(codec, items), Central(entries));
    }
  }

  ghost predicate HeaderIs(header: Entry -> Bytes, e: Entry) {
    header(e) == CentralHeader(e)
  }

  lemma Assoc(a: Bytes, b: Bytes, c: Bytes)
    ensures a + b + c == a + (b + c)
  {}

  lemma Regroup(a: Bytes, b: Bytes, c: Bytes, d: Bytes)
    ensures a + b + c + d == a + (b + c + d)
  {}

  lemma RegroupEmpty(a: Bytes, b: Bytes, d: Bytes)
    ensures a + b + d == a + (b + [] + d)
  {
    assert b + [] == b;
  }

  lemma OffsetsWithin(codec: Codec, items: seq<Item>)
    requires AllFit(codec, items)
    ensures var es := Entries(codec, items);
      forall i :: 0 <= i < |es| ==> es[i].(offset := 0).Fits() && es[i].offset <= |Locals(codec, items)|
  {
    forall i | 0 <= i < |items|
      ensures Entries(codec, items)[i].(offset := 0).Fits() && Entries(codec, items)[i].offset <= |Locals(codec, items)|
    {
        OffsetWithin(codec, items, i);
    }
  }

  /** Entries other than their offsets fit when their items do; no offset lies past the last record. */
  lemma OffsetWithin(codec: Codec, items: seq<Item>, i: nat)
    requires i < |items| && ItemFits(codec, items[i]) && items[i].at.Valid()
    ensures Entries(codec, items)[i].(offset := 0).Fits() && Entries(codec, items)[i].offset <= |Locals(codec, items)|
  {
    FlatAt(RecordOf(codec), items, i);
    DosStampReads(items[i].at);
    if items[i].File? { Crc32.CrcIsWord(items[i].content); }
  }
}
