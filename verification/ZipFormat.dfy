/** The records of a ZIP archive (PKWARE APPNOTE sections 4.3.7, 4.3.9, 4.3.12 and 4.3.16, without
    ZIP64) as zip-folder.js lays them out, and a reader of archives written from the standard. */
module ZipFormat {
  import opened ByteStrings
  import opened Options
  import opened Records

  const SIG_LOCAL: nat := 0x0403_4b50
  const SIG_DESC: nat := 0x0807_4b50
  const SIG_CENTRAL: nat := 0x0201_4b50
  const SIG_END: nat := 0x0605_4b50
  const VERSION_MADE_BY: nat := 3 * 256 + 20
  const VERSION_NEEDED: nat := 20
  const FLAGS: nat := 0x0008 + 0x0800
  const METHOD_STORE: nat := 0
  const METHOD_DEFLATE: nat := 8
  const MAX16: nat := 0xffff
  const MAX32: nat := 0xffff_ffff

  // ---- little-endian fields

  function B0(n: nat): byte { (n % 256) as byte }
  function B1(n: nat): byte { (n / 0x100 % 256) as byte }
  function B2(n: nat): byte { (n / 0x100 / 0x100 % 256) as byte }
  function B3(n: nat): byte { (n / 0x100 / 0x100 / 0x100 % 256) as byte }

  function Get16(b: Bytes, at: nat): nat
    requires at + 2 <= |b|
  {
    b[at] as nat + 0x100 * b[at + 1] as nat
  }

  function Get32(b: Bytes, at: nat): nat
    requires at + 4 <= |b|
  {
    b[at] as nat + 0x100 * b[at + 1] as nat + 0x1_0000 * b[at + 2] as nat + 0x100_0000 * b[at + 3] as nat
  }

  /** Two little-endian bytes hold a number exactly up to MAX16, four exactly up to MAX32. */
  lemma Field16(n: nat)
    ensures B0(n) as nat + 0x100 * B1(n) as nat == n <==> n <= MAX16
  {}

  lemma Field32(n: nat)
    ensures B0(n) as nat + 0x100 * B1(n) as nat + 0x1_0000 * B2(n) as nat + 0x100_0000 * B3(n) as nat == n <==> n <= MAX32
  {}

  /** What the central directory says of one entry. */
  datatype Entry = Entry(name: Bytes, compression: nat, time: nat, date: nat, crc: nat, csize: nat, usize: nat,
                         offset: nat, mode: nat, isDir: bool)
  {
    /** Unix mode in the high half, the DOS directory bit in the low. */
    function Attributes(): nat {
      mode % 0x1_0000 * 0x1_0000 + if isDir then 0x10 else 0
    }

    ghost predicate Fits() {
      && |name| <= MAX16 && compression <= MAX16 && time <= MAX16 && date <= MAX16
      && crc <= MAX32 && csize <= MAX32 && usize <= MAX32 && offset <= MAX32
    }
  }

  function LocalHeader(name: Bytes, compression: nat, time: nat, date: nat): Bytes {
    [0x50, 0x4b, 0x03, 0x04,
     0x14, 0x00, 0x08, 0x08, B0(compression), B1(compression),
     B0(time), B1(time), B0(date), B1(date)] +
    [0, 0, 0, 0, 0, 0, 0, 0, 0, 0, 0, 0, B0(|name|), B1(|name|), 0, 0] + name
  }

  function Descriptor(crc: nat, csize: nat, usize: nat): Bytes {
    [0x50, 0x4b, 0x07, 0x08, B0(crc), B1(crc), B2(crc), B3(crc),
     B0(csize), B1(csize), B2(csize), B3(csize), B0(usize), B1(usize), B2(usize), B3(usize)]
  }

  function CentralHeader(e: Entry): Bytes {
    [0x50, 0x4b, 0x01, 0x02,
     0x14, 0x03, 0x14, 0x00, 0x08, 0x08,
     B0(e.compression), B1(e.compression), B0(e.time), B1(e.time), B0(e.date), B1(e.date)] +
    [B0(e.crc), B1(e.crc), B2(e.crc), B3(e.crc), B0(e.csize), B1(e.csize), B2(e.csize), B3(e.csize),
     B0(e.usize), B1(e.usize), B2(e.usize), B3(e.usize)] +
    [B0(|e.name|), B1(|e.name|), 0, 0, 0, 0, 0, 0, 0, 0] +
    [B0(e.Attributes()), B1(e.Attributes()), B2(e.Attributes()), B3(e.Attributes()),
     B0(e.offset), B1(e.offset), B2(e.offset), B3(e.offset)] + e.name
  }

  function EndRecord(count: nat, cdSize: nat, cdStart: nat): Bytes {
    [0x50, 0x4b, 0x05, 0x06, 0, 0, 0, 0, B0(count), B1(count), B0(count), B1(count),
     B0(cdSize), B1(cdSize), B2(cdSize), B3(cdSize), B0(cdStart), B1(cdStart), B2(cdStart), B3(cdStart), 0, 0]
  }

  // ---- reader

  /** The end record of an archive without a comment: entry count, central directory size and start. */
  function ReadEnd(b: Bytes): Option<(nat, nat, nat)> {
    if |b| < 22 then None
    else
      var at := |b| - 22;
      if Get32(b, at) != SIG_END || Get16(b, at + 20) != 0 || Get16(b, at + 8) != Get16(b, at + 10) then None
      else Some((Get16(b, at + 10), Get32(b, at + 12), Get32(b, at + 16)))
  }

  /** One central header at the front of `s`: the entry and the length it takes. */
  function ReadCentralHeader(s: Bytes): Option<(Entry, nat)> {
    if |s| < 46 || Get32(s, 0) != SIG_CENTRAL then None
    else
      var n, len := Get16(s, 28), 46 + Get16(s, 28) + Get16(s, 30) + Get16(s, 32);
      if |s| < len then None
      else
        var attrs := Get32(s, 38);
        Some((Entry(s[46..46 + n], Get16(s, 10), Get16(s, 12), Get16(s, 14), Get32(s, 16), Get32(s, 20), Get32(s, 24),
                    Get32(s, 42), attrs / 0x1_0000, attrs % 0x1_0000 / 0x10 % 2 == 1), len))
  }

  /** The local entry at the front of `s`, whose sizes the central directory gives (bit 3 is set): its
      stored bytes, when header and descriptor agree with the directory. */
  function ReadLocal(s: Bytes, e: Entry): Option<Bytes> {
    if |s| < 30 || Get32(s, 0) != SIG_LOCAL || Get16(s, 6) != FLAGS || Get16(s, 8) != e.compression
      || Get16(s, 10) != e.time || Get16(s, 12) != e.date then None
    else
      var n, start := Get16(s, 26), 30 + Get16(s, 26) + Get16(s, 28);
      if |s| < start + e.csize + 16 || s[30..30 + n] != e.name then None
      else
        var d := s[start + e.csize..];
        if Get32(d, 0) != SIG_DESC || Get32(d, 4) != e.crc || Get32(d, 8) != e.csize || Get32(d, 12) != e.usize then None
        else Some(s[start..start + e.csize])
  }

  // ---- the reader undoes each record

  ghost predicate Holds16(b: Bytes, at: nat, n: nat) {
    at + 2 <= |b| && b[at] == B0(n) && b[at + 1] == B1(n)
  }

  ghost predicate Holds32(b: Bytes, at: nat, n: nat) {
    at + 4 <= |b| && b[at] == B0(n) && b[at + 1] == B1(n) && b[at + 2] == B2(n) && b[at + 3] == B3(n)
  }

  lemma Got16(b: Bytes, at: nat, n: nat)
    requires Holds16(b, at, n) && n <= MAX16
    ensures Get16(b, at) == n
  {
    Field16(n);
  }

  lemma Got32(b: Bytes, at: nat, n: nat)
    requires Holds32(b, at, n) && n <= MAX32
    ensures Get32(b, at) == n
  {
    Field32(n);
  }

  lemma CentralSignature(e: Entry, rest: Bytes)
    ensures Get32(CentralHeader(e) + rest, 0) == SIG_CENTRAL
  {
  }

  lemma CentralShorts(e: Entry, rest: Bytes)
    requires e.Fits()
    ensures var s := CentralHeader(e) + rest;
      && Get16(s, 10) == e.compression && Get16(s, 12) == e.time && Get16(s, 14) == e.date
      && Get16(s, 28) == |e.name| && Get16(s, 30) == 0 && Get16(s, 32) == 0
  {
    var s := CentralHeader(e) + rest;
    Got16(s, 10, e.compression); Got16(s, 12, e.time); Got16(s, 14, e.date);
    Got16(s, 28, |e.name|); Got16(s, 30, 0); Got16(s, 32, 0);
  }

  lemma CentralSizesRead(e: Entry, rest: Bytes)
    requires e.Fits()
    ensures var s := CentralHeader(e) + rest;
      Get32(s, 16) == e.crc && Get32(s, 20) == e.csize && Get32(s, 24) == e.usize
  {
    var s := CentralHeader(e) + rest;
    Got32(s, 16, e.crc); Got32(s, 20, e.csize); Got32(s, 24, e.usize);
  }

  lemma CentralPlaceRead(e: Entry, rest: Bytes)
    requires e.Fits()
    ensures var s := CentralHeader(e) + rest;
      Get32(s, 38) == e.Attributes() && Get32(s, 42) == e.offset
  {
    var s := CentralHeader(e) + rest;
    Got32(s, 38, e.Attributes()); Got32(s, 42, e.offset);
  }

  lemma CentralName(e: Entry, rest: Bytes)
    ensures (CentralHeader(e) + rest)[46..46 + |e.name|] == e.name
  {}

  lemma AttributesRead(e: Entry)
    ensures e.Attributes() / 0x1_0000 == e.mode % 0x1_0000 && (e.Attributes() % 0x1_0000 / 0x10 % 2 == 1 <==> e.isDir)
  {
    HalvesRead(e.mode % 0x1_0000, if e.isDir then 0x10 else 0);
  }

  lemma HalvesRead(high: nat, low: nat)
    requires low < 0x1_0000
    ensures (high * 0x1_0000 + low) / 0x1_0000 == high && (high * 0x1_0000 + low) % 0x1_0000 == low
  {}

  /** Reading a central header gives back its entry, with the mode cut to 16 bits. */
  lemma CentralHeaderReads(e: Entry, rest: Bytes)
    requires e.Fits()
    ensures ReadCentralHeader(CentralHeader(e) + rest) == Some((e.(mode := e.mode % 0x1_0000), |CentralHeader(e)|))
  {
    CentralSignature(e, rest);
    CentralShorts(e, rest);
    CentralSizesRead(e, rest);
    CentralPlaceRead(e, rest);
    CentralName(e, rest);
    AttributesRead(e);
  }

  lemma DescriptorReads(e: Entry, rest: Bytes)
    requires e.Fits()
    ensures var d := Descriptor(e.crc, e.csize, e.usize) + rest;
      Get32(d, 0) == SIG_DESC && Get32(d, 4) == e.crc && Get32(d, 8) == e.csize && Get32(d, 12) == e.usize
  {
    var d := Descriptor(e.crc, e.csize, e.usize) + rest;
    assert Get32(d, 0) == SIG_DESC;
    Got32(d, 4, e.crc); Got32(d, 8, e.csize); Got32(d, 12, e.usize);
  }

  lemma LocalHeaderReads(e: Entry, rest: Bytes)
    requires e.Fits()
    ensures var s := LocalHeader(e.name, e.compression, e.time, e.date) + rest;
      && Get32(s, 0) == SIG_LOCAL && Get16(s, 6) == FLAGS && Get16(s, 8) == e.compression
      && Get16(s, 10) == e.time && Get16(s, 12) == e.date && Get16(s, 26) == |e.name| && Get16(s, 28) == 0
      && s[30..30 + |e.name|] == e.name
  {
    var s := LocalHeader(e.name, e.compression, e.time, e.date) + rest;
    assert Get32(s, 0) == SIG_LOCAL && Get16(s, 6) == FLAGS;
    Got16(s, 8, e.compression); Got16(s, 10, e.time);
    Got16(s, 12, e.date); Got16(s, 26, |e.name|); Got16(s, 28, 0);
  }

  /** One local entry as written: header, stored bytes, descriptor. */
  function LocalRecord(e: Entry, stored: Bytes): Bytes {
    LocalHeader(e.name, e.compression, e.time, e.date) + stored + Descriptor(e.crc, e.csize, e.usize)
  }

  lemma Sliced(h: Bytes, m: Bytes, d: Bytes, s: Bytes)
    requires s == h + m + d
    ensures s[|h|..|h| + |m|] == m && s[|h| + |m|..] == d && s == h + (m + d)
  {}

  lemma LocalRecordReads(e: Entry, stored: Bytes, rest: Bytes)
    requires e.Fits() && |stored| == e.csize
    ensures ReadLocal(LocalRecord(e, stored) + rest, e) == Some(stored)
  {
    var h, d := LocalHeader(e.name, e.compression, e.time, e.date), Descriptor(e.crc, e.csize, e.usize);
    var s := LocalRecord(e, stored) + rest;
    assert s == h + stored + (d + rest);
    Sliced(h, stored, d + rest, s);
    LocalHeaderReads(e, stored + (d + rest));
    DescriptorReads(e, rest);
  }

  lemma EndReads(before: Bytes, count: nat, cdSize: nat, cdStart: nat)
    requires count <= MAX16 && cdSize <= MAX32 && cdStart <= MAX32
    ensures ReadEnd(before + EndRecord(count, cdSize, cdStart)) == Some((count, cdSize, cdStart))
  {
    var b, at := before + EndRecord(count, cdSize, cdStart), |before|;
    assert Get32(b, at) == SIG_END;
    Got16(b, at + 20, 0); Got16(b, at + 8, count); Got16(b, at + 10, count);
    Got32(b, at + 12, cdSize); Got32(b, at + 16, cdStart);
  }
}
