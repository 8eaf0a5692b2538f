/** The byte buffers zip-folder.js fills field by field; a value too wide for its field is refused, as
    Node's writers throw a RangeError. */
module ZipBuffers {
  import opened ByteStrings
  import opened ZipFormat

  method PutUInt16(h: array<byte>, n: nat, at: nat) returns (ok: bool)
    requires at + 2 <= h.Length
    modifies h
    ensures ok <==> n <= MAX16
    ensures ok ==> Holds16(h[..], at, n)
    ensures forall k :: 0 <= k < h.Length && (!ok || !(at <= k < at + 2)) ==> h[k] == old(h[k])
  {
    ok := n <= MAX16;
    if ok { h[at], h[at + 1] := B0(n), B1(n); }
  }

  method PutUInt32(h: array<byte>, n: nat, at: nat) returns (ok: bool)
    requires at + 4 <= h.Length
    modifies h
    ensures ok <==> n <= MAX32
    ensures ok ==> Holds32(h[..], at, n)
    ensures forall k :: 0 <= k < h.Length && (!ok || !(at <= k < at + 4)) ==> h[k] == old(h[k])
  {
    ok := n <= MAX32;
    if ok { h[at], h[at + 1], h[at + 2], h[at + 3] := B0(n), B1(n), B2(n), B3(n); }
  }

  method PutBytes(h: array<byte>, bytes: Bytes, at: nat)
    requires at + |bytes| == h.Length
    modifies h
    ensures h[at..] == bytes
    ensures forall k :: 0 <= k < at ==> h[k] == old(h[k])
  {
    for k := 0 to |bytes|
      invariant forall j :: 0 <= j < k ==> h[at + j] == bytes[j]
      invariant forall j :: 0 <= j < at ==> h[j] == old(h[j])
    {
      h[at + k] := bytes[k];
    }
  }

  /** The fields of a local header (section 4.3.7) with the bytes left zero. */
  ghost predicate LocalFields(b: Bytes, name: Bytes, compression: nat, time: nat, date: nat) {
    && |b| == 30 + |name|
    && Holds32(b, 0, SIG_LOCAL) && Holds16(b, 4, VERSION_NEEDED) && Holds16(b, 6, FLAGS)
    && Holds16(b, 8, compression) && Holds16(b, 10, time) && Holds16(b, 12, date)
    && (forall k :: 14 <= k < 26 ==> b[k] == 0)
    && Holds16(b, 26, |name|) && Holds16(b, 28, 0) && b[30..] == name
  }

  /** Signature, version, flags, method and time stamps, which both headers carry in this order. */
  method PutFront(h: array<byte>, at: nat, compression: nat, time: nat, date: nat)
    requires at + 10 <= h.Length && compression <= MAX16 && time <= MAX16 && date <= MAX16
    modifies h
    ensures Holds16(h[..], at, VERSION_NEEDED) && Holds16(h[..], at + 2, FLAGS)
    ensures Holds16(h[..], at + 4, compression) && Holds16(h[..], at + 6, time) && Holds16(h[..], at + 8, date)
    ensures forall k :: 0 <= k < h.Length && !(at <= k < at + 10) ==> h[k] == old(h[k])
  {
    var _ := PutUInt16(h, VERSION_NEEDED, at);
    var _ := PutUInt16(h, FLAGS, at + 2);
    var _ := PutUInt16(h, compression, at + 4);
    var _ := PutUInt16(h, time, at + 6);
    var _ := PutUInt16(h, date, at + 8);
  }

  /** The end of a local header: the name's length, no extra field, the name. */
  method PutName(h: array<byte>, name: Bytes) returns (ok: bool)
    requires h.Length == 30 + |name|
    modifies h
    ensures ok <==> |name| <= MAX16
    ensures ok ==> Holds16(h[..], 26, |name|) && Holds16(h[..], 28, 0) && h[30..] == name
    ensures forall k :: 0 <= k < 26 ==> h[k] == old(h[k])
  {
    ok := PutUInt16(h, |name|, 26);
    if !ok { return; }
    var _ := PutUInt16(h, 0, 28);
    PutBytes(h, name, 30);
  }

  method LocalHeaderBuffer(name: Bytes, compression: nat, time: nat, date: nat) returns (ok: bool, h: array<byte>)
    requires compression <= MAX16 && time <= MAX16 && date <= MAX16
    ensures fresh(h)
    ensures ok <==> |name| <= MAX16
    ensures ok ==> LocalFields(h[..], name, compression, time, date)
  {
    h := new byte[30 + |name|](_ => 0);
    var _ := PutUInt32(h, SIG_LOCAL, 0);
    PutFront(h, 4, compression, time, date);
    ok := PutName(h, name);
  }

  /** The field table fixes every byte. */
  lemma LocalFieldsDecide(b: Bytes, name: Bytes, compression: nat, time: nat, date: nat)
    requires LocalFields(b, name, compression, time, date)
    ensures b == LocalHeader(name, compression, time, date)
  {
    var h := LocalHeader(name, compression, time, date);
    assert b[..14] == h[..14];
    assert b[14..30] == h[14..30];
    assert b == b[..14] + b[14..30] + b[30..];
    assert h == h[..14] + h[14..30] + h[30..];
  }

  ghost predicate DescriptorFields(b: Bytes, crc: nat, csize: nat, usize: nat) {
    |b| == 16 && Holds32(b, 0, SIG_DESC) && Holds32(b, 4, crc) && Holds32(b, 8, csize) && Holds32(b, 12, usize)
  }

  method DescriptorBuffer(crc: nat, csize: nat, usize: nat) returns (ok: bool, d: array<byte>)
    requires crc <= MAX32
    ensures fresh(d)
    ensures ok <==> csize <= MAX32 && usize <= MAX32
    ensures ok ==> DescriptorFields(d[..], crc, csize, usize)
  {
    d := new byte[16](_ => 0);
    var _ := PutUInt32(d, SIG_DESC, 0);
    var _ := PutUInt32(d, crc, 4);
    ok := PutUInt32(d, csize, 8);
    if !ok { return; }
    ok := PutUInt32(d, usize, 12);
  }

  lemma DescriptorFieldsDecide(b: Bytes, crc: nat, csize: nat, usize: nat)
    requires DescriptorFields(b, crc, csize, usize)
    ensures b == Descriptor(crc, csize, usize)
  {}

  /** The fields of a central header (section 4.3.12), in three stretches and the name. */
  ghost predicate CentralFront(b: Bytes, e: Entry) {
    && |b| == 46 + |e.name|
    && Holds32(b, 0, SIG_CENTRAL) && Holds16(b, 4, VERSION_MADE_BY) && Holds16(b, 6, VERSION_NEEDED)
    && Holds16(b, 8, FLAGS) && Holds16(b, 10, e.compression) && Holds16(b, 12, e.time) && Holds16(b, 14, e.date)
  }

  ghost predicate CentralSizes(b: Bytes, e: Entry) {
    Holds32(b, 16, e.crc) && Holds32(b, 20, e.csize) && Holds32(b, 24, e.usize)
  }

  ghost predicate CentralLengths(b: Bytes, e: Entry) {
    && Holds16(b, 28, |e.name|) && Holds16(b, 30, 0) && Holds16(b, 32, 0) && Holds16(b, 34, 0) && Holds16(b, 36, 0)
  }

  ghost predicate CentralPlace(b: Bytes, e: Entry) {
    Holds32(b, 38, e.Attributes()) && Holds32(b, 42, e.offset)
  }

  method PutCentralFront(h: array<byte>, e: Entry)
    requires h.Length == 46 + |e.name| && e.compression <= MAX16 && e.time <= MAX16 && e.date <= MAX16
    modifies h
    ensures CentralFront(h[..], e)
    ensures forall k :: 16 <= k < h.Length ==> h[k] == old(h[k])
  {
    var _ := PutUInt32(h, SIG_CENTRAL, 0);
    var _ := PutUInt16(h, VERSION_MADE_BY, 4);
    PutFront(h, 6, e.compression, e.time, e.date);
  }

  method PutSizes(h: array<byte>, e: Entry)
    requires 46 <= h.Length && e.crc <= MAX32 && e.csize <= MAX32 && e.usize <= MAX32
    modifies h
    ensures CentralSizes(h[..], e)
    ensures forall k :: 0 <= k < h.Length && !(16 <= k < 28) ==> h[k] == old(h[k])
  {
    var _ := PutUInt32(h, e.crc, 16);
    var _ := PutUInt32(h, e.csize, 20);
    var _ := PutUInt32(h, e.usize, 24);
  }

  method PutLengths(h: array<byte>, e: Entry)
    requires 46 <= h.Length && |e.name| <= MAX16
    modifies h
    ensures CentralLengths(h[..], e)
    ensures forall k :: 0 <= k < h.Length && !(28 <= k < 38) ==> h[k] == old(h[k])
  {
    var _ := PutUInt16(h, |e.name|, 28);
    var _ := PutUInt16(h, 0, 30);
    var _ := PutUInt16(h, 0, 32);
    var _ := PutUInt16(h, 0, 34);
    var _ := PutUInt16(h, 0, 36);
  }

  method PutPlace(h: array<byte>, e: Entry) returns (ok: bool)
    requires 46 <= h.Length
    modifies h
    ensures ok <==> e.offset <= MAX32
    ensures ok ==> CentralPlace(h[..], e)
    ensures forall k :: 0 <= k < h.Length && !(38 <= k < 46) ==> h[k] == old(h[k])
  {
    var _ := PutUInt32(h, e.Attributes(), 38);
    ok := PutUInt32(h, e.offset, 42);
  }

  method PutFixed(h: array<byte>, e: Entry)
    requires h.Length == 46 + |e.name| && e.(offset := 0).Fits()
    modifies h
    ensures CentralFront(h[..], e) && CentralSizes(h[..], e) && CentralLengths(h[..], e)
  {
    PutCentralFront(h, e);
    PutSizes(h, e);
    PutLengths(h, e);
  }

  method CentralHeaderBuffer(e: Entry) returns (ok: bool, h: array<byte>)
    requires e.(offset := 0).Fits()
    ensures fresh(h)
    ensures ok <==> e.offset <= MAX32
    ensures ok ==> CentralFront(h[..], e) && CentralSizes(h[..], e) && CentralLengths(h[..], e) && CentralPlace(h[..], e)
    ensures ok ==> h[46..] == e.name
  {
    h := new byte[46 + |e.name|](_ => 0);
    PutFixed(h, e);
    ok := PutPlace(h, e);
    if !ok { return; }
    PutBytes(h, e.name, 46);
  }

  lemma FrontDecides(b: Bytes, e: Entry)
    requires CentralFront(b, e)
    ensures b[..16] == CentralHeader(e)[..16]
  {}

  lemma SizesDecide(b: Bytes, e: Entry)
    requires CentralSizes(b, e)
    ensures b[16..28] == CentralHeader(e)[16..28]
  {}

  lemma LengthsDecide(b: Bytes, e: Entry)
    requires CentralLengths(b, e)
    ensures b[28..38] == CentralHeader(e)[28..38]
  {}

  lemma PlaceDecides(b: Bytes, e: Entry)
    requires CentralPlace(b, e)
    ensures b[38..46] == CentralHeader(e)[38..46]
  {}

  lemma CentralNameIs(e: Entry)
    ensures CentralHeader(e)[46..] == e.name && |CentralHeader(e)| == 46 + |e.name|
  {}

  lemma FiveParts(b: Bytes, h: Bytes)
    requires |b| >= 46 && |h| >= 46 && b[..16] == h[..16] && b[16..28] == h[16..28] && b[28..38] == h[28..38]
      && b[38..46] == h[38..46] && b[46..] == h[46..]
    ensures b == h
  {
    assert b == b[..16] + b[16..28] + b[28..38] + b[38..46] + b[46..];
    assert h == h[..16] + h[16..28] + h[28..38] + h[38..46] + h[46..];
  }

  lemma CentralFieldsDecide(b: Bytes, e: Entry)
    requires CentralFront(b, e) && CentralSizes(b, e) && CentralLengths(b, e) && CentralPlace(b, e) && b[46..] == e.name
    ensures b == CentralHeader(e)
  {
    FrontDecides(b, e);
    SizesDecide(b, e);
    LengthsDecide(b, e);
    PlaceDecides(b, e);
    CentralNameIs(e);
    FiveParts(b, CentralHeader(e));
  }

  ghost predicate EndFields(b: Bytes, count: nat, cdSize: nat, cdStart: nat) {
    && |b| == 22 && Holds32(b, 0, SIG_END) && Holds16(b, 4, 0) && Holds16(b, 6, 0)
    && Holds16(b, 8, count) && Holds16(b, 10, count)
    && Holds32(b, 12, cdSize) && Holds32(b, 16, cdStart) && Holds16(b, 20, 0)
  }

  method EndBuffer(count: nat, cdSize: nat, cdStart: nat) returns (ok: bool, h: array<byte>)
    ensures fresh(h)
    ensures ok <==> count <= MAX16 && cdSize <= MAX32 && cdStart <= MAX32
    ensures ok ==> EndFields(h[..], count, cdSize, cdStart)
  {
    h := new byte[22](_ => 0);
    var _ := PutUInt32(h, SIG_END, 0);
    var _ := PutUInt16(h, 0, 4);
    var _ := PutUInt16(h, 0, 6);
    ok := PutUInt16(h, count, 8);
    if !ok { return; }
    var _ := PutUInt16(h, count, 10);
    ok := PutUInt32(h, cdSize, 12);
    if !ok { return; }
    ok := PutUInt32(h, cdStart, 16);
    if !ok { return; }
    var _ := PutUInt16(h, 0, 20);
  }

  lemma EndFieldsDecide(b: Bytes, count: nat, cdSize: nat, cdStart: nat)
    requires EndFields(b, count, cdSize, cdStart)
    ensures b == EndRecord(count, cdSize, cdStart)
  {}
}
