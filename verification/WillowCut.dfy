/** Rows past the newest 100 of a device: no summary offers them, so no gossip carries them away. */
module WillowCut {
  import opened ByteStrings
  import opened WillowLog
  import opened WillowStore
  import opened WillowGossip
  import opened WillowReads

  // ---- two devices pulling from each other

  /** A summary after rows are appended offers no more than before and the new rows. */
  lemma OfferedAppend(rows: seq<Row>, f: seq<Row>)
    ensures Offered(rows + f) <= Offered(rows) + Digests(f)
  {
    var newest := Newest(rows + f);
    forall d | d in newest ensures d in Offered(rows) + Digests(f) {
      var i :| 0 <= i < |newest| && newest[i] == d;
      if i < |f| {
        assert f[|f| - 1 - i] in f;
      } else {
        assert Newest(rows)[i - |f|] == d;
      }
    }
  }

  lemma FreshDigests(entries: seq<Row>, have: set<Digest>, next: nat)
    ensures Digests(Fresh(entries, have, next)) <= Digests(entries)
  {
    forall r | r in Fresh(entries, have, next) ensures r.digest in Digests(entries) {
      var e := FreshSource(entries, have, next, r);
    }
  }

  lemma FulfilledDigests(rows: seq<Row>, digests: seq<Digest>)
    ensures Digests(Fulfilled(rows, digests)) <= Digests(rows)
  {
    FulfilledExactly(rows, digests);
  }

  type Logs = (seq<Row>, seq<Row>)

  /** One pull each way. */
  function Round(logs: Logs): Logs {
    (Pull(Pull(logs.0, logs.1), logs.0), Pull(logs.0, logs.1))
  }

  /** `n` rounds. */
  function Rounds(round: Logs -> Logs, logs: Logs, n: nat): Logs {
    if n == 0 then logs else round(Rounds(round, logs, n - 1))
  }

  /** The first log holds the row and does not offer it; the second lacks it. */
  ghost predicate CutBetween(crdt: Crdt, logs: Logs, d: Digest) {
    var (a, b) := logs;
    && Hashed(crdt, a) && Hashed(crdt, b) && Sorted(a) && Sorted(b)
    && d in Digests(a) && d !in Offered(a) && d !in Digests(b)
  }

  lemma PullKeepsCut(crdt: Crdt, a: seq<Row>, b: seq<Row>, d: Digest)
    requires crdt.Lawful() && CutBetween(crdt, (a, b), d)
    ensures CutBetween(crdt, (a, Pull(a, b)), d) && CutBetween(crdt, (Pull(b, a), b), d)
  {
    PullGains(crdt, a, b);
    PullGains(crdt, b, a);
    OfferedWithin(b);
    var wanted := Missing(Newest(b), Digests(a));
    FulfilledDigests(b, wanted);
    FreshDigests(Fulfilled(b, wanted), Digests(a), LastSeq(a) + 1);
    OfferedAppend(a, Fresh(Fulfilled(b, wanted), Digests(a), LastSeq(a) + 1));
  }

  lemma RoundKeepsCut(crdt: Crdt, logs: Logs, d: Digest)
    requires crdt.Lawful() && CutBetween(crdt, logs, d)
    ensures CutBetween(crdt, Round(logs), d)
  {
    PullKeepsCut(crdt, logs.0, logs.1, d);
    PullKeepsCut(crdt, logs.0, Pull(logs.0, logs.1), d);
  }

  lemma {:induction false} CutKept(crdt: Crdt, round: Logs -> Logs, logs: Logs, n: nat, d: Digest)
    requires CutBetween(crdt, logs, d)
    requires forall l :: CutBetween(crdt, l, d) ==> CutBetween(crdt, round(l), d)
    ensures CutBetween(crdt, Rounds(round, logs, n), d)
  {
    if n > 0 { CutKept(crdt, round, logs, n - 1, d); }
  }

  /** A row that the newest 100 leave out reaches a device without it in no number of rounds both ways,
      however the two logs grow meanwhile. */
  lemma CutDigestNeverArrives(crdt: Crdt, a: seq<Row>, b: seq<Row>, n: nat, d: Digest)
    requires crdt.Lawful() && CutBetween(crdt, (a, b), d)
    ensures CutBetween(crdt, Rounds(Round, (a, b), n), d)
  {
    forall l | CutBetween(crdt, l, d) ensures CutBetween(crdt, Round(l), d) { RoundKeepsCut(crdt, l, d); }
    CutKept(crdt, Round, (a, b), n, d);
  }

  // ---- any run of any number of devices

  /** A frame that carries the cut row neither by digest nor by content. */
  ghost predicate FrameLacks(crdt: Crdt, f: Frame, doc: DocId, x: int, d: Digest) {
    match f
    case SyncSummary(docs) => doc in docs ==> d !in docs[doc].digests
    case SyncWant(other, digests) => other == doc ==> d !in digests
    case SyncGive(other, entries) => other == doc ==> x !in Join(crdt, entries)
  }

  /** Only rows of digest `d` on the holder hold `x`, and no frame ever sent carries it. */
  ghost predicate Contained(crdt: Crdt, w: World, holder: nat, doc: DocId, x: int, d: Digest) {
    && holder < |w.devices|
    && (forall r :: r in Rows(w.devices[holder], doc) && x in crdt.mean(r.payload) ==> r.digest == d)
    && (forall dev: nat :: dev < |w.devices| && dev != holder ==> x !in Join(crdt, Rows(w.devices[dev], doc)))
    && (forall f :: f in w.net ==> FrameLacks(crdt, f, doc, x, d))
  }

  /** The holder's summary leaves the row out. */
  ghost predicate Cut(w: World, holder: nat, doc: DocId, d: Digest)
    requires holder < |w.devices|
  {
    d !in Offered(Rows(w.devices[holder], doc))
  }

  /** Any event but a write of `x` itself and a check that compacts the holder. */
  ghost predicate Spares(crdt: Crdt, w: World, e: Event, holder: nat, doc: DocId, x: int)
    requires holder < |w.devices|
  {
    && (e.Write? && e.doc == doc ==> x !in crdt.mean(e.payload))
    && (e.Check? && e.doc == doc && e.dev == holder ==> !NeedsCompact(Rows(w.devices[holder], doc), e.now))
  }

  /** Each of the events that follow the run `evs` is such an event when it comes. */
  ghost predicate AllSpare(crdt: Crdt, n: nat, evs: seq<Event>, more: seq<Event>, holder: nat, doc: DocId, x: int)
    requires holder < n
  {
    more == [] ||
    var front := more[..|more| - 1];
    AllSpare(crdt, n, evs, front, holder, doc, x) && Spares(crdt, Run(crdt, n, evs + front), more[|more| - 1], holder, doc, x)
  }

  lemma NoDigest(crdt: Crdt, rows: seq<Row>, x: int, c: Bytes)
    requires crdt.Lawful() && Hashed(crdt, rows) && x in crdt.mean(c) && x !in Join(crdt, rows)
    ensures crdt.hash(c) !in Digests(rows)
  {
    forall r | r in rows ensures r.digest != crdt.hash(c) {
      JoinHas(crdt, rows, r);
    }
  }

  lemma FreshLacks(crdt: Crdt, rows: seq<Row>, entries: seq<Row>, x: int)
    requires x !in Join(crdt, entries)
    ensures x !in Join(crdt, Fresh(entries, Digests(rows), LastSeq(rows) + 1))
  {
    forall r | r in Fresh(entries, Digests(rows), LastSeq(rows) + 1) ensures x !in crdt.mean(r.payload) {
      var e := FreshSource(entries, Digests(rows), LastSeq(rows) + 1, r);
      JoinHas(crdt, entries, e);
    }
  }

  /** The rows of another device stay without `x`. */
  lemma OthersLack(crdt: Crdt, w: World, e: Event, dev: nat, holder: nat, doc: DocId, x: int, d: Digest)
    requires crdt.Lawful() && Contained(crdt, w, holder, doc, x, d) && Spares(crdt, w, e, holder, doc, x)
    requires dev < |w.devices| && dev != holder
    requires Sorted(Rows(w.devices[dev], doc)) && Hashed(crdt, Rows(w.devices[dev], doc))
    ensures x !in Join(crdt, RowsAfter(crdt, w, e, dev, doc))
  {
    var rows := Rows(w.devices[dev], doc);
    if e.dev == dev {
      match e
      case Write(_, o, payload, now) => if o == doc { AppendKeepsLog(crdt, rows, payload, Update, now); }
      case Check(_, o, now) => if o == doc { CompactionKeepsState(crdt, rows, now); }
      case Announce(_) =>
      case Hear(_, f) =>
        if f in w.net && f.SyncGive? && f.doc == doc {
          assert FrameLacks(crdt, f, doc, x, d);
          FreshLacks(crdt, rows, f.entries, x);
          JoinConcat(crdt, rows, Fresh(f.entries, Digests(rows), LastSeq(rows) + 1));
        }
    }
  }

  /** The holder's rows grow at their end, by rows without `x`. */
  lemma HolderGrows(crdt: Crdt, w: World, e: Event, holder: nat, doc: DocId, x: int, d: Digest) returns (f: seq<Row>)
    requires Contained(crdt, w, holder, doc, x, d) && Spares(crdt, w, e, holder, doc, x)
    ensures RowsAfter(crdt, w, e, holder, doc) == Rows(w.devices[holder], doc) + f
    ensures x !in Join(crdt, f)
  {
    var rows := Rows(w.devices[holder], doc);
    f := [];
    if e.Write? && e.dev == holder && e.doc == doc {
      f := [Row(LastSeq(rows) + 1, e.payload, crdt.hash(e.payload), e.now, Update)];
      SingleJoin(crdt, f[0]);
    } else if e.Hear? && e.dev == holder && e.frame in w.net && e.frame.SyncGive? && e.frame.doc == doc {
      assert FrameLacks(crdt, e.frame, doc, x, d);
      f := Fresh(e.frame.entries, Digests(rows), LastSeq(rows) + 1);
      FreshLacks(crdt, rows, e.frame.entries, x);
    } else {
      assert rows + f == rows;
    }
  }

  /** A device's answer carries the row no further. */
  lemma AnswerLacks(crdt: Crdt, rows: seq<Row>, t: Table, frame: Frame, f: Frame, doc: DocId, x: int, d: Digest)
    requires rows == Rows(t, doc) && FrameLacks(crdt, frame, doc, x, d) && f in Answer(t, frame)
    requires forall r :: r in rows && x in crdt.mean(r.payload) ==> r.digest == d
    ensures FrameLacks(crdt, f, doc, x, d)
  {
    match frame
    case SyncSummary(docs) => if doc in docs { MissingExactly(docs[doc].digests, Digests(rows)); }
    case SyncWant(other, digests) =>
      if other == doc {
        FulfilledExactly(rows, digests);
        forall r | r in Fulfilled(rows, digests) ensures x !in crdt.mean(r.payload) {}
      }
    case SyncGive(_, _) =>
  }

  lemma AnnounceLacks(crdt: Crdt, w: World, evs: seq<Event>, dev: nat, holder: nat, doc: DocId, x: int, c: Bytes)
    requires crdt.Lawful() && WorldSafe(crdt, w, evs) && x in crdt.mean(c) && Contained(crdt, w, holder, doc, x, crdt.hash(c))
    requires dev < |w.devices| && (dev == holder ==> Cut(w, holder, doc, crdt.hash(c)))
    ensures FrameLacks(crdt, SyncSummary(SummaryOf(w.devices[dev])), doc, x, crdt.hash(c))
  {
    var rows := Rows(w.devices[dev], doc);
    OfferedWithin(rows);
    if dev != holder {
      assert LogSafe(crdt, rows, Written(crdt, evs, dev, doc), WrittenAnywhere(crdt, evs, |w.devices|, doc));
      NoDigest(crdt, rows, x, c);
    }
  }

  lemma HolderKeeps(crdt: Crdt, w: World, e: Event, holder: nat, doc: DocId, x: int, d: Digest)
    requires Contained(crdt, w, holder, doc, x, d) && Spares(crdt, w, e, holder, doc, x)
    ensures forall r :: r in RowsAfter(crdt, w, e, holder, doc) && x in crdt.mean(r.payload) ==> r.digest == d
  {
    var f := HolderGrows(crdt, w, e, holder, doc, x, d);
    forall r | r in RowsAfter(crdt, w, e, holder, doc) && x in crdt.mean(r.payload) ensures r.digest == d {
      if r in f { JoinHas(crdt, f, r); }
    }
  }

  /** One step keeps the row where it is, as long as the holder announces itself only while the row is cut. */
  lemma StepContained(crdt: Crdt, w: World, evs: seq<Event>, e: Event, holder: nat, doc: DocId, x: int, c: Bytes)
    requires crdt.Lawful() && WorldSafe(crdt, w, evs) && x in crdt.mean(c) && Contained(crdt, w, holder, doc, x, crdt.hash(c))
    requires Spares(crdt, w, e, holder, doc, x) && (e == Announce(holder) ==> Cut(w, holder, doc, crdt.hash(c)))
    ensures Contained(crdt, Step(crdt, w, e), holder, doc, x, crdt.hash(c))
  {
    var t, d := Step(crdt, w, e), crdt.hash(c);
    forall dev: nat | dev < |t.devices| && dev != holder ensures x !in Join(crdt, Rows(t.devices[dev], doc)) {
      StepTouchesOneLog(crdt, w, e, dev, doc);
      assert LogSafe(crdt, Rows(w.devices[dev], doc), Written(crdt, evs, dev, doc), WrittenAnywhere(crdt, evs, |w.devices|, doc));
      OthersLack(crdt, w, e, dev, holder, doc, x, d);
    }
    StepTouchesOneLog(crdt, w, e, holder, doc);
    HolderKeeps(crdt, w, e, holder, doc, x, d);
    NetLacks(crdt, w, evs, e, holder, doc, x, c);
  }

  lemma NetLacks(crdt: Crdt, w: World, evs: seq<Event>, e: Event, holder: nat, doc: DocId, x: int, c: Bytes)
    requires crdt.Lawful() && WorldSafe(crdt, w, evs) && x in crdt.mean(c) && Contained(crdt, w, holder, doc, x, crdt.hash(c))
    requires e == Announce(holder) ==> Cut(w, holder, doc, crdt.hash(c))
    ensures forall f :: f in Step(crdt, w, e).net ==> FrameLacks(crdt, f, doc, x, crdt.hash(c))
  {
    var d := crdt.hash(c);
    forall f | f in Step(crdt, w, e).net ensures FrameLacks(crdt, f, doc, x, d) {
      if f !in w.net {
        if e.Announce? {
          AnnounceLacks(crdt, w, evs, e.dev, holder, doc, x, c);
        } else {
          var rows := Rows(w.devices[e.dev], doc);
          forall r | r in rows && x in crdt.mean(r.payload) ensures r.digest == d { JoinHas(crdt, rows, r); }
          AnswerLacks(crdt, rows, w.devices[e.dev], e.frame, f, doc, x, d);
        }
      }
    }
  }

  lemma RowsCut(crdt: Crdt, rows: seq<Row>, f: seq<Row>, x: int, c: Bytes)
    requires crdt.Lawful() && x in crdt.mean(c) && Hashed(crdt, rows + f) && x !in Join(crdt, f)
    requires crdt.hash(c) !in Offered(rows)
    ensures crdt.hash(c) !in Offered(rows + f)
  {
    forall i | 0 <= i < |f| ensures f[i].digest == crdt.hash(f[i].payload) { assert (rows + f)[|rows| + i] == f[i]; }
    NoDigest(crdt, f, x, c);
    OfferedAppend(rows, f);
  }

  lemma StepCut(crdt: Crdt, w: World, evs: seq<Event>, e: Event, holder: nat, doc: DocId, x: int, c: Bytes)
    requires crdt.Lawful() && WorldSafe(crdt, w, evs) && x in crdt.mean(c) && Contained(crdt, w, holder, doc, x, crdt.hash(c))
    requires Spares(crdt, w, e, holder, doc, x) && Cut(w, holder, doc, crdt.hash(c))
    ensures Cut(Step(crdt, w, e), holder, doc, crdt.hash(c))
  {
    StepLog(crdt, w, evs, e, holder, doc);
    StepTouchesOneLog(crdt, w, e, holder, doc);
    var f := HolderGrows(crdt, w, e, holder, doc, x, crdt.hash(c));
    RowsCut(crdt, Rows(w.devices[holder], doc), f, x, c);
  }

  lemma {:induction false} RunContained(crdt: Crdt, n: nat, evs: seq<Event>, more: seq<Event>, holder: nat, doc: DocId, x: int, c: Bytes)
    requires crdt.Lawful() && holder < n && x in crdt.mean(c) && AllSpare(crdt, n, evs, more, holder, doc, x)
    requires Contained(crdt, Run(crdt, n, evs), holder, doc, x, crdt.hash(c))
    requires Cut(Run(crdt, n, evs), holder, doc, crdt.hash(c)) || Announce(holder) !in more
    ensures Contained(crdt, Run(crdt, n, evs + more), holder, doc, x, crdt.hash(c))
    ensures Cut(Run(crdt, n, evs), holder, doc, crdt.hash(c)) ==> Cut(Run(crdt, n, evs + more), holder, doc, crdt.hash(c))
  {
    if more == [] {
      assert evs + more == evs;
    } else {
      var front, e := more[..|more| - 1], more[|more| - 1];
      RunContained(crdt, n, evs, front, holder, doc, x, c);
      assert e in more && evs + more == evs + front + [e];
      OneMore(crdt, n, evs + front, e, holder, doc, x, c);
    }
  }

  /** Once a device's summary leaves its only row with `x` out, `x` reaches no other device, in whatever run
      follows of writes of other things, announcements, frames in any order or number, checks that meet no
      threshold on that device and any checks on the others. The same holds of a run in which that device
      does not announce itself. */
  lemma CutUpdateNeverArrives(crdt: Crdt, n: nat, evs: seq<Event>, more: seq<Event>, holder: nat, doc: DocId, x: int, c: Bytes)
    requires crdt.Lawful() && holder < n && x in crdt.mean(c) && AllSpare(crdt, n, evs, more, holder, doc, x)
    requires Contained(crdt, Run(crdt, n, evs), holder, doc, x, crdt.hash(c))
    requires Cut(Run(crdt, n, evs), holder, doc, crdt.hash(c)) || Announce(holder) !in more
    ensures var t := Run(crdt, n, evs + more);
      && Contained(crdt, t, holder, doc, x, crdt.hash(c))
      && (forall dev: nat :: dev < n && dev != holder ==> x !in Join(crdt, Rows(t.devices[dev], doc)))
      && (Cut(Run(crdt, n, evs), holder, doc, crdt.hash(c)) ==> Cut(t, holder, doc, crdt.hash(c)))
  {
    RunContained(crdt, n, evs, more, holder, doc, x, c);
  }

  lemma OneMore(crdt: Crdt, n: nat, evs: seq<Event>, e: Event, holder: nat, doc: DocId, x: int, c: Bytes)
    requires crdt.Lawful() && holder < n && x in crdt.mean(c) && Spares(crdt, Run(crdt, n, evs), e, holder, doc, x)
    requires Contained(crdt, Run(crdt, n, evs), holder, doc, x, crdt.hash(c))
    requires e == Announce(holder) ==> Cut(Run(crdt, n, evs), holder, doc, crdt.hash(c))
    ensures Contained(crdt, Run(crdt, n, evs + [e]), holder, doc, x, crdt.hash(c))
    ensures Cut(Run(crdt, n, evs), holder, doc, crdt.hash(c)) ==> Cut(Run(crdt, n, evs + [e]), holder, doc, crdt.hash(c))
  {
    RunMore(crdt, n, evs, e);
    RunSafe(crdt, n, evs);
    StepContained(crdt, Run(crdt, n, evs), evs, e, holder, doc, x, c);
    if Cut(Run(crdt, n, evs), holder, doc, crdt.hash(c)) { StepCut(crdt, Run(crdt, n, evs), evs, e, holder, doc, x, c); }
  }

  // ---- a run after which two devices never agree

  /** A small update `c` that alone holds `x`, and big ones that each bring something new. */
  ghost predicate Supply(crdt: Crdt, x: int, c: Bytes, p: nat -> Bytes, y: nat -> int) {
    && x in crdt.mean(c) && |c| < COMPACT_MAX_BYTES
    && (forall k: nat :: |p(k)| >= COMPACT_MAX_BYTES && x !in crdt.mean(p(k)) && y(k) in crdt.mean(p(k)) && y(k) !in crdt.mean(c))
    && (forall j: nat, k: nat :: j < k ==> y(k) !in crdt.mean(p(j)))
  }

  /** Device 1 holds its own update first and `k` snapshots of device 0 after it. */
  ghost predicate Fed(crdt: Crdt, w: World, k: nat, doc: DocId, x: int, c: Bytes, y: nat -> int)
    requires |w.devices| == 2
  {
    var rows := Rows(w.devices[1], doc);
    && |rows| == k + 1 && rows[0].payload == c
    && (forall i :: 0 < i < |rows| ==> x !in crdt.mean(rows[i].payload))
    && (forall j: nat :: j >= k ==> y(j) !in Join(crdt, Rows(w.devices[0], doc)) && y(j) !in Join(crdt, rows))
  }

  lemma NewDigest(crdt: Crdt, evs: seq<Event>, doc: DocId, y: int, r: Row)
    requires crdt.Lawful() && y in crdt.mean(r.payload) && r.digest == crdt.hash(r.payload)
    requires y !in Join(crdt, Rows(Run(crdt, 2, evs).devices[1], doc))
    ensures r.digest !in Digests(Rows(Run(crdt, 2, evs).devices[1], doc))
  {
    RunLogSafe(crdt, 2, evs, 1, doc);
    NoDigest(crdt, Rows(Run(crdt, 2, evs).devices[1], doc), y, r.payload);
  }

  /** An event of device 0, without `x`, or a frame heard. */
  ghost predicate Aside(crdt: Crdt, e: Event, x: int) {
    e.Hear? || (e.dev == 0 && (e.Write? ==> x !in crdt.mean(e.payload)))
  }

  /** Device 0 writes `p`, and its own check compacts it into a row that device 1 lacks. */
  lemma BigWrite(crdt: Crdt, evs: seq<Event>, doc: DocId, p: Bytes, x: int, y: int) returns (a: Event, b: Event, r: Row)
    requires crdt.Lawful() && |p| >= COMPACT_MAX_BYTES && y in crdt.mean(p) && x !in crdt.mean(p)
    requires y !in Join(crdt, Rows(Run(crdt, 2, evs).devices[1], doc))
    ensures Aside(crdt, a, x) && Aside(crdt, b, x)
    ensures crdt.mean(r.payload) == Join(crdt, Rows(Run(crdt, 2, evs).devices[0], doc)) + crdt.mean(p)
    ensures Rows(Run(crdt, 2, evs + [a] + [b]).devices[0], doc) == [r]
    ensures var rows := Rows(Run(crdt, 2, evs + [a] + [b]).devices[1], doc);
      rows == Rows(Run(crdt, 2, evs).devices[1], doc) && r.digest !in Digests(rows)
  {
    a, b := Write(0, doc, p, 0), Check(0, doc, 0);
    r := WriteCompacted(crdt, 2, evs, 0, 1, doc, p, 0, 0);
    NewDigest(crdt, evs, doc, y, r);
  }

  /** Device 0 writes, compacts and gives its snapshot to device 1, which lacks it. */
  lemma WriteAndGive(crdt: Crdt, evs: seq<Event>, doc: DocId, p: Bytes, x: int, y: int) returns (more: seq<Event>, r: Row)
    requires crdt.Lawful() && |p| >= COMPACT_MAX_BYTES && y in crdt.mean(p) && x !in crdt.mean(p)
    requires y !in Join(crdt, Rows(Run(crdt, 2, evs).devices[1], doc))
    ensures forall e :: e in more ==> Aside(crdt, e, x)
    ensures crdt.mean(r.payload) == Join(crdt, Rows(Run(crdt, 2, evs).devices[0], doc)) + crdt.mean(p)
    ensures Rows(Run(crdt, 2, evs + more).devices[0], doc) == [r]
    ensures var rows := Rows(Run(crdt, 2, evs).devices[1], doc);
      Rows(Run(crdt, 2, evs + more).devices[1], doc) == rows + [r.(num := LastSeq(rows) + 1)]
  {
    var a, b;
    a, b, r := BigWrite(crdt, evs, doc, p, x, y);
    more := GiveAfter(crdt, evs, a, b, doc, r, x);
  }

  lemma GiveAfter(crdt: Crdt, evs: seq<Event>, a: Event, b: Event, doc: DocId, r: Row, x: int) returns (more: seq<Event>)
    requires Aside(crdt, a, x) && Aside(crdt, b, x)
    requires Rows(Run(crdt, 2, evs + [a] + [b]).devices[0], doc) == [r]
    requires r.digest !in Digests(Rows(Run(crdt, 2, evs + [a] + [b]).devices[1], doc))
    ensures forall e :: e in more ==> Aside(crdt, e, x)
    ensures Rows(Run(crdt, 2, evs + more).devices[0], doc) == [r]
    ensures var rows := Rows(Run(crdt, 2, evs + [a] + [b]).devices[1], doc);
      Rows(Run(crdt, 2, evs + more).devices[1], doc) == rows + [r.(num := LastSeq(rows) + 1)]
  {
    var pull := PullOne(crdt, 2, evs + [a] + [b], 0, 1, doc, r);
    more := SixMore(crdt, evs, a, b, pull, x);
  }

  lemma SixMore(crdt: Crdt, evs: seq<Event>, a: Event, b: Event, pull: seq<Event>, x: int) returns (more: seq<Event>)
    requires Aside(crdt, a, x) && Aside(crdt, b, x)
    requires |pull| == 4 && pull[0] == Announce(0) && pull[1].Hear? && pull[2].Hear? && pull[3].Hear?
    ensures evs + more == evs + [a] + [b] + pull && forall e :: e in more ==> Aside(crdt, e, x)
  {
    more := [a] + [b] + pull;
  }

  lemma {:induction false} AsideSpares(crdt: Crdt, evs: seq<Event>, more: seq<Event>, doc: DocId, x: int)
    requires forall e :: e in more ==> Aside(crdt, e, x)
    ensures AllSpare(crdt, 2, evs, more, 1, doc, x) && Announce(1) !in more
  {
    if more != [] {
      AsideSpares(crdt, evs, more[..|more| - 1], doc, x);
      assert more[|more| - 1] in more;
    }
  }

  lemma Feed(crdt: Crdt, evs: seq<Event>, k: nat, doc: DocId, x: int, c: Bytes, p: nat -> Bytes, y: nat -> int) returns (more: seq<Event>)
    requires crdt.Lawful() && Supply(crdt, x, c, p, y) && Fed(crdt, Run(crdt, 2, evs), k, doc, x, c, y)
    requires Contained(crdt, Run(crdt, 2, evs), 1, doc, x, crdt.hash(c))
    ensures Fed(crdt, Run(crdt, 2, evs + more), k + 1, doc, x, c, y)
    ensures Contained(crdt, Run(crdt, 2, evs + more), 1, doc, x, crdt.hash(c))
  {
    var r;
    more, r := WriteAndGive(crdt, evs, doc, p(k), x, y(k));
    StillFed(crdt, Run(crdt, 2, evs), Run(crdt, 2, evs + more), k, doc, x, c, p, y, r);
    AsideSpares(crdt, evs, more, doc, x);
    CutUpdateNeverArrives(crdt, 2, evs, more, 1, doc, x, c);
  }

  lemma StillFed(crdt: Crdt, w: World, t: World, k: nat, doc: DocId, x: int, c: Bytes, p: nat -> Bytes, y: nat -> int, r: Row)
    requires |w.devices| == 2 && |t.devices| == 2 && Supply(crdt, x, c, p, y) && Fed(crdt, w, k, doc, x, c, y)
    requires x !in Join(crdt, Rows(w.devices[0], doc))
    requires crdt.mean(r.payload) == Join(crdt, Rows(w.devices[0], doc)) + crdt.mean(p(k))
    requires Rows(t.devices[0], doc) == [r]
    requires Rows(t.devices[1], doc) == Rows(w.devices[1], doc) + [r.(num := LastSeq(Rows(w.devices[1], doc)) + 1)]
    ensures Fed(crdt, t, k + 1, doc, x, c, y)
  {
    var rows := Rows(w.devices[1], doc);
    var moved := r.(num := LastSeq(rows) + 1);
    SingleJoin(crdt, r);
    SingleJoin(crdt, moved);
    JoinConcat(crdt, rows, [moved]);
  }

  lemma FirstUpdate(crdt: Crdt, doc: DocId, x: int, c: Bytes, p: nat -> Bytes, y: nat -> int) returns (evs: seq<Event>)
    requires crdt.Lawful() && Supply(crdt, x, c, p, y)
    ensures Fed(crdt, Run(crdt, 2, evs), 0, doc, x, c, y) && Contained(crdt, Run(crdt, 2, evs), 1, doc, x, crdt.hash(c))
  {
    var write, check := Write(1, doc, c, 0), Check(1, doc, 0);
    evs := [write] + [check];
    assert [] + [write] == [write];
    WriteFirst(crdt, doc, c);
    RunRows(crdt, 2, [write], check, 0, doc);
    RunRows(crdt, 2, [write], check, 1, doc);
    RunMore(crdt, 2, [write], check);
    SmallLog(crdt, c);
  }

  lemma WriteFirst(crdt: Crdt, doc: DocId, c: Bytes)
    ensures var w := Run(crdt, 2, [Write(1, doc, c, 0)]);
      Rows(w.devices[0], doc) == [] && Rows(w.devices[1], doc) == Append(crdt, [], c, Update, 0) && w.net == {}
  {
    RunRows(crdt, 2, [], Write(1, doc, c, 0), 0, doc);
    RunRows(crdt, 2, [], Write(1, doc, c, 0), 1, doc);
    RunMore(crdt, 2, [], Write(1, doc, c, 0));
    assert [] + [Write(1, doc, c, 0)] == [Write(1, doc, c, 0)];
  }

  lemma SmallLog(crdt: Crdt, c: Bytes)
    requires |c| < COMPACT_MAX_BYTES
    ensures var rows := Append(crdt, [], c, Update, 0);
      |rows| == 1 && rows[0].payload == c && MaybeCompacted(crdt, rows, 0) == rows && Join(crdt, rows) == crdt.mean(c)
      && rows[0].digest == crdt.hash(c)
  {
    var rows := Append(crdt, [], c, Update, 0);
    assert rows == [rows[0]] && rows[..0] == [];
    assert UpdateCount(rows) == UpdateCount(rows[..0]) + 1 && UpdateBytes(rows) == UpdateBytes(rows[..0]) + |c|;
    SingleJoin(crdt, rows[0]);
  }

  lemma {:induction false} FedTimes(crdt: Crdt, k: nat, doc: DocId, x: int, c: Bytes, p: nat -> Bytes, y: nat -> int) returns (evs: seq<Event>)
    requires crdt.Lawful() && Supply(crdt, x, c, p, y)
    ensures Fed(crdt, Run(crdt, 2, evs), k, doc, x, c, y) && Contained(crdt, Run(crdt, 2, evs), 1, doc, x, crdt.hash(c))
  {
    if k == 0 {
      evs := FirstUpdate(crdt, doc, x, c, p, y);
    } else {
      var before := FedTimes(crdt, k - 1, doc, x, c, p, y);
      var more := Feed(crdt, before, k - 1, doc, x, c, p, y);
      evs := before + more;
    }
  }

  lemma FedIsCut(crdt: Crdt, rows: seq<Row>, x: int, c: Bytes)
    requires crdt.Lawful() && x in crdt.mean(c) && Hashed(crdt, rows) && |rows| > MAX_DIGESTS_PER_SUMMARY
    requires forall i :: 0 < i < |rows| ==> x !in crdt.mean(rows[i].payload)
    ensures crdt.hash(c) !in Offered(rows)
  {
    var newest := Newest(rows);
    forall i | 0 <= i < |newest| ensures newest[i] != crdt.hash(c) {
      assert rows[|rows| - 1 - i].payload != c;
    }
  }

  /** There is a run of two devices after which they never agree again by gossip. Device 1 writes `c`; device 0
      writes a hundred big updates, each compacted by its own check, and device 1 pulls each snapshot: gives are
      not followed by a check, so it then holds 101 rows. Whatever frames and announcements follow, whatever else
      is written, and whatever checks run, as long as none on device 1 meets a threshold, device 0 lacks what `c`
      holds and device 1 has it. */
  lemma LogsThatNeverAgree(crdt: Crdt, doc: DocId, x: int, c: Bytes, p: nat -> Bytes, y: nat -> int) returns (evs: seq<Event>)
    requires crdt.Lawful() && Supply(crdt, x, c, p, y)
    ensures |Rows(Run(crdt, 2, evs).devices[1], doc)| == 101
    ensures forall more :: AllSpare(crdt, 2, evs, more, 1, doc, x) ==> Apart(crdt, Run(crdt, 2, evs + more), doc, x)
  {
    evs := FedTimes(crdt, 100, doc, x, c, p, y);
    var rows := Rows(Run(crdt, 2, evs).devices[1], doc);
    RunLogSafe(crdt, 2, evs, 1, doc);
    FedIsCut(crdt, rows, x, c);
    JoinHas(crdt, rows, rows[0]);
    forall more | AllSpare(crdt, 2, evs, more, 1, doc, x) ensures Apart(crdt, Run(crdt, 2, evs + more), doc, x) {
      StayApart(crdt, evs, more, doc, x, c);
    }
  }

  /** The logs of two devices differ in digests and in state, by `x`. */
  ghost predicate Apart(crdt: Crdt, w: World, doc: DocId, x: int)
    requires |w.devices| == 2
  {
    var a, b := Rows(w.devices[0], doc), Rows(w.devices[1], doc);
    x in Join(crdt, b) && x !in Join(crdt, a) && Digests(a) != Digests(b)
  }

  lemma StayApart(crdt: Crdt, evs: seq<Event>, more: seq<Event>, doc: DocId, x: int, c: Bytes)
    requires crdt.Lawful() && x in crdt.mean(c) && AllSpare(crdt, 2, evs, more, 1, doc, x)
    requires Contained(crdt, Run(crdt, 2, evs), 1, doc, x, crdt.hash(c)) && Cut(Run(crdt, 2, evs), 1, doc, crdt.hash(c))
    requires x in Join(crdt, Rows(Run(crdt, 2, evs).devices[1], doc))
    ensures Apart(crdt, Run(crdt, 2, evs + more), doc, x)
  {
    CutUpdateNeverArrives(crdt, 2, evs, more, 1, doc, x, c);
    LogOnlyGrows(crdt, 2, evs + more, |evs|, 1, doc);
    assert (evs + more)[..|evs|] == evs;
    var t := Run(crdt, 2, evs + more);
    RunLogSafe(crdt, 2, evs + more, 0, doc);
    RunLogSafe(crdt, 2, evs + more, 1, doc);
    var a, b := Rows(t.devices[0], doc), Rows(t.devices[1], doc);
    if Digests(b) <= Digests(a) { DigestsDetermineState(crdt, b, a); }
  }
}
