/** What a read of a document shows along a run: everything the device holds, or less. */
module WillowReads {
  import opened ByteStrings
  import opened WillowLog
  import opened WillowStore
  import opened WillowGossip

  // ---- without gossip

  predicate OnlyWritesAndChecks(evs: seq<Event>) {
    forall e :: e in evs ==> e.Write? || e.Check?
  }

  /** Without gossip only the first row can be a snapshot. */
  ghost predicate SnapshotFirst(rows: seq<Row>) {
    forall i :: 0 < i < |rows| ==> rows[i].kind.Update?
  }

  lemma LocalStepShape(crdt: Crdt, rows: seq<Row>, e: Event)
    requires crdt.Lawful() && Sorted(rows) && Hashed(crdt, rows) && SnapshotFirst(rows) && (e.Write? || e.Check?)
    ensures e.Write? ==> var after := Append(crdt, rows, e.payload, Update, e.now);
      SnapshotFirst(after) && Join(crdt, after) == Join(crdt, rows) + crdt.mean(e.payload)
    ensures e.Check? ==> var after := MaybeCompacted(crdt, rows, e.now);
      SnapshotFirst(after) && Join(crdt, after) == Join(crdt, rows)
  {
    if e.Write? {
      AppendKeepsLog(crdt, rows, e.payload, Update, e.now);
    } else {
      CompactionKeepsState(crdt, rows, e.now);
    }
  }

  lemma {:induction false} LocalShape(crdt: Crdt, n: nat, evs: seq<Event>, dev: nat, doc: DocId)
    requires crdt.Lawful() && dev < n && OnlyWritesAndChecks(evs)
    ensures var rows := Rows(Run(crdt, n, evs).devices[dev], doc);
      SnapshotFirst(rows) && Join(crdt, rows) == Written(crdt, evs, dev, doc)
  {
    if evs != [] {
      var init, e := evs[..|evs| - 1], evs[|evs| - 1];
      assert forall x :: x in init ==> x in evs;
      assert e in evs;
      LocalShape(crdt, n, init, dev, doc);
      var rows := Rows(Run(crdt, n, init).devices[dev], doc);
      RunLogSafe(crdt, n, init, dev, doc);
      StepTouchesOneLog(crdt, Run(crdt, n, init), e, dev, doc);
      LocalStepShape(crdt, rows, e);
    } else {
      assert Rows(Run(crdt, n, evs).devices[dev], doc) == [];
    }
  }

  /** In every append-and-compact run a read shows exactly what was ever written to the device. */
  lemma LocalReadIsComplete(crdt: Crdt, n: nat, evs: seq<Event>, dev: nat, doc: DocId)
    requires crdt.Lawful() && dev < n && OnlyWritesAndChecks(evs)
    ensures Join(crdt, Visible(Rows(Run(crdt, n, evs).devices[dev], doc))) == Written(crdt, evs, dev, doc)
  {
    LocalShape(crdt, n, evs, dev, doc);
    var rows := Rows(Run(crdt, n, evs).devices[dev], doc);
    assert VisibleFrom(rows) == 0;
    assert Visible(rows) == rows;
  }

  // ---- with gossip

  /** An event that stores a give in the log stores one that covers the log. */
  ghost predicate GiveCovers(crdt: Crdt, w: World, e: Event, dev: nat, doc: DocId)
    requires dev < |w.devices|
  {
    var rows := Rows(w.devices[dev], doc);
    e.Hear? && e.dev == dev && e.frame in w.net && e.frame.SyncGive? && e.frame.doc == doc ==>
      Covers(crdt, rows, Fresh(e.frame.entries, Digests(rows), LastSeq(rows) + 1))
  }

  lemma AppendReads(crdt: Crdt, rows: seq<Row>, payload: Bytes, now: int)
    requires Complete(crdt, rows)
    ensures Complete(crdt, Append(crdt, rows, payload, Update, now))
  {
    var row := Row(LastSeq(rows) + 1, payload, crdt.hash(payload), now, Update);
    assert [row][0].kind.Update? && !HasSnapshot([row]);
    AppendedReadIff(crdt, rows, [row]);
  }

  /** A write or a check keeps complete reads complete. */
  lemma OwnRowsRead(crdt: Crdt, w: World, e: Event, dev: nat, doc: DocId)
    requires crdt.Lawful() && dev < |w.devices| && (e.Write? || e.Check?) && e.dev == dev && e.doc == doc
    requires var rows := Rows(w.devices[dev], doc); Sorted(rows) && Hashed(crdt, rows) && Complete(crdt, rows)
    ensures Complete(crdt, RowsAfter(crdt, w, e, dev, doc))
  {
    var rows := Rows(w.devices[dev], doc);
    if e.Write? { AppendReads(crdt, rows, e.payload, e.now); } else { CheckRestoresIff(crdt, rows, e.now); }
  }

  lemma GivenRowsReadIff(crdt: Crdt, w: World, e: Event, dev: nat, doc: DocId)
    requires dev < |w.devices| && e.Hear? && e.dev == dev && e.frame in w.net && e.frame.SyncGive? && e.frame.doc == doc
    requires Complete(crdt, Rows(w.devices[dev], doc))
    ensures Complete(crdt, RowsAfter(crdt, w, e, dev, doc)) <==> GiveCovers(crdt, w, e, dev, doc)
  {
    GiveReadIff(crdt, Rows(w.devices[dev], doc), e.frame.entries);
  }

  /** The event changes the rows. */
  predicate Touches(w: World, e: Event, dev: nat, doc: DocId) {
    && e.dev == dev
    && if e.Hear? then e.frame in w.net && e.frame.SyncGive? && e.frame.doc == doc
       else (e.Write? || e.Check?) && e.doc == doc
  }

  lemma UntouchedRows(crdt: Crdt, w: World, e: Event, dev: nat, doc: DocId)
    requires dev < |w.devices| && !Touches(w, e, dev, doc)
    ensures RowsAfter(crdt, w, e, dev, doc) == Rows(w.devices[dev], doc)
  {}

  lemma RowsReadIff(crdt: Crdt, w: World, e: Event, dev: nat, doc: DocId)
    requires crdt.Lawful() && dev < |w.devices|
    requires var rows := Rows(w.devices[dev], doc); Sorted(rows) && Hashed(crdt, rows) && Complete(crdt, rows)
    ensures Complete(crdt, RowsAfter(crdt, w, e, dev, doc)) <==> GiveCovers(crdt, w, e, dev, doc)
  {
    if !Touches(w, e, dev, doc) {
      UntouchedRows(crdt, w, e, dev, doc);
    } else if e.Hear? {
      GivenRowsReadIff(crdt, w, e, dev, doc);
    } else {
      OwnRowsRead(crdt, w, e, dev, doc);
    }
  }

  ghost predicate ReadsComplete(crdt: Crdt, n: nat, evs: seq<Event>, dev: nat, doc: DocId)
    requires dev < n
  {
    Complete(crdt, Rows(Run(crdt, n, evs).devices[dev], doc))
  }

  /** One step keeps reads complete exactly when the give it may store covers the log. */
  lemma StepReadIff(crdt: Crdt, n: nat, evs: seq<Event>, e: Event, dev: nat, doc: DocId)
    requires crdt.Lawful() && dev < n && ReadsComplete(crdt, n, evs, dev, doc)
    ensures ReadsComplete(crdt, n, evs + [e], dev, doc) <==> GiveCovers(crdt, Run(crdt, n, evs), e, dev, doc)
  {
    RunLogSafe(crdt, n, evs, dev, doc);
    RunMore(crdt, n, evs, e);
    StepTouchesOneLog(crdt, Run(crdt, n, evs), e, dev, doc);
    RowsReadIff(crdt, Run(crdt, n, evs), e, dev, doc);
  }

  /** Reads are complete now and were after every event before. */
  ghost predicate AlwaysComplete(crdt: Crdt, n: nat, evs: seq<Event>, dev: nat, doc: DocId)
    requires dev < n
  {
    ReadsComplete(crdt, n, evs, dev, doc) && (evs == [] || AlwaysComplete(crdt, n, evs[..|evs| - 1], dev, doc))
  }

  /** Every give of the run covered the log it was stored in, at the time. */
  ghost predicate EveryGiveCovers(crdt: Crdt, n: nat, evs: seq<Event>, dev: nat, doc: DocId)
    requires dev < n
  {
    evs == [] ||
    var front := evs[..|evs| - 1];
    EveryGiveCovers(crdt, n, front, dev, doc) && GiveCovers(crdt, Run(crdt, n, front), evs[|evs| - 1], dev, doc)
  }

  /** Over any run reads stay complete throughout exactly when each give, as it is stored, covers the log. */
  lemma {:induction false} ReadsCompleteIff(crdt: Crdt, n: nat, evs: seq<Event>, dev: nat, doc: DocId)
    requires crdt.Lawful() && dev < n
    ensures AlwaysComplete(crdt, n, evs, dev, doc) <==> EveryGiveCovers(crdt, n, evs, dev, doc)
  {
    if evs == [] {
      EmptyComplete(crdt, n, dev, doc);
    } else {
      var front, last := evs[..|evs| - 1], evs[|evs| - 1];
      ReadsCompleteIff(crdt, n, front, dev, doc);
      assert front + [last] == evs;
      if ReadsComplete(crdt, n, front, dev, doc) { StepReadIff(crdt, n, front, last, dev, doc); }
    }
  }

  lemma EmptyComplete(crdt: Crdt, n: nat, dev: nat, doc: DocId)
    requires dev < n
    ensures ReadsComplete(crdt, n, [], dev, doc)
  {
    assert Visible([]) == [];
  }

  /** The event stores no snapshot that a peer gave. */
  ghost predicate StoresNoSnapshot(w: World, e: Event, dev: nat, doc: DocId)
    requires dev < |w.devices|
  {
    var rows := Rows(w.devices[dev], doc);
    e.Hear? && e.dev == dev && e.frame in w.net && e.frame.SyncGive? && e.frame.doc == doc ==>
      !HasSnapshot(Fresh(e.frame.entries, Digests(rows), LastSeq(rows) + 1))
  }

  ghost predicate NoSnapshotGiven(crdt: Crdt, n: nat, evs: seq<Event>, dev: nat, doc: DocId)
    requires dev < n
  {
    evs == [] ||
    var front := evs[..|evs| - 1];
    NoSnapshotGiven(crdt, n, front, dev, doc) && StoresNoSnapshot(Run(crdt, n, front), evs[|evs| - 1], dev, doc)
  }

  lemma {:induction false} NoSnapshotCovers(crdt: Crdt, n: nat, evs: seq<Event>, dev: nat, doc: DocId)
    requires dev < n && NoSnapshotGiven(crdt, n, evs, dev, doc)
    ensures EveryGiveCovers(crdt, n, evs, dev, doc)
  {
    if evs != [] { NoSnapshotCovers(crdt, n, evs[..|evs| - 1], dev, doc); }
  }

  /** In every run in which no give stores a snapshot in a log, reads of it show all that the device holds,
      all that was written to it included. */
  lemma CompleteWithoutGivenSnapshots(crdt: Crdt, n: nat, evs: seq<Event>, dev: nat, doc: DocId)
    requires crdt.Lawful() && dev < n
    requires NoSnapshotGiven(crdt, n, evs, dev, doc)
    ensures var rows := Rows(Run(crdt, n, evs).devices[dev], doc);
      Written(crdt, evs, dev, doc) <= Join(crdt, rows) == Join(crdt, Visible(rows))
  {
    NoSnapshotCovers(crdt, n, evs, dev, doc);
    ReadsCompleteIff(crdt, n, evs, dev, doc);
    RunLogSafe(crdt, n, evs, dev, doc);
  }

  /** After any run a check leaves reads complete exactly when they were or a threshold is met, and they then
      show everything written to the device; while the log holds an update row every check from some moment
      on does; once it holds snapshots alone, no check changes it. */
  lemma GossipReadRestored(crdt: Crdt, n: nat, evs: seq<Event>, dev: nat, doc: DocId) returns (due: int)
    requires crdt.Lawful() && dev < n
    ensures var rows := Rows(Run(crdt, n, evs).devices[dev], doc);
      && (forall now {:trigger Checked(crdt, n, evs, dev, doc, now)} ::
            Complete(crdt, Checked(crdt, n, evs, dev, doc, now)) <==> Complete(crdt, rows) || NeedsCompact(rows, now))
      && (forall now {:trigger Checked(crdt, n, evs, dev, doc, now)} ::
            Complete(crdt, Checked(crdt, n, evs, dev, doc, now)) ==>
              Written(crdt, evs, dev, doc) <= Join(crdt, rows) == Join(crdt, Visible(Checked(crdt, n, evs, dev, doc, now))))
      && (UpdateCount(rows) > 0 ==> forall now :: now >= due ==> Complete(crdt, Checked(crdt, n, evs, dev, doc, now)))
      && (UpdateCount(rows) == 0 ==> forall now :: Checked(crdt, n, evs, dev, doc, now) == rows)
  {
    var rows := Rows(Run(crdt, n, evs).devices[dev], doc);
    RunLogSafe(crdt, n, evs, dev, doc);
    due := RestoredInTime(crdt, rows);
    forall now
      ensures Checked(crdt, n, evs, dev, doc, now) == MaybeCompacted(crdt, rows, now)
      ensures Complete(crdt, MaybeCompacted(crdt, rows, now)) <==> Complete(crdt, rows) || NeedsCompact(rows, now)
      ensures Join(crdt, MaybeCompacted(crdt, rows, now)) == Join(crdt, rows)
    {
      RunMore(crdt, n, evs, Check(dev, doc, now));
      CheckRestoresIff(crdt, rows, now);
      CompactionKeepsState(crdt, rows, now);
    }
  }

  /** The log after one more compaction check. */
  ghost function Checked(crdt: Crdt, n: nat, evs: seq<Event>, dev: nat, doc: DocId, now: int): seq<Row>
    requires dev < n
  {
    Rows(Run(crdt, n, evs + [Check(dev, doc, now)]).devices[dev], doc)
  }

  // ---- runs that lose a read

  /** After its own write and check, a device whose rows a peer's snapshot follows. */
  lemma PulledSnapshot(crdt: Crdt, mine: Row, r: Row, num: nat)
    requires crdt.Lawful() && r.kind.Snapshot? && !(crdt.mean(mine.payload) <= crdt.mean(r.payload))
    ensures var rows := [mine] + [r.(num := num)];
      && Join(crdt, Visible(rows)) == crdt.mean(r.payload)
      && Join(crdt, rows) == crdt.mean(mine.payload) + crdt.mean(r.payload)
      && !Complete(crdt, rows)
  {
    var moved := r.(num := num);
    assert [moved][0].kind.Snapshot? && HasSnapshot([moved]);
    VisibleAppend([mine], [moved]);
    assert Visible([moved]) == [moved];
    JoinConcat(crdt, [mine], [moved]);
    SingleJoin(crdt, mine);
    SingleJoin(crdt, moved);
  }

  lemma NotHeld(crdt: Crdt, mine: Row, r: Row)
    requires crdt.Lawful() && mine.digest == crdt.hash(mine.payload) && r.digest == crdt.hash(r.payload)
    requires crdt.mean(mine.payload) != crdt.mean(r.payload)
    ensures r.digest !in Digests([mine])
  {}

  /** A big or an old write is compacted, and its snapshot holds the rows and the write. */
  lemma AppendCompacts(crdt: Crdt, rows: seq<Row>, p: Bytes, at: int, now: int)
    requires crdt.Lawful() && (|p| >= COMPACT_MAX_BYTES || now - at >= COMPACT_MAX_AGE_MS)
    ensures var after := Append(crdt, rows, p, Update, at);
      NeedsCompact(after, now) && crdt.mean(SnapshotOf(crdt, after, now).payload) == Join(crdt, rows) + crdt.mean(p)
  {
    var after := Append(crdt, rows, p, Update, at);
    assert after[..|after| - 1] == rows && after[|rows|] in after;
    JoinConcat(crdt, rows, [after[|rows|]]);
    SingleJoin(crdt, after[|rows|]);
  }

  /** A device writes `p`, and a check compacts its rows into `r`; another device is left as it was. */
  lemma WriteCompacted(crdt: Crdt, n: nat, evs: seq<Event>, dev: nat, other: nat, doc: DocId, p: Bytes, at: int, now: int) returns (r: Row)
    requires crdt.Lawful() && dev < n && other < n && dev != other
    requires |p| >= COMPACT_MAX_BYTES || now - at >= COMPACT_MAX_AGE_MS
    ensures r.kind.Snapshot? && r.digest == crdt.hash(r.payload)
    ensures crdt.mean(r.payload) == Join(crdt, Rows(Run(crdt, n, evs).devices[dev], doc)) + crdt.mean(p)
    ensures var t := Run(crdt, n, evs + [Write(dev, doc, p, at)] + [Check(dev, doc, now)]);
      Rows(t.devices[dev], doc) == [r] && Rows(t.devices[other], doc) == Rows(Run(crdt, n, evs).devices[other], doc)
  {
    var rows, write, check := Rows(Run(crdt, n, evs).devices[dev], doc), Write(dev, doc, p, at), Check(dev, doc, now);
    r := SnapshotOf(crdt, Append(crdt, rows, p, Update, at), now);
    AppendCompacts(crdt, rows, p, at, now);
    RunRows(crdt, n, evs, write, dev, doc);
    RunRows(crdt, n, evs, write, other, doc);
    RunRows(crdt, n, evs + [write], check, dev, doc);
    RunRows(crdt, n, evs + [write], check, other, doc);
  }

  /** What device 1 has written after `evs` is `q`, if that is its only write. */
  lemma {:induction false} WrittenOnce(crdt: Crdt, evs: seq<Event>, k: nat, doc: DocId, q: Bytes)
    requires k < |evs| && evs[k].Write? && evs[k].dev == 1 && evs[k].doc == doc && evs[k].payload == q
    requires forall i :: 0 <= i < |evs| && i != k ==> !evs[i].Write? || evs[i].dev == 0
    ensures Written(crdt, evs, 1, doc) == crdt.mean(q)
  {
    if k == |evs| - 1 { WrittenByOther(crdt, evs[..k], doc); } else { WrittenOnce(crdt, evs[..|evs| - 1], k, doc, q); }
  }

  lemma WrittenThen(crdt: Crdt, evs: seq<Event>, more: seq<Event>, k: nat, doc: DocId, q: Bytes)
    requires k < |evs| && evs[k].Write? && evs[k].dev == 1 && evs[k].doc == doc && evs[k].payload == q
    requires forall i :: 0 <= i < |evs| && i != k ==> !evs[i].Write? || evs[i].dev == 0
    requires forall i :: 0 <= i < |more| ==> !more[i].Write?
    ensures Written(crdt, evs + more, 1, doc) == crdt.mean(q)
  {
    WrittenOnce(crdt, evs + more, k, doc, q);
  }

  lemma {:induction false} WrittenByOther(crdt: Crdt, evs: seq<Event>, doc: DocId)
    requires forall i :: 0 <= i < |evs| ==> !evs[i].Write? || evs[i].dev == 0
    ensures Written(crdt, evs, 1, doc) == {}
  {
    if evs != [] { WrittenByOther(crdt, evs[..|evs| - 1], doc); }
  }

  /** Device 1 holds one row of its own and pulls the one snapshot of device 0. */
  lemma PullHides(crdt: Crdt, evs: seq<Event>, doc: DocId, mine: Row, r: Row) returns (more: seq<Event>)
    requires crdt.Lawful() && r.kind.Snapshot? && !(crdt.mean(mine.payload) <= crdt.mean(r.payload))
    requires mine.digest == crdt.hash(mine.payload) && r.digest == crdt.hash(r.payload)
    requires Rows(Run(crdt, 2, evs).devices[0], doc) == [r] && Rows(Run(crdt, 2, evs).devices[1], doc) == [mine]
    ensures |more| == 4 && more[0] == Announce(0) && more[1].Hear? && more[2].Hear? && more[3].Hear?
    ensures var rows := Rows(Run(crdt, 2, evs + more).devices[1], doc);
      && rows == [mine] + [r.(num := mine.num + 1)]
      && Join(crdt, Visible(rows)) == crdt.mean(r.payload)
      && Join(crdt, rows) == crdt.mean(mine.payload) + crdt.mean(r.payload)
      && !Complete(crdt, rows)
  {
    NotHeld(crdt, mine, r);
    more := PullAfterMine(crdt, evs, doc, mine, r);
    PulledSnapshot(crdt, mine, r, mine.num + 1);
  }

  lemma PullAfterMine(crdt: Crdt, evs: seq<Event>, doc: DocId, mine: Row, r: Row) returns (more: seq<Event>)
    requires Rows(Run(crdt, 2, evs).devices[0], doc) == [r] && Rows(Run(crdt, 2, evs).devices[1], doc) == [mine]
    requires r.digest !in Digests([mine])
    ensures |more| == 4 && more[0] == Announce(0) && more[1].Hear? && more[2].Hear? && more[3].Hear?
    ensures Rows(Run(crdt, 2, evs + more).devices[1], doc) == [mine] + [r.(num := mine.num + 1)]
  {
    more := PullOne(crdt, 2, evs, 0, 1, doc, r);
    assert LastSeq([mine]) == mine.num;
  }

  /** The same after a run that wrote only `q` to device 1. */
  lemma PullHidesWritten(crdt: Crdt, evs: seq<Event>, k: nat, doc: DocId, q: Bytes, mine: Row, r: Row) returns (more: seq<Event>)
    requires crdt.Lawful() && r.kind.Snapshot? && !(crdt.mean(mine.payload) <= crdt.mean(r.payload))
    requires mine.digest == crdt.hash(mine.payload) && r.digest == crdt.hash(r.payload) && crdt.mean(mine.payload) == crdt.mean(q)
    requires Rows(Run(crdt, 2, evs).devices[0], doc) == [r] && Rows(Run(crdt, 2, evs).devices[1], doc) == [mine]
    requires k < |evs| && evs[k].Write? && evs[k].dev == 1 && evs[k].doc == doc && evs[k].payload == q
    requires forall i :: 0 <= i < |evs| && i != k ==> !evs[i].Write? || evs[i].dev == 0
    ensures |more| == 4 && more[0] == Announce(0) && more[1].Hear? && more[2].Hear? && more[3].Hear?
    ensures var rows := Rows(Run(crdt, 2, evs + more).devices[1], doc);
      && Join(crdt, Visible(rows)) == crdt.mean(r.payload)
      && Join(crdt, rows) == crdt.mean(r.payload) + crdt.mean(q)
      && Written(crdt, evs + more, 1, doc) == crdt.mean(q)
      && (mine.kind.Snapshot? ==> UpdateCount(rows) == 0)
  {
    more := PullHides(crdt, evs, doc, mine, r);
    WrittenThen(crdt, evs, more, k, doc, q);
    if mine.kind.Snapshot? { TwoSnapshots(mine, r.(num := mine.num + 1)); }
  }

  lemma TwoSnapshots(a: Row, b: Row)
    requires a.kind.Snapshot? && b.kind.Snapshot?
    ensures UpdateCount([a] + [b]) == 0
  {
    assert ([a] + [b])[..1] == [a] && [a][..0] == [];
    assert UpdateCount([a]) == UpdateCount([a][..0]);
  }

  lemma WriteAlone(crdt: Crdt, evs: seq<Event>, doc: DocId, q: Bytes) returns (mine: Row)
    requires Rows(Run(crdt, 2, evs).devices[1], doc) == []
    ensures mine.payload == q && mine.digest == crdt.hash(q)
    ensures var t := Run(crdt, 2, evs + [Write(1, doc, q, 0)]);
      Rows(t.devices[0], doc) == Rows(Run(crdt, 2, evs).devices[0], doc) && Rows(t.devices[1], doc) == [mine]
  {
    mine := Append(crdt, [], q, Update, 0)[0];
    RunRows(crdt, 2, evs, Write(1, doc, q, 0), 0, doc);
    RunRows(crdt, 2, evs, Write(1, doc, q, 0), 1, doc);
  }

  lemma NoRows(crdt: Crdt, n: nat, dev: nat, doc: DocId)
    requires dev < n
    ensures Rows(Run(crdt, n, []).devices[dev], doc) == []
  {}

  /** Reads are not always complete: device 0 writes `p` and compacts; device 1 writes `q`, which holds
      something `p` lacks, and pulls the snapshot. Its read then shows `p` alone, though its log holds both. */
  lemma GossipedSnapshotHides(crdt: Crdt, doc: DocId, p: Bytes, q: Bytes) returns (evs: seq<Event>)
    requires crdt.Lawful() && !(crdt.mean(q) <= crdt.mean(p))
    ensures |evs| == 7 && evs[..3] == [Write(0, doc, p, 0), Check(0, doc, COMPACT_MAX_AGE_MS), Write(1, doc, q, 0)]
    ensures evs[3] == Announce(0) && evs[4].Hear? && evs[5].Hear? && evs[6].Hear?
    ensures var rows := Rows(Run(crdt, 2, evs).devices[1], doc);
      && Join(crdt, Visible(rows)) == crdt.mean(p)
      && Join(crdt, rows) == crdt.mean(p) + crdt.mean(q)
      && Written(crdt, evs, 1, doc) == crdt.mean(q)
  {
    var three, mine, r := OneCompacted(crdt, doc, p, q);
    var more := PullHidesWritten(crdt, three, 2, doc, q, mine, r);
    evs := three + more;
  }

  lemma OneCompacted(crdt: Crdt, doc: DocId, p: Bytes, q: Bytes) returns (evs: seq<Event>, mine: Row, r: Row)
    requires crdt.Lawful()
    ensures |evs| == 3 && evs[0] == Write(0, doc, p, 0) && evs[1] == Check(0, doc, COMPACT_MAX_AGE_MS) && evs[2] == Write(1, doc, q, 0)
    ensures mine.payload == q && mine.digest == crdt.hash(q)
    ensures r.kind.Snapshot? && r.digest == crdt.hash(r.payload) && crdt.mean(r.payload) == crdt.mean(p)
    ensures Rows(Run(crdt, 2, evs).devices[0], doc) == [r] && Rows(Run(crdt, 2, evs).devices[1], doc) == [mine]
  {
    var two;
    two, r := FirstCompacted(crdt, doc, p, COMPACT_MAX_AGE_MS);
    mine := WriteAlone(crdt, two, doc, q);
    evs := two + [Write(1, doc, q, 0)];
  }

  /** Device 0 writes `p` first of all and compacts it. */
  lemma FirstCompacted(crdt: Crdt, doc: DocId, p: Bytes, now: int) returns (evs: seq<Event>, r: Row)
    requires crdt.Lawful() && (|p| >= COMPACT_MAX_BYTES || now >= COMPACT_MAX_AGE_MS)
    ensures |evs| == 2 && evs[0] == Write(0, doc, p, 0) && evs[1] == Check(0, doc, now)
    ensures r.kind.Snapshot? && r.digest == crdt.hash(r.payload) && crdt.mean(r.payload) == crdt.mean(p)
    ensures Rows(Run(crdt, 2, evs).devices[0], doc) == [r] && Rows(Run(crdt, 2, evs).devices[1], doc) == []
  {
    NoRows(crdt, 2, 0, doc);
    NoRows(crdt, 2, 1, doc);
    r := WriteCompacted(crdt, 2, [], 0, 1, doc, p, 0, now);
    evs := [] + [Write(0, doc, p, 0)] + [Check(0, doc, now)];
  }

  /** And a compaction check may never mend them: each of two devices writes a payload that its own check
      compacts at once; device 1 pulls the snapshot of device 0, and from then on no check, at any time,
      brings its own writing back into a read. */
  lemma SnapshotsStayHidden(crdt: Crdt, doc: DocId, p: Bytes, q: Bytes) returns (evs: seq<Event>)
    requires crdt.Lawful() && !(crdt.mean(q) <= crdt.mean(p)) && |p| >= COMPACT_MAX_BYTES && |q| >= COMPACT_MAX_BYTES
    ensures |evs| == 8
    ensures evs[..4] == [Write(0, doc, p, 0), Check(0, doc, 0), Write(1, doc, q, 0), Check(1, doc, 0)]
    ensures evs[4] == Announce(0) && evs[5].Hear? && evs[6].Hear? && evs[7].Hear?
    ensures Written(crdt, evs, 1, doc) == crdt.mean(q)
    ensures forall now :: Join(crdt, Visible(Checked(crdt, 2, evs, 1, doc, now))) == crdt.mean(p)
  {
    var four, mine, r := BothCompacted(crdt, doc, p, q);
    var more := PullHidesWritten(crdt, four, 2, doc, q, mine, r);
    evs := four + more;
    NeverChecked(crdt, evs, doc);
  }

  lemma BothCompacted(crdt: Crdt, doc: DocId, p: Bytes, q: Bytes) returns (evs: seq<Event>, mine: Row, r: Row)
    requires crdt.Lawful() && |p| >= COMPACT_MAX_BYTES && |q| >= COMPACT_MAX_BYTES
    ensures |evs| == 4 && evs[0] == Write(0, doc, p, 0) && evs[1] == Check(0, doc, 0)
    ensures evs[2] == Write(1, doc, q, 0) && evs[3] == Check(1, doc, 0)
    ensures mine.kind.Snapshot? && mine.digest == crdt.hash(mine.payload) && crdt.mean(mine.payload) == crdt.mean(q)
    ensures r.kind.Snapshot? && r.digest == crdt.hash(r.payload) && crdt.mean(r.payload) == crdt.mean(p)
    ensures Rows(Run(crdt, 2, evs).devices[0], doc) == [r] && Rows(Run(crdt, 2, evs).devices[1], doc) == [mine]
  {
    var two;
    two, r := FirstCompacted(crdt, doc, p, 0);
    mine := WriteCompacted(crdt, 2, two, 1, 0, doc, q, 0, 0);
    evs := two + [Write(1, doc, q, 0)] + [Check(1, doc, 0)];
  }

  lemma NeverChecked(crdt: Crdt, evs: seq<Event>, doc: DocId)
    requires crdt.Lawful() && UpdateCount(Rows(Run(crdt, 2, evs).devices[1], doc)) == 0
    ensures forall now :: Checked(crdt, 2, evs, 1, doc, now) == Rows(Run(crdt, 2, evs).devices[1], doc)
  {
    var due := GossipReadRestored(crdt, 2, evs, 1, doc);
  }
}
