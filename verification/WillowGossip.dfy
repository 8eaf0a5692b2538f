/** Devices gossiping their logs: one exchange between two devices, and arbitrary runs of many
    devices over a network that loses, repeats and reorders frames. */
module WillowGossip {
  import opened ByteStrings
  import opened WillowLog
  import opened WillowStore

  // ---- one exchange

  /** `to` hears the summary of `from`, wants what it lacks, and applies what it is given. */
  function Pull(from: seq<Row>, to: seq<Row>): seq<Row> {
    Given(to, Passed(from, to))
  }

  /** The rows a pull brings. */
  function Passed(from: seq<Row>, to: seq<Row>): seq<Row> {
    Fulfilled(from, Missing(Newest(from), Digests(to)))
  }

  /** The digests a summary carries. */
  function Offered(rows: seq<Row>): set<Digest> {
    set d | d in Newest(rows)
  }

  lemma OfferedWithin(rows: seq<Row>)
    ensures Offered(rows) <= Digests(rows)
    ensures |rows| <= MAX_DIGESTS_PER_SUMMARY ==> Offered(rows) == Digests(rows)
  {
    var newest := Newest(rows);
    forall d | d in newest ensures d in Digests(rows) {
      var i :| 0 <= i < |newest| && newest[i] == d;
      assert rows[|rows| - 1 - i] in rows;
    }
    if |rows| <= MAX_DIGESTS_PER_SUMMARY {
      forall r | r in rows ensures r.digest in newest {
        var i :| 0 <= i < |rows| && rows[i] == r;
        assert newest[|rows| - 1 - i] == r.digest;
      }
    }
  }

  /** Digests held together with their payloads decide the joined state. */
  lemma DigestsDetermineState(crdt: Crdt, a: seq<Row>, b: seq<Row>)
    requires Hashed(crdt, a) && Hashed(crdt, b) && crdt.Lawful() && Digests(a) <= Digests(b)
    ensures Join(crdt, a) <= Join(crdt, b)
  {
    forall r | r in a ensures crdt.mean(r.payload) <= Join(crdt, b) {
      assert r.digest in Digests(b);
      var s :| s in b && s.digest == r.digest;
      assert s.payload == r.payload;
      JoinHas(crdt, b, s);
    }
    JoinWithin(crdt, a, Join(crdt, b));
  }

  /** A pull brings exactly what the summary offered, and keeps the log well formed. */
  lemma PullGains(crdt: Crdt, from: seq<Row>, to: seq<Row>)
    requires Hashed(crdt, from) && Hashed(crdt, to) && Sorted(to) && crdt.Lawful()
    ensures Digests(Pull(from, to)) == Digests(to) + Offered(from)
    ensures Hashed(crdt, Pull(from, to)) && Sorted(Pull(from, to))
    ensures |Pull(from, to)| <= |to| + |from|
  {
    var have := Digests(to);
    var want := Missing(Newest(from), have);
    var give := Fulfilled(from, want);
    MissingExactly(Newest(from), have);
    FulfilledExactly(from, want);
    FulfilledShort(from, want);
    FreshShort(give, have, LastSeq(to) + 1);
    forall i | 0 <= i < |give| ensures give[i].digest == crdt.hash(give[i].payload) {
      assert give[i] in give;
    }
    GivenAdds(crdt, to, give);
    GivenKeepsLog(crdt, to, give);
    OfferedWithin(from);
    forall d | d in Offered(from) ensures d in have + Digests(give) {
      if d !in have {
        var r :| r in from && r.digest == d;
        assert r in give;
      }
    }
    forall d | d in Digests(give) ensures d in Offered(from) {
      var r :| r in give && r.digest == d;
    }
  }

  lemma {:induction false} FulfilledShort(rows: seq<Row>, digests: seq<Digest>)
    ensures |Fulfilled(rows, digests)| <= |rows|
  {
    if rows != [] { FulfilledShort(rows[..|rows| - 1], digests); }
  }

  lemma {:induction false} FreshShort(entries: seq<Row>, have: set<Digest>, next: nat)
    ensures |Fresh(entries, have, next)| <= |entries|
  {
    if entries != [] { FreshShort(entries[..|entries| - 1], have, next); }
  }

  /** No pull either way asks for anything. */
  ghost predicate Settled(a: seq<Row>, b: seq<Row>) {
    Missing(Newest(a), Digests(b)) == [] && Missing(Newest(b), Digests(a)) == []
  }

  lemma SameDigestsSettled(crdt: Crdt, a: seq<Row>, b: seq<Row>)
    requires Digests(a) == Digests(b) && Hashed(crdt, a) && Hashed(crdt, b) && crdt.Lawful()
    ensures Settled(a, b) && Join(crdt, a) == Join(crdt, b)
  {
    DigestsDetermineState(crdt, a, b);
    DigestsDetermineState(crdt, b, a);
    OfferedWithin(a);
    OfferedWithin(b);
    NothingMissing(Newest(a), Digests(b));
    NothingMissing(Newest(b), Digests(a));
  }

  lemma {:induction false} NothingMissing(offered: seq<Digest>, have: set<Digest>)
    requires (set d | d in offered) <= have
    ensures Missing(offered, have) == []
  {
    if offered != [] {
      var init, d := offered[..|offered| - 1], offered[|offered| - 1];
      assert forall x :: x in init ==> x in (set d | d in offered);
      assert d in offered && d in (set d | d in offered);
      NothingMissing(init, have);
    }
  }

  /** One pull each way, one after the other: the devices agree exactly when each row cut from a
      summary was already held by the other side. */
  lemma ExchangeAgreesIff(crdt: Crdt, a: seq<Row>, b: seq<Row>)
    requires Hashed(crdt, a) && Hashed(crdt, b) && Sorted(a) && Sorted(b) && crdt.Lawful()
    ensures var b' := Pull(a, b);
      var a' := Pull(b', a);
      Digests(a') == Digests(b') <==>
        Digests(a) - Offered(a) <= Digests(b) && Digests(b) - Offered(b') <= Digests(a)
  {
    var b' := Pull(a, b);
    var a' := Pull(b', a);
    PullGains(crdt, a, b);
    PullGains(crdt, b', a);
    OfferedWithin(a);
    OfferedWithin(b');
    assert Digests(a') == Digests(a) + Offered(b');
    assert Digests(b') == Digests(b) + Offered(a);
    if Digests(a') == Digests(b') {
      forall d | d in Digests(a) - Offered(a) ensures d in Digests(b) {
        assert d in Digests(a');
      }
      forall d | d in Digests(b) - Offered(b') ensures d in Digests(a) {
        assert d in Digests(b');
      }
    }
  }

  /** The same for two pulls whose summaries crossed on the wire. */
  lemma CrossedExchangeAgreesIff(crdt: Crdt, a: seq<Row>, b: seq<Row>)
    requires Hashed(crdt, a) && Hashed(crdt, b) && Sorted(a) && Sorted(b) && crdt.Lawful()
    ensures Digests(Pull(b, a)) == Digests(Pull(a, b)) <==>
      Digests(a) - Offered(a) <= Digests(b) && Digests(b) - Offered(b) <= Digests(a)
  {
    PullGains(crdt, a, b);
    PullGains(crdt, b, a);
    OfferedWithin(a);
    OfferedWithin(b);
    var a', b' := Pull(b, a), Pull(a, b);
    if Digests(a') == Digests(b') {
      forall d | d in Digests(a) - Offered(a) ensures d in Digests(b) {
        assert d in Digests(a');
      }
      forall d | d in Digests(b) - Offered(b) ensures d in Digests(a) {
        assert d in Digests(b');
      }
    }
  }

  /** Two devices holding together at most 100 rows agree after one pull each way in turn, and then ask
      for nothing. */
  lemma SmallLogsConverge(crdt: Crdt, a: seq<Row>, b: seq<Row>)
    requires Hashed(crdt, a) && Hashed(crdt, b) && Sorted(a) && Sorted(b) && crdt.Lawful()
    requires |a| + |b| <= MAX_DIGESTS_PER_SUMMARY
    ensures var b' := Pull(a, b);
      var a' := Pull(b', a);
      && Digests(a') == Digests(b') == Digests(a) + Digests(b)
      && Join(crdt, a') == Join(crdt, b') == Join(crdt, a) + Join(crdt, b)
      && Settled(a', b')
  {
    var b' := Pull(a, b);
    var a' := Pull(b', a);
    PullGains(crdt, a, b);
    PullGains(crdt, b', a);
    OfferedWithin(a);
    OfferedWithin(b');
    SameDigestsSettled(crdt, a', b');
    UnionState(crdt, a, b, b');
  }

  /** When both summaries are on their way at once, 100 rows on each device will do. */
  lemma CrossedLogsConverge(crdt: Crdt, a: seq<Row>, b: seq<Row>)
    requires Hashed(crdt, a) && Hashed(crdt, b) && Sorted(a) && Sorted(b) && crdt.Lawful()
    requires |a| <= MAX_DIGESTS_PER_SUMMARY && |b| <= MAX_DIGESTS_PER_SUMMARY
    ensures var a', b' := Pull(b, a), Pull(a, b);
      && Digests(a') == Digests(b') == Digests(a) + Digests(b)
      && Join(crdt, a') == Join(crdt, b') == Join(crdt, a) + Join(crdt, b)
      && Settled(a', b')
  {
    PullGains(crdt, a, b);
    PullGains(crdt, b, a);
    OfferedWithin(a);
    OfferedWithin(b);
    SameDigestsSettled(crdt, Pull(b, a), Pull(a, b));
    UnionState(crdt, a, b, Pull(a, b));
  }

  lemma UnionState(crdt: Crdt, a: seq<Row>, b: seq<Row>, c: seq<Row>)
    requires Hashed(crdt, a) && Hashed(crdt, b) && Hashed(crdt, c) && crdt.Lawful()
    requires Digests(c) == Digests(a) + Digests(b)
    ensures Join(crdt, c) == Join(crdt, a) + Join(crdt, b)
  {
    DigestsConcat(a, b);
    JoinConcat(crdt, a, b);
    DigestsDetermineState(crdt, c, a + b);
    DigestsDetermineState(crdt, a + b, c);
  }

  // ---- runs

  datatype Frame =
    | SyncSummary(docs: map<DocId, DocSummary>)
    | SyncWant(doc: DocId, digests: seq<Digest>)
    | SyncGive(doc: DocId, entries: seq<Row>)

  /** `net` holds every frame ever sent: any of them may arrive anywhere, any number of times, or never. */
  datatype World = World(devices: seq<Table>, net: set<Frame>)

  datatype Event =
    | Write(dev: nat, doc: DocId, payload: Bytes, now: int)
    | Check(dev: nat, doc: DocId, now: int)
    | Announce(dev: nat)
    | Hear(dev: nat, frame: Frame)

  function Answer(t: Table, frame: Frame): set<Frame> {
    match frame
    case SyncSummary(docs) =>
      var wants := WantsOf(t, docs);
      set doc | doc in wants :: SyncWant(doc, wants[doc])
    case SyncWant(doc, digests) =>
      var give := Fulfilled(Rows(t, doc), digests);
      if give == [] then {} else {SyncGive(doc, give)}
    case SyncGive(_, _) => {}
  }

  function Learn(t: Table, frame: Frame): Table {
    if frame.SyncGive? then Put(t, frame.doc, Given(Rows(t, frame.doc), frame.entries)) else t
  }

  function Step(crdt: Crdt, w: World, e: Event): (w': World)
    ensures |w'.devices| == |w.devices|
  {
    if e.dev >= |w.devices| then w
    else
      var t := w.devices[e.dev];
      match e
      case Write(dev, doc, payload, now) =>
        w.(devices := w.devices[dev := Put(t, doc, Append(crdt, Rows(t, doc), payload, Update, now))])
      case Check(dev, doc, now) =>
        w.(devices := w.devices[dev := Put(t, doc, MaybeCompacted(crdt, Rows(t, doc), now))])
      case Announce(dev) =>
        if SummaryOf(t) == map[] then w else w.(net := w.net + {SyncSummary(SummaryOf(t))})
      case Hear(dev, frame) =>
        if frame !in w.net then w
        else World(w.devices[dev := Learn(t, frame)], w.net + Answer(t, frame))
  }

  function Run(crdt: Crdt, n: nat, evs: seq<Event>): (w: World)
    ensures |w.devices| == n
  {
    if evs == [] then World(seq(n, _ => map[]), {})
    else Step(crdt, Run(crdt, n, evs[..|evs| - 1]), evs[|evs| - 1])
  }

  /** What one `yjs-write` contributes to a document on a device. */
  function WrittenBy(crdt: Crdt, e: Event, dev: nat, doc: DocId): State {
    if e.Write? && e.dev == dev && e.doc == doc then crdt.mean(e.payload) else {}
  }

  /** Everything appended to a document on one device. */
  function Written(crdt: Crdt, evs: seq<Event>, dev: nat, doc: DocId): State {
    if evs == [] then {}
    else Written(crdt, evs[..|evs| - 1], dev, doc) + WrittenBy(crdt, evs[|evs| - 1], dev, doc)
  }

  /** Everything appended to a document on any of the first n devices. */
  function WrittenAnywhere(crdt: Crdt, evs: seq<Event>, n: nat, doc: DocId): State {
    if n == 0 then {} else WrittenAnywhere(crdt, evs, n - 1, doc) + Written(crdt, evs, n - 1, doc)
  }

  lemma {:induction false} WrittenGrows(crdt: Crdt, evs: seq<Event>, e: Event, n: nat, doc: DocId)
    ensures WrittenAnywhere(crdt, evs, n, doc) <= WrittenAnywhere(crdt, evs + [e], n, doc)
  {
    assert (evs + [e])[..|evs|] == evs;
    if n > 0 { WrittenGrows(crdt, evs, e, n - 1, doc); }
  }

  lemma {:induction false} WrittenIsAnywhere(crdt: Crdt, evs: seq<Event>, n: nat, dev: nat, doc: DocId)
    requires dev < n
    ensures Written(crdt, evs, dev, doc) <= WrittenAnywhere(crdt, evs, n, doc)
  {
    if dev != n - 1 { WrittenIsAnywhere(crdt, evs, n - 1, dev, doc); }
  }

  ghost predicate LogSafe(crdt: Crdt, rows: seq<Row>, mine: State, all: State) {
    Sorted(rows) && Hashed(crdt, rows) && mine <= Join(crdt, rows) <= all
  }

  ghost predicate FrameSafe(crdt: Crdt, f: Frame, evs: seq<Event>, n: nat) {
    f.SyncGive? ==> Hashed(crdt, f.entries) && Join(crdt, f.entries) <= WrittenAnywhere(crdt, evs, n, f.doc)
  }

  ghost predicate WorldSafe(crdt: Crdt, w: World, evs: seq<Event>) {
    var n := |w.devices|;
    && (forall dev: nat, doc :: dev < n ==>
          LogSafe(crdt, Rows(w.devices[dev], doc), Written(crdt, evs, dev, doc), WrittenAnywhere(crdt, evs, n, doc)))
    && (forall f :: f in w.net ==> FrameSafe(crdt, f, evs, n))
  }

  /** The rows of one document of one device after a step. */
  function RowsAfter(crdt: Crdt, w: World, e: Event, dev: nat, doc: DocId): seq<Row>
    requires dev < |w.devices|
  {
    var rows := Rows(w.devices[dev], doc);
    if e.dev != dev then rows
    else match e
      case Write(_, d, payload, now) => if d == doc then Append(crdt, rows, payload, Update, now) else rows
      case Check(_, d, now) => if d == doc then MaybeCompacted(crdt, rows, now) else rows
      case Announce(_) => rows
      case Hear(_, f) => if f in w.net && f.SyncGive? && f.doc == doc then Given(rows, f.entries) else rows
  }

  lemma StepTouchesOneLog(crdt: Crdt, w: World, e: Event, dev: nat, doc: DocId)
    requires dev < |w.devices|
    ensures Rows(Step(crdt, w, e).devices[dev], doc) == RowsAfter(crdt, w, e, dev, doc)
  {}

  lemma RowsKept(crdt: Crdt, w: World, e: Event, dev: nat, doc: DocId, all: State)
    requires crdt.Lawful() && dev < |w.devices|
    requires var rows := Rows(w.devices[dev], doc); Sorted(rows) && Hashed(crdt, rows) && Join(crdt, rows) <= all
    requires e.Hear? && e.frame in w.net && e.frame.SyncGive? && e.frame.doc == doc ==>
      Hashed(crdt, e.frame.entries) && Join(crdt, e.frame.entries) <= all
    ensures var rows, rows' := Rows(w.devices[dev], doc), RowsAfter(crdt, w, e, dev, doc);
      && Sorted(rows') && Hashed(crdt, rows')
      && NumbersOnward(rows, rows')
      && Join(crdt, rows) + WrittenBy(crdt, e, dev, doc) <= Join(crdt, rows')
      && Join(crdt, rows') <= all + WrittenBy(crdt, e, dev, doc)
  {
    var rows := Rows(w.devices[dev], doc);
    if e.dev == dev {
      match e
      case Write(_, d, payload, now) => if d == doc { AppendKeepsLog(crdt, rows, payload, Update, now); }
      case Check(_, d, now) => if d == doc { CompactionKeepsState(crdt, rows, now); }
      case Announce(_) =>
      case Hear(_, f) =>
        if f in w.net && f.SyncGive? && f.doc == doc {
          GivenAdds(crdt, rows, f.entries);
          GivenKeepsLog(crdt, rows, f.entries);
        }
    }
  }

  /** One step on one log: the state never shrinks, grows by at most what the step brings, and row
      numbers move onward. */
  lemma StepLog(crdt: Crdt, w: World, evs: seq<Event>, e: Event, dev: nat, doc: DocId)
    requires crdt.Lawful() && WorldSafe(crdt, w, evs) && dev < |w.devices|
    ensures var rows, rows' := Rows(w.devices[dev], doc), Rows(Step(crdt, w, e).devices[dev], doc);
      && Sorted(rows') && Hashed(crdt, rows')
      && NumbersOnward(rows, rows')
      && Join(crdt, rows) + WrittenBy(crdt, e, dev, doc) <= Join(crdt, rows')
      && Join(crdt, rows') <= WrittenAnywhere(crdt, evs, |w.devices|, doc) + WrittenBy(crdt, e, dev, doc)
  {
    var all := WrittenAnywhere(crdt, evs, |w.devices|, doc);
    assert LogSafe(crdt, Rows(w.devices[dev], doc), Written(crdt, evs, dev, doc), all);
    assert e.Hear? && e.frame in w.net ==> FrameSafe(crdt, e.frame, evs, |w.devices|);
    StepTouchesOneLog(crdt, w, e, dev, doc);
    RowsKept(crdt, w, e, dev, doc, all);
  }

  /** The frames a device answers with carry only rows it holds. */
  lemma AnswerSafe(crdt: Crdt, w: World, evs: seq<Event>, dev: nat, frame: Frame, f: Frame)
    requires WorldSafe(crdt, w, evs) && dev < |w.devices| && f in Answer(w.devices[dev], frame)
    ensures FrameSafe(crdt, f, evs, |w.devices|)
  {
    if frame.SyncWant? {
      var rows := Rows(w.devices[dev], frame.doc);
      assert LogSafe(crdt, rows, Written(crdt, evs, dev, frame.doc), WrittenAnywhere(crdt, evs, |w.devices|, frame.doc));
      var give := Fulfilled(rows, frame.digests);
      FulfilledExactly(rows, frame.digests);
      forall i | 0 <= i < |give| ensures give[i].digest == crdt.hash(give[i].payload) {
        assert give[i] in give;
      }
      forall r | r in give ensures crdt.mean(r.payload) <= Join(crdt, rows) {
        JoinHas(crdt, rows, r);
      }
      JoinWithin(crdt, give, Join(crdt, rows));
    }
  }

  lemma StepSafe(crdt: Crdt, w: World, evs: seq<Event>, e: Event)
    requires crdt.Lawful() && WorldSafe(crdt, w, evs)
    ensures WorldSafe(crdt, Step(crdt, w, e), evs + [e])
  {
    var w', n := Step(crdt, w, e), |w.devices|;
    forall dev: nat, doc | dev < n
      ensures LogSafe(crdt, Rows(w'.devices[dev], doc), Written(crdt, evs + [e], dev, doc), WrittenAnywhere(crdt, evs + [e], n, doc))
    {
      StepLog(crdt, w, evs, e, dev, doc);
      assert LogSafe(crdt, Rows(w.devices[dev], doc), Written(crdt, evs, dev, doc), WrittenAnywhere(crdt, evs, n, doc));
      assert (evs + [e])[..|evs|] == evs;
      WrittenGrows(crdt, evs, e, n, doc);
      WrittenIsAnywhere(crdt, evs + [e], n, dev, doc);
    }
    forall f | f in w'.net ensures FrameSafe(crdt, f, evs + [e], n) {
      if f !in w.net && e.Hear? {
        AnswerSafe(crdt, w, evs, e.dev, e.frame, f);
      }
      if f.SyncGive? { WrittenGrows(crdt, evs, e, n, f.doc); }
    }
  }

  lemma {:induction false} RunSafe(crdt: Crdt, n: nat, evs: seq<Event>)
    requires crdt.Lawful()
    ensures WorldSafe(crdt, Run(crdt, n, evs), evs)
  {
    if evs == [] {
    } else {
      RunSafe(crdt, n, evs[..|evs| - 1]);
      StepSafe(crdt, Run(crdt, n, evs[..|evs| - 1]), evs[..|evs| - 1], evs[|evs| - 1]);
      assert evs == evs[..|evs| - 1] + [evs[|evs| - 1]];
    }
  }

  lemma RunLogSafe(crdt: Crdt, n: nat, evs: seq<Event>, dev: nat, doc: DocId)
    requires crdt.Lawful() && dev < n
    ensures LogSafe(crdt, Rows(Run(crdt, n, evs).devices[dev], doc), Written(crdt, evs, dev, doc), WrittenAnywhere(crdt, evs, n, doc))
  {
    RunSafe(crdt, n, evs);
  }

  /** In every run a device holds all that was appended to it, and nothing that was appended nowhere. */
  lemma NothingLostNothingInvented(crdt: Crdt, n: nat, evs: seq<Event>, dev: nat, doc: DocId)
    requires crdt.Lawful() && dev < n
    ensures Written(crdt, evs, dev, doc) <= Join(crdt, Rows(Run(crdt, n, evs).devices[dev], doc))
    ensures Join(crdt, Rows(Run(crdt, n, evs).devices[dev], doc)) <= WrittenAnywhere(crdt, evs, n, doc)
  {
    RunLogSafe(crdt, n, evs, dev, doc);
  }

  /** Along every run the joined state of a device never shrinks, row numbers only grow, and a number
      once passed never names another row. */
  lemma {:induction false} LogOnlyGrows(crdt: Crdt, n: nat, evs: seq<Event>, k: nat, dev: nat, doc: DocId)
    requires crdt.Lawful() && dev < n && k <= |evs|
    ensures var early, late := Rows(Run(crdt, n, evs[..k]).devices[dev], doc), Rows(Run(crdt, n, evs).devices[dev], doc);
      && Join(crdt, early) <= Join(crdt, late)
      && Sorted(late)
      && NumbersOnward(early, late)
  {
    RunLogSafe(crdt, n, evs, dev, doc);
    if k == |evs| {
      assert evs[..k] == evs;
    } else {
      var init := evs[..|evs| - 1];
      LogOnlyGrows(crdt, n, init, k, dev, doc);
      assert init[..k] == evs[..k];
      RunSafe(crdt, n, init);
      StepLog(crdt, Run(crdt, n, init), init, evs[|evs| - 1], dev, doc);
    }
  }

  // ---- steps of particular runs

  lemma RunMore(crdt: Crdt, n: nat, evs: seq<Event>, e: Event)
    ensures Run(crdt, n, evs + [e]) == Step(crdt, Run(crdt, n, evs), e)
  {
    assert (evs + [e])[..|evs|] == evs;
  }

  /** The row a compaction leaves. */
  function SnapshotOf(crdt: Crdt, rows: seq<Row>, now: int): Row {
    var payload := crdt.encode(Join(crdt, rows));
    Row(LastSeq(rows) + 1, payload, crdt.hash(payload), now, Snapshot)
  }

  lemma RunRows(crdt: Crdt, n: nat, evs: seq<Event>, e: Event, dev: nat, doc: DocId)
    requires dev < n
    ensures Rows(Run(crdt, n, evs + [e]).devices[dev], doc) == RowsAfter(crdt, Run(crdt, n, evs), e, dev, doc)
  {
    RunMore(crdt, n, evs, e);
    StepTouchesOneLog(crdt, Run(crdt, n, evs), e, dev, doc);
  }

  lemma Announced(crdt: Crdt, n: nat, evs: seq<Event>, from: nat)
    requires from < n && SummaryOf(Run(crdt, n, evs).devices[from]) != map[]
    ensures var w, t := Run(crdt, n, evs), Run(crdt, n, evs + [Announce(from)]);
      t.devices == w.devices && SyncSummary(SummaryOf(w.devices[from])) in t.net
  {
    RunMore(crdt, n, evs, Announce(from));
  }

  lemma Heard(crdt: Crdt, n: nat, evs: seq<Event>, dev: nat, f: Frame)
    requires dev < n && f in Run(crdt, n, evs).net
    ensures var w, t := Run(crdt, n, evs), Run(crdt, n, evs + [Hear(dev, f)]);
      && t.devices == w.devices[dev := Learn(w.devices[dev], f)]
      && Answer(w.devices[dev], f) <= t.net
      && (!f.SyncGive? ==> t.devices == w.devices)
  {
    RunMore(crdt, n, evs, Hear(dev, f));
  }

  /** The frames by which device `a` gives device `b` the rows it lacks. */
  ghost predicate Passes(a: Table, b: Table, doc: DocId, rows: seq<Row>, summary: Frame, want: Frame, give: Frame) {
    && SummaryOf(a) != map[] && summary == SyncSummary(SummaryOf(a))
    && want in Answer(b, summary) && want.SyncWant? && give in Answer(a, want) && give == SyncGive(doc, rows)
  }

  lemma PassedSome(from: seq<Row>, to: seq<Row>)
    ensures from == [] ==> Missing(Newest(from), Digests(to)) == []
    ensures Passed(from, to) == [] <==> Missing(Newest(from), Digests(to)) == []
  {
    var wanted := Missing(Newest(from), Digests(to));
    MissingExactly(Newest(from), Digests(to));
    FulfilledExactly(from, wanted);
    OfferedWithin(from);
    assert |Passed(from, to)| > 0 ==> Passed(from, to)[0] in Passed(from, to);
    if wanted != [] {
      assert wanted[0] in wanted && wanted[0] in Offered(from);
      var r :| r in from && r.digest == wanted[0];
      assert r in Passed(from, to);
    }
  }

  lemma FramesOf(a: Table, b: Table, doc: DocId) returns (summary: Frame, want: Frame, give: Frame)
    requires Missing(Newest(Rows(a, doc)), Digests(Rows(b, doc))) != []
    ensures Passes(a, b, doc, Passed(Rows(a, doc), Rows(b, doc)), summary, want, give)
  {
    var rows, docs := Rows(a, doc), SummaryOf(a);
    var wanted := Missing(Newest(rows), Digests(Rows(b, doc)));
    PassedSome(rows, Rows(b, doc));
    summary, want, give := SyncSummary(docs), SyncWant(doc, wanted), SyncGive(doc, Passed(rows, Rows(b, doc)));
    assert doc in docs && docs[doc].digests == Newest(rows);
    assert doc in WantsOf(b, docs) && WantsOf(b, docs)[doc] == wanted;
  }

  lemma PullFrames(
    crdt: Crdt, n: nat, evs: seq<Event>, from: nat, to: nat, doc: DocId, rows: seq<Row>, summary: Frame, want: Frame, give: Frame)
    returns (more: seq<Event>)
    requires from < n && to < n
    requires Passes(Run(crdt, n, evs).devices[from], Run(crdt, n, evs).devices[to], doc, rows, summary, want, give)
    ensures |more| == 4 && more[0] == Announce(from) && more[1].Hear? && more[2].Hear? && more[3].Hear?
    ensures Gave(Run(crdt, n, evs), Run(crdt, n, evs + more), to, doc, rows)
  {
    Announced(crdt, n, evs, from);
    Heard(crdt, n, evs + [Announce(from)], to, summary);
    Heard(crdt, n, evs + [Announce(from)] + [Hear(to, summary)], from, want);
    Heard(crdt, n, evs + [Announce(from)] + [Hear(to, summary)] + [Hear(from, want)], to, give);
    more := FourMore(evs, Announce(from), Hear(to, summary), Hear(from, want), Hear(to, give));
  }

  /** Between the two worlds device `to` learned the rows. */
  ghost predicate Gave(w: World, t: World, to: nat, doc: DocId, rows: seq<Row>) {
    to < |w.devices| && t.devices == w.devices[to := Learn(w.devices[to], SyncGive(doc, rows))]
  }

  lemma Learned(w: World, t: World, from: nat, to: nat, doc: DocId, rows: seq<Row>)
    requires from < |w.devices| && from != to && Gave(w, t, to, doc, rows)
    ensures Rows(t.devices[from], doc) == Rows(w.devices[from], doc)
    ensures Rows(t.devices[to], doc) == Given(Rows(w.devices[to], doc), rows)
  {}

  /** What a pull is in a run: the summary, the want and the give it leads to, or nothing when nothing is
      missing, leave the one log as `Pull` says and the other as it was. */
  lemma PullRuns(crdt: Crdt, n: nat, evs: seq<Event>, from: nat, to: nat, doc: DocId) returns (more: seq<Event>)
    requires from < n && to < n && from != to
    ensures more == [] || (|more| == 4 && more[0] == Announce(from) && more[1].Hear? && more[2].Hear? && more[3].Hear?)
    ensures var a, b := Rows(Run(crdt, n, evs).devices[from], doc), Rows(Run(crdt, n, evs).devices[to], doc);
      var t := Run(crdt, n, evs + more);
      Rows(t.devices[to], doc) == Pull(a, b) && Rows(t.devices[from], doc) == a && (more == [] ==> Passed(a, b) == [])
  {
    var w := Run(crdt, n, evs);
    var a, b := Rows(w.devices[from], doc), Rows(w.devices[to], doc);
    PassedSome(a, b);
    if Passed(a, b) == [] {
      more := [];
      PullNothing(a, b);
      assert evs + more == evs;
    } else {
      more := PullSome(crdt, n, evs, from, to, doc);
    }
  }

  lemma PullNothing(a: seq<Row>, b: seq<Row>)
    requires Passed(a, b) == []
    ensures Pull(a, b) == b
  {}

  lemma PullSome(crdt: Crdt, n: nat, evs: seq<Event>, from: nat, to: nat, doc: DocId) returns (more: seq<Event>)
    requires from < n && to < n && from != to
    requires Missing(Newest(Rows(Run(crdt, n, evs).devices[from], doc)), Digests(Rows(Run(crdt, n, evs).devices[to], doc))) != []
    ensures |more| == 4 && more[0] == Announce(from) && more[1].Hear? && more[2].Hear? && more[3].Hear?
    ensures var a, b := Rows(Run(crdt, n, evs).devices[from], doc), Rows(Run(crdt, n, evs).devices[to], doc);
      Rows(Run(crdt, n, evs + more).devices[to], doc) == Pull(a, b) && Rows(Run(crdt, n, evs + more).devices[from], doc) == a
  {
    var w := Run(crdt, n, evs);
    var rows := Passed(Rows(w.devices[from], doc), Rows(w.devices[to], doc));
    var summary, want, give := FramesOf(w.devices[from], w.devices[to], doc);
    more := PullFrames(crdt, n, evs, from, to, doc, rows, summary, want, give);
    Learned(w, Run(crdt, n, evs + more), from, to, doc, rows);
  }

  /** A device whose log for the document is one row gives it to another that lacks it: announce, want, give. */
  lemma PullOne(crdt: Crdt, n: nat, evs: seq<Event>, from: nat, to: nat, doc: DocId, r: Row) returns (more: seq<Event>)
    requires from < n && to < n && from != to
    requires Rows(Run(crdt, n, evs).devices[from], doc) == [r]
    requires r.digest !in Digests(Rows(Run(crdt, n, evs).devices[to], doc))
    ensures |more| == 4 && more[0] == Announce(from) && more[1].Hear? && more[2].Hear? && more[3].Hear?
    ensures Rows(Run(crdt, n, evs + more).devices[from], doc) == [r]
    ensures var rows := Rows(Run(crdt, n, evs).devices[to], doc);
      Rows(Run(crdt, n, evs + more).devices[to], doc) == rows + [r.(num := LastSeq(rows) + 1)]
  {
    PulledOne(r, Rows(Run(crdt, n, evs).devices[to], doc));
    more := PullRuns(crdt, n, evs, from, to, doc);
  }

  lemma PulledOne(r: Row, rows: seq<Row>)
    requires r.digest !in Digests(rows)
    ensures Passed([r], rows) == [r] && Pull([r], rows) == rows + [r.(num := LastSeq(rows) + 1)]
  {
    assert Newest([r]) == [r.digest];
    PicksOne(r.digest, r, Digests(rows), [r.digest], LastSeq(rows) + 1);
  }

  /** One pull each way, in a run. */
  lemma ExchangeRuns(crdt: Crdt, n: nat, evs: seq<Event>, i: nat, j: nat, doc: DocId) returns (more: seq<Event>)
    requires i < n && j < n && i != j
    ensures |more| <= 8 && forall e :: e in more ==> e.Announce? || e.Hear?
    ensures var a, b := Rows(Run(crdt, n, evs).devices[i], doc), Rows(Run(crdt, n, evs).devices[j], doc);
      var t := Run(crdt, n, evs + more);
      Rows(t.devices[j], doc) == Pull(a, b) && Rows(t.devices[i], doc) == Pull(Pull(a, b), a)
  {
    var first := PullRuns(crdt, n, evs, i, j, doc);
    var second := PullRuns(crdt, n, evs + first, j, i, doc);
    more := BothMore(evs, first, second);
  }

  lemma BothMore(evs: seq<Event>, first: seq<Event>, second: seq<Event>) returns (more: seq<Event>)
    requires first == [] || (|first| == 4 && first[0].Announce? && first[1].Hear? && first[2].Hear? && first[3].Hear?)
    requires second == [] || (|second| == 4 && second[0].Announce? && second[1].Hear? && second[2].Hear? && second[3].Hear?)
    ensures evs + more == evs + first + second && |more| <= 8 && forall e :: e in more ==> e.Announce? || e.Hear?
  {
    more := first + second;
  }

  /** After any run whatever, two devices with at most 100 rows of a document between them come to the same
      digests and the same state, those of both, by a summary, a want and a give each way. */
  lemma DevicesConverge(crdt: Crdt, n: nat, evs: seq<Event>, i: nat, j: nat, doc: DocId) returns (more: seq<Event>)
    requires crdt.Lawful() && i < n && j < n && i != j
    requires |Rows(Run(crdt, n, evs).devices[i], doc)| + |Rows(Run(crdt, n, evs).devices[j], doc)| <= MAX_DIGESTS_PER_SUMMARY
    ensures |more| <= 8 && forall e :: e in more ==> e.Announce? || e.Hear?
    ensures Agreed(crdt, Run(crdt, n, evs), Run(crdt, n, evs + more), i, j, doc)
  {
    RunLogSafe(crdt, n, evs, i, doc);
    RunLogSafe(crdt, n, evs, j, doc);
    more := ExchangeRuns(crdt, n, evs, i, j, doc);
    ExchangeAgrees(crdt, Run(crdt, n, evs), Run(crdt, n, evs + more), i, j, doc);
  }

  lemma ExchangeAgrees(crdt: Crdt, w: World, t: World, i: nat, j: nat, doc: DocId)
    requires crdt.Lawful() && i < |w.devices| == |t.devices| && j < |w.devices|
    requires var a, b := Rows(w.devices[i], doc), Rows(w.devices[j], doc);
      && Sorted(a) && Sorted(b) && Hashed(crdt, a) && Hashed(crdt, b) && |a| + |b| <= MAX_DIGESTS_PER_SUMMARY
      && Rows(t.devices[j], doc) == Pull(a, b) && Rows(t.devices[i], doc) == Pull(Pull(a, b), a)
    ensures Agreed(crdt, w, t, i, j, doc)
  {
    SmallLogsConverge(crdt, Rows(w.devices[i], doc), Rows(w.devices[j], doc));
  }

  /** In the second world two devices hold what either held in the first. */
  ghost predicate Agreed(crdt: Crdt, w: World, t: World, i: nat, j: nat, doc: DocId)
    requires i < |w.devices| == |t.devices| && j < |w.devices|
  {
    var a, b := Rows(w.devices[i], doc), Rows(w.devices[j], doc);
    var a', b' := Rows(t.devices[i], doc), Rows(t.devices[j], doc);
    && Digests(a') == Digests(b') == Digests(a) + Digests(b)
    && Join(crdt, a') == Join(crdt, b') == Join(crdt, a) + Join(crdt, b)
  }

  lemma FourMore(evs: seq<Event>, a: Event, b: Event, c: Event, d: Event) returns (more: seq<Event>)
    ensures |more| == 4 && more[0] == a && more[1] == b && more[2] == c && more[3] == d
    ensures evs + more == evs + [a] + [b] + [c] + [d]
  {
    more := [a] + [b] + [c] + [d];
  }
}
