/** The rows of one document in the local Willow store, and what each operation does to them.
    A Y.js state is a finite set of integrated structs and tombstones, so merging is set union:
    the abstract join-semilattice of the merge, up to isomorphism. */
module WillowLog {
  import opened ByteStrings

  type Digest = string
  type State = set<int>

  /** What the store takes from its libraries: the state an update denotes (a corrupt one denotes
      nothing), the encoding of a state, and the payload hash. */
  datatype Crdt = Crdt(mean: Bytes -> State, encode: State -> Bytes, hash: Bytes -> Digest) {
    ghost predicate Lawful() {
      && (forall s: State :: mean(encode(s)) == s)
      && (forall p: Bytes, q: Bytes :: hash(p) == hash(q) ==> p == q)
    }
  }

  datatype Kind = Update | Snapshot

  /** One `yjs_entries` row; a gossiped entry has the same fields. */
  datatype Row = Row(num: nat, payload: Bytes, digest: Digest, createdAt: int, kind: Kind)

  const COMPACT_MAX_UPDATES := 50
  const COMPACT_MAX_BYTES := 1024 * 1024
  const COMPACT_MAX_AGE_MS := 10 * 60 * 1000
  const MAX_DIGESTS_PER_SUMMARY := 100

  /** Rows are kept in `seq` order. */
  ghost predicate Sorted(rows: seq<Row>) {
    && (forall i :: 0 <= i < |rows| ==> rows[i].num > 0)
    && (forall i, j :: 0 <= i < j < |rows| ==> rows[i].num < rows[j].num)
  }

  ghost predicate Hashed(crdt: Crdt, rows: seq<Row>) {
    forall i :: 0 <= i < |rows| ==> rows[i].digest == crdt.hash(rows[i].payload)
  }

  /** `later` uses numbers above those of `rows` for every row it adds. */
  ghost predicate NumbersOnward(rows: seq<Row>, later: seq<Row>) {
    LastSeq(rows) <= LastSeq(later) && forall r :: r in later && r.num <= LastSeq(rows) ==> r in rows
  }

  function LastSeq(rows: seq<Row>): nat {
    if rows == [] then 0 else rows[|rows| - 1].num
  }

  /** The state all payloads merge to. */
  function Join(crdt: Crdt, rows: seq<Row>): State {
    set r, o | r in rows && o in crdt.mean(r.payload) :: o
  }

  function Digests(rows: seq<Row>): set<Digest> {
    set r | r in rows :: r.digest
  }

  function Append(crdt: Crdt, rows: seq<Row>, payload: Bytes, kind: Kind, now: int): seq<Row> {
    rows + [Row(LastSeq(rows) + 1, payload, crdt.hash(payload), now, kind)]
  }

  function Compacted(crdt: Crdt, rows: seq<Row>, payload: Bytes, now: int): seq<Row> {
    [Row(LastSeq(rows) + 1, payload, crdt.hash(payload), now, Snapshot)]
  }

  // ---- which rows a read replays

  /** Index of the newest snapshot, 0 when there is none. */
  function VisibleFrom(rows: seq<Row>): (i: nat)
    ensures i <= |rows|
    ensures forall j :: i < j < |rows| ==> rows[j].kind.Update?
    ensures i > 0 ==> i < |rows| && rows[i].kind.Snapshot?
  {
    if rows == [] || rows[|rows| - 1].kind.Snapshot? then if rows == [] then 0 else |rows| - 1
    else VisibleFrom(rows[..|rows| - 1])
  }

  function Visible(rows: seq<Row>): seq<Row> {
    rows[VisibleFrom(rows)..]
  }

  function Hidden(rows: seq<Row>): seq<Row> {
    rows[..VisibleFrom(rows)]
  }

  // ---- compaction

  function UpdateCount(rows: seq<Row>): nat {
    if rows == [] then 0
    else UpdateCount(rows[..|rows| - 1]) + if rows[|rows| - 1].kind.Update? then 1 else 0
  }

  function UpdateBytes(rows: seq<Row>): nat {
    if rows == [] then 0
    else UpdateBytes(rows[..|rows| - 1]) + if rows[|rows| - 1].kind.Update? then |rows[|rows| - 1].payload| else 0
  }

  /** Whether some update row is at least COMPACT_MAX_AGE_MS old. */
  predicate HasOldUpdate(rows: seq<Row>, now: int) {
    exists r :: r in rows && r.kind.Update? && now - r.createdAt >= COMPACT_MAX_AGE_MS
  }

  predicate NeedsCompact(rows: seq<Row>, now: int) {
    UpdateCount(rows) >= COMPACT_MAX_UPDATES || UpdateBytes(rows) >= COMPACT_MAX_BYTES || HasOldUpdate(rows, now)
  }

  function MaybeCompacted(crdt: Crdt, rows: seq<Row>, now: int): seq<Row> {
    if NeedsCompact(rows, now) then Compacted(crdt, rows, crdt.encode(Join(crdt, rows)), now) else rows
  }

  // ---- gossip

  /** The newest digests, newest first, cut at the summary limit. */
  function Newest(rows: seq<Row>): seq<Digest> {
    seq(if |rows| < MAX_DIGESTS_PER_SUMMARY then |rows| else MAX_DIGESTS_PER_SUMMARY,
        i requires 0 <= i < |rows| => rows[|rows| - 1 - i].digest)
  }

  function Missing(offered: seq<Digest>, have: set<Digest>): seq<Digest> {
    if offered == [] then []
    else Missing(offered[..|offered| - 1], have) + if offered[|offered| - 1] in have then [] else [offered[|offered| - 1]]
  }

  function Fulfilled(rows: seq<Row>, digests: seq<Digest>): seq<Row> {
    if rows == [] then []
    else Fulfilled(rows[..|rows| - 1], digests) + if rows[|rows| - 1].digest in digests then [rows[|rows| - 1]] else []
  }

  /** The entries whose digest is not held, renumbered from `next`. */
  function Fresh(entries: seq<Row>, have: set<Digest>, next: nat): seq<Row> {
    if entries == [] then []
    else
      var done := Fresh(entries[..|entries| - 1], have, next);
      var e := entries[|entries| - 1];
      if e.digest in have then done else done + [e.(num := next + |done|)]
  }

  function Given(rows: seq<Row>, entries: seq<Row>): seq<Row> {
    rows + Fresh(entries, Digests(rows), LastSeq(rows) + 1)
  }

  // ---- what the totals and lists are

  /** Count and bytes are totals over the update rows. */
  lemma {:induction false} UpdatesConcat(a: seq<Row>, b: seq<Row>)
    ensures UpdateCount(a + b) == UpdateCount(a) + UpdateCount(b) && UpdateBytes(a + b) == UpdateBytes(a) + UpdateBytes(b)
  {
    if b == [] {
      assert a + b == a;
    } else {
      UpdatesConcat(a, b[..|b| - 1]);
      assert (a + b)[..|a + b| - 1] == a + b[..|b| - 1];
    }
  }

  lemma UpdatesOne(r: Row)
    ensures UpdateCount([r]) == (if r.kind.Update? then 1 else 0)
    ensures UpdateBytes([r]) == if r.kind.Update? then |r.payload| else 0
  {
    assert [r][..0] == [];
  }

  /** A check replaces the rows exactly when they hold 50 updates, 1 MiB of update payload or an update ten
      minutes old; what is left then is one snapshot of all of them. */
  lemma CheckExactly(crdt: Crdt, rows: seq<Row>, now: int)
    ensures var after := MaybeCompacted(crdt, rows, now);
      if UpdateCount(rows) >= 50 || UpdateBytes(rows) >= 1_048_576
        || exists i :: 0 <= i < |rows| && rows[i].kind.Update? && now - rows[i].createdAt >= 600_000
      then
        |after| == 1 && after[0].kind.Snapshot? && after[0].payload == crdt.encode(Join(crdt, rows))
        && after[0].digest == crdt.hash(after[0].payload) && after[0].createdAt == now && after[0].num == LastSeq(rows) + 1
      else after == rows
  {
    if HasOldUpdate(rows, now) {
      var r :| r in rows && r.kind.Update? && now - r.createdAt >= COMPACT_MAX_AGE_MS;
      var i :| 0 <= i < |rows| && rows[i] == r;
    }
  }

  /** The last number is the highest one. */
  lemma LastSeqHighest(rows: seq<Row>)
    requires Sorted(rows)
    ensures rows == [] ==> LastSeq(rows) == 0
    ensures rows != [] ==> exists i :: 0 <= i < |rows| && rows[i].num == LastSeq(rows)
    ensures forall i :: 0 <= i < |rows| ==> rows[i].num <= LastSeq(rows)
  {
    if rows != [] { assert rows[|rows| - 1].num == LastSeq(rows); }
  }

  /** One more row comes first in the summary, and pushes the hundredth out. */
  lemma NewestMore(rows: seq<Row>, r: Row)
    ensures var all := [r.digest] + Newest(rows);
      Newest(rows + [r]) == if |all| <= 100 then all else all[..100]
    ensures Newest([]) == []
  {}

  lemma {:induction false} MissingConcat(a: seq<Digest>, b: seq<Digest>, have: set<Digest>)
    ensures Missing(a + b, have) == Missing(a, have) + Missing(b, have)
  {
    if b == [] {
      assert a + b == a;
    } else {
      MissingConcat(a, b[..|b| - 1], have);
      assert (a + b)[..|a + b| - 1] == a + b[..|b| - 1];
    }
  }

  lemma {:induction false} FulfilledConcat(a: seq<Row>, b: seq<Row>, digests: seq<Digest>)
    ensures Fulfilled(a + b, digests) == Fulfilled(a, digests) + Fulfilled(b, digests)
  {
    if b == [] {
      assert a + b == a;
    } else {
      FulfilledConcat(a, b[..|b| - 1], digests);
      assert (a + b)[..|a + b| - 1] == a + b[..|b| - 1];
    }
  }

  lemma {:induction false} FreshConcat(a: seq<Row>, b: seq<Row>, have: set<Digest>, next: nat)
    ensures Fresh(a + b, have, next) == Fresh(a, have, next) + Fresh(b, have, next + |Fresh(a, have, next)|)
  {
    if b == [] {
      assert a + b == a;
    } else {
      FreshConcat(a, b[..|b| - 1], have, next);
      assert (a + b)[..|a + b| - 1] == a + b[..|b| - 1];
    }
  }

  /** The three lists keep the order of what they pick from, and every pick: one at a time they take what is
      missing, asked for or new. */
  lemma PicksOne(d: Digest, r: Row, have: set<Digest>, digests: seq<Digest>, next: nat)
    ensures Missing([d], have) == if d in have then [] else [d]
    ensures Fulfilled([r], digests) == if r.digest in digests then [r] else []
    ensures Fresh([r], have, next) == if r.digest in have then [] else [Row(next, r.payload, r.digest, r.createdAt, r.kind)]
  {
    assert [d][..0] == [] && [r][..0] == [];
  }

  // ---- lemmas about one document

  lemma JoinHas(crdt: Crdt, rows: seq<Row>, r: Row)
    requires r in rows
    ensures crdt.mean(r.payload) <= Join(crdt, rows)
  {
    forall o | o in crdt.mean(r.payload) ensures o in Join(crdt, rows) {}
  }

  lemma JoinWithin(crdt: Crdt, rows: seq<Row>, bound: State)
    requires forall r :: r in rows ==> crdt.mean(r.payload) <= bound
    ensures Join(crdt, rows) <= bound
  {}

  lemma JoinConcat(crdt: Crdt, a: seq<Row>, b: seq<Row>)
    ensures Join(crdt, a + b) == Join(crdt, a) + Join(crdt, b)
  {
    assert forall r :: r in a + b <==> r in a || r in b;
  }

  lemma SingleJoin(crdt: Crdt, r: Row)
    ensures Join(crdt, [r]) == crdt.mean(r.payload)
  {
    JoinHas(crdt, [r], r);
    JoinWithin(crdt, [r], crdt.mean(r.payload));
  }

  lemma DigestsConcat(a: seq<Row>, b: seq<Row>)
    ensures Digests(a + b) == Digests(a) + Digests(b)
  {
    assert forall r :: r in a + b <==> r in a || r in b;
  }

  lemma {:induction false} MissingExactly(offered: seq<Digest>, have: set<Digest>)
    ensures forall d :: d in Missing(offered, have) <==> d in offered && d !in have
  {
    if offered != [] {
      MissingExactly(offered[..|offered| - 1], have);
      assert offered == offered[..|offered| - 1] + [offered[|offered| - 1]];
    }
  }

  lemma {:induction false} FulfilledExactly(rows: seq<Row>, digests: seq<Digest>)
    ensures forall r :: r in Fulfilled(rows, digests) <==> r in rows && r.digest in digests
  {
    if rows != [] {
      FulfilledExactly(rows[..|rows| - 1], digests);
      assert rows == rows[..|rows| - 1] + [rows[|rows| - 1]];
    }
  }

  ghost predicate Numbered(f: seq<Row>, have: set<Digest>, next: nat) {
    forall i :: 0 <= i < |f| ==> f[i].num == next + i && f[i].digest !in have
  }

  /** Stored entries are numbered consecutively from `next`, and none was held before. */
  lemma {:induction false} FreshNumbers(entries: seq<Row>, have: set<Digest>, next: nat)
    ensures Numbered(Fresh(entries, have, next), have, next)
  {
    if entries != [] {
      FreshNumbers(entries[..|entries| - 1], have, next);
    }
  }

  /** A stored row is some entry under a new number. */
  lemma {:induction false} FreshSource(entries: seq<Row>, have: set<Digest>, next: nat, r: Row) returns (e: Row)
    requires r in Fresh(entries, have, next)
    ensures e in entries && r == e.(num := r.num)
  {
    var init := entries[..|entries| - 1];
    if r in Fresh(init, have, next) {
      e := FreshSource(init, have, next, r);
    } else {
      e := entries[|entries| - 1];
    }
  }

  /** An entry not held is stored. */
  lemma {:induction false} FreshCovers(entries: seq<Row>, have: set<Digest>, next: nat, e: Row) returns (r: Row)
    requires e in entries && e.digest !in have
    ensures r in Fresh(entries, have, next) && r == e.(num := r.num)
  {
    var init := entries[..|entries| - 1];
    if e == entries[|entries| - 1] {
      r := e.(num := next + |Fresh(init, have, next)|);
    } else {
      assert entries == init + [entries[|entries| - 1]];
      r := FreshCovers(init, have, next, e);
    }
  }

  /** A give adds exactly the digests and the payloads it carries. */
  lemma GivenAdds(crdt: Crdt, rows: seq<Row>, entries: seq<Row>)
    requires Hashed(crdt, rows) && Hashed(crdt, entries) && crdt.Lawful()
    ensures Digests(Given(rows, entries)) == Digests(rows) + Digests(entries)
    ensures Join(crdt, Given(rows, entries)) == Join(crdt, rows) + Join(crdt, entries)
  {
    var f := Fresh(entries, Digests(rows), LastSeq(rows) + 1);
    DigestsConcat(rows, f);
    JoinConcat(crdt, rows, f);
    forall e | e in entries
      ensures e.digest in Digests(rows) + Digests(f)
      ensures crdt.mean(e.payload) <= Join(crdt, rows) + Join(crdt, f)
    {
      GivenHolds(crdt, rows, entries, e);
    }
    JoinWithin(crdt, entries, Join(crdt, rows) + Join(crdt, f));
    forall r | r in f
      ensures r.digest in Digests(entries) && crdt.mean(r.payload) <= Join(crdt, entries)
    {
      var e := FreshSource(entries, Digests(rows), LastSeq(rows) + 1, r);
      JoinHas(crdt, entries, e);
    }
    JoinWithin(crdt, f, Join(crdt, entries));
  }

  lemma GivenHolds(crdt: Crdt, rows: seq<Row>, entries: seq<Row>, e: Row)
    requires Hashed(crdt, rows) && Hashed(crdt, entries) && crdt.Lawful() && e in entries
    ensures var f := Fresh(entries, Digests(rows), LastSeq(rows) + 1);
      && e.digest in Digests(rows) + Digests(f)
      && crdt.mean(e.payload) <= Join(crdt, rows) + Join(crdt, f)
  {
    if e.digest in Digests(rows) {
      var r :| r in rows && r.digest == e.digest;
      assert r.payload == e.payload;
      JoinHas(crdt, rows, r);
    } else {
      var r := FreshCovers(entries, Digests(rows), LastSeq(rows) + 1, e);
      JoinHas(crdt, Fresh(entries, Digests(rows), LastSeq(rows) + 1), r);
    }
  }

  lemma GivenKeepsLog(crdt: Crdt, rows: seq<Row>, entries: seq<Row>)
    requires Sorted(rows) && Hashed(crdt, rows) && Hashed(crdt, entries)
    ensures Sorted(Given(rows, entries)) && Hashed(crdt, Given(rows, entries))
    ensures NumbersOnward(rows, Given(rows, entries))
  {
    var f := Fresh(entries, Digests(rows), LastSeq(rows) + 1);
    FreshNumbers(entries, Digests(rows), LastSeq(rows) + 1);
    forall i | 0 <= i < |f| ensures f[i].digest == crdt.hash(f[i].payload) {
      var e := FreshSource(entries, Digests(rows), LastSeq(rows) + 1, f[i]);
    }
  }

  /** Applying the same give again inserts nothing. */
  lemma GiveIsIdempotent(rows: seq<Row>, entries: seq<Row>)
    ensures Given(Given(rows, entries), entries) == Given(rows, entries)
  {
    var f := Fresh(entries, Digests(rows), LastSeq(rows) + 1);
    DigestsConcat(rows, f);
    forall e | e in entries ensures e.digest in Digests(rows + f) {
      if e.digest !in Digests(rows) {
        var r := FreshCovers(entries, Digests(rows), LastSeq(rows) + 1, e);
      }
    }
    NothingFresh(entries, Digests(rows + f), LastSeq(rows + f) + 1);
  }

  lemma {:induction false} NothingFresh(entries: seq<Row>, have: set<Digest>, next: nat)
    requires forall e :: e in entries ==> e.digest in have
    ensures Fresh(entries, have, next) == []
  {
    if entries != [] {
      NothingFresh(entries[..|entries| - 1], have, next);
    }
  }

  /** A read never shows more than the log holds; what it leaves out are the rows below the newest snapshot. */
  lemma ReadWithinLog(crdt: Crdt, rows: seq<Row>)
    ensures Join(crdt, Visible(rows)) <= Join(crdt, rows)
    ensures Join(crdt, Visible(rows)) == Join(crdt, rows) <==> Join(crdt, Hidden(rows)) <= Join(crdt, Visible(rows))
  {
    assert rows == Hidden(rows) + Visible(rows);
    JoinConcat(crdt, Hidden(rows), Visible(rows));
  }

  /** A compaction keeps the joined state, makes it all readable again, and takes a fresh number. */
  lemma CompactionKeepsState(crdt: Crdt, rows: seq<Row>, now: int)
    requires Sorted(rows) && Hashed(crdt, rows) && crdt.Lawful()
    ensures var after := MaybeCompacted(crdt, rows, now);
      && Join(crdt, after) == Join(crdt, rows)
      && Sorted(after) && Hashed(crdt, after)
      && NumbersOnward(rows, after)
      && (NeedsCompact(rows, now) ==> Join(crdt, Visible(after)) == Join(crdt, rows) && after[0].num == LastSeq(rows) + 1)
  {
    if NeedsCompact(rows, now) {
      var row := Row(LastSeq(rows) + 1, crdt.encode(Join(crdt, rows)), crdt.hash(crdt.encode(Join(crdt, rows))), now, Snapshot);
      assert MaybeCompacted(crdt, rows, now) == [row];
      SingleJoin(crdt, row);
      assert Visible([row]) == [row];
    }
  }

  lemma {:induction false} NoUpdates(rows: seq<Row>)
    ensures UpdateCount(rows) == 0 ==> UpdateBytes(rows) == 0 && forall r :: r in rows ==> r.kind.Snapshot?
  {
    if rows != [] {
      NoUpdates(rows[..|rows| - 1]);
      assert rows == rows[..|rows| - 1] + [rows[|rows| - 1]];
    }
  }

  // ---- when a read shows everything

  ghost predicate Complete(crdt: Crdt, rows: seq<Row>) {
    Join(crdt, Visible(rows)) == Join(crdt, rows)
  }

  predicate HasSnapshot(rows: seq<Row>) {
    exists i :: 0 <= i < |rows| && rows[i].kind.Snapshot?
  }

  lemma NewestSnapshot(rows: seq<Row>, i: nat)
    requires i <= |rows| && forall j :: i < j < |rows| ==> rows[j].kind.Update?
    requires i > 0 ==> i < |rows| && rows[i].kind.Snapshot?
    ensures VisibleFrom(rows) == i
  {}

  lemma VisibleFromAppend(a: seq<Row>, b: seq<Row>)
    ensures VisibleFrom(a + b) == if HasSnapshot(b) then |a| + VisibleFrom(b) else VisibleFrom(a)
  {
    if HasSnapshot(b) {
      var i :| 0 <= i < |b| && b[i].kind.Snapshot?;
      assert i <= VisibleFrom(b) && b[VisibleFrom(b)].kind.Snapshot?;
      NewestSnapshot(a + b, |a| + VisibleFrom(b));
    } else {
      NewestSnapshot(a + b, VisibleFrom(a));
    }
  }

  /** After rows are appended a read starts at their newest snapshot, if they bring one. */
  lemma VisibleAppend(a: seq<Row>, b: seq<Row>)
    ensures Visible(a + b) == if HasSnapshot(b) then Visible(b) else Visible(a) + b
  {
    VisibleFromAppend(a, b);
  }

  /** What rows that bring a snapshot must do for reads to stay complete. */
  ghost predicate Covers(crdt: Crdt, rows: seq<Row>, f: seq<Row>) {
    HasSnapshot(f) ==> Join(crdt, rows) + Join(crdt, Hidden(f)) <= Join(crdt, Visible(f))
  }

  /** Whether reads are complete after appended rows, from the log before and the rows alone: the rows from
      their newest snapshot on must carry the whole log and the rows before it; rows without a snapshot
      must make up for what the log hid already. */
  lemma AppendedReadIff(crdt: Crdt, rows: seq<Row>, f: seq<Row>)
    ensures Complete(crdt, rows + f) <==>
      if HasSnapshot(f) then Join(crdt, rows) + Join(crdt, Hidden(f)) <= Join(crdt, Visible(f))
      else Join(crdt, rows) <= Join(crdt, Visible(rows)) + Join(crdt, f)
  {
    VisibleAppend(rows, f);
    JoinConcat(crdt, rows, f);
    if HasSnapshot(f) {
      assert f == Hidden(f) + Visible(f);
      JoinConcat(crdt, Hidden(f), Visible(f));
      UnionIs(Join(crdt, Visible(f)), Join(crdt, rows), Join(crdt, Hidden(f)));
    } else {
      JoinConcat(crdt, Visible(rows), f);
      ReadWithinLog(crdt, rows);
      UnionFills(Join(crdt, Visible(rows)), Join(crdt, rows), Join(crdt, f));
    }
  }

  lemma UnionIs(v: State, j: State, h: State)
    ensures v == j + (h + v) <==> j + h <= v
  {}

  lemma UnionFills(v: State, j: State, f: State)
    requires v <= j
    ensures v + f == j + f <==> j <= v + f
  {}

  /** A give to a log whose reads are complete keeps them so exactly when it inserts no snapshot, or the
      rows from its newest inserted snapshot on cover the log and the other rows it inserts. */
  lemma GiveReadIff(crdt: Crdt, rows: seq<Row>, entries: seq<Row>)
    requires Complete(crdt, rows)
    ensures Complete(crdt, Given(rows, entries)) <==> Covers(crdt, rows, Fresh(entries, Digests(rows), LastSeq(rows) + 1))
  {
    AppendedReadIff(crdt, rows, Fresh(entries, Digests(rows), LastSeq(rows) + 1));
  }

  /** A compaction check leaves reads complete exactly when they were, or a threshold is met. */
  lemma CheckRestoresIff(crdt: Crdt, rows: seq<Row>, now: int)
    requires Sorted(rows) && Hashed(crdt, rows) && crdt.Lawful()
    ensures Complete(crdt, MaybeCompacted(crdt, rows, now)) <==> Complete(crdt, rows) || NeedsCompact(rows, now)
  {
    CompactionKeepsState(crdt, rows, now);
  }

  /** While the log holds an update row a check restores complete reads from some moment on; a log of
      snapshots alone is never compacted, whenever the check runs. */
  lemma RestoredInTime(crdt: Crdt, rows: seq<Row>) returns (due: int)
    requires Sorted(rows) && Hashed(crdt, rows) && crdt.Lawful()
    ensures UpdateCount(rows) > 0 ==> forall now :: now >= due ==> Complete(crdt, MaybeCompacted(crdt, rows, now))
    ensures UpdateCount(rows) == 0 ==> forall now :: MaybeCompacted(crdt, rows, now) == rows
  {
    due := 0;
    NoUpdates(rows);
    if UpdateCount(rows) > 0 {
      var r := SomeUpdate(rows);
      due := r.createdAt + COMPACT_MAX_AGE_MS;
      forall now | now >= due ensures Complete(crdt, MaybeCompacted(crdt, rows, now)) {
        assert HasOldUpdate(rows, now);
        CheckRestoresIff(crdt, rows, now);
      }
    } else {
      forall now ensures MaybeCompacted(crdt, rows, now) == rows {
        assert !HasOldUpdate(rows, now);
      }
    }
  }

  lemma {:induction false} SomeUpdate(rows: seq<Row>) returns (r: Row)
    requires UpdateCount(rows) > 0
    ensures r in rows && r.kind.Update?
  {
    r := rows[|rows| - 1];
    if r.kind.Snapshot? { r := SomeUpdate(rows[..|rows| - 1]); }
  }

  lemma AppendKeepsLog(crdt: Crdt, rows: seq<Row>, payload: Bytes, kind: Kind, now: int)
    requires Sorted(rows) && Hashed(crdt, rows)
    ensures var after := Append(crdt, rows, payload, kind, now);
      && Sorted(after) && Hashed(crdt, after)
      && NumbersOnward(rows, after)
      && Join(crdt, after) == Join(crdt, rows) + crdt.mean(payload)
  {
    var row := Row(LastSeq(rows) + 1, payload, crdt.hash(payload), now, kind);
    JoinConcat(crdt, rows, [row]);
    SingleJoin(crdt, row);
  }
}
