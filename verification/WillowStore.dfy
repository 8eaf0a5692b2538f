/** The store on one device: the `yjs_entries` table and the operations of willow-store.js and
    willow-sync.js on it, each proved against the row functions of WillowLog. */
module WillowStore {
  import opened ByteStrings
  import opened WillowLog

  type DocId = string
  type Table = map<DocId, seq<Row>>

  datatype DocSummary = DocSummary(lastSeq: nat, digests: seq<Digest>)

  function Rows(t: Table, doc: DocId): seq<Row> {
    if doc in t then t[doc] else []
  }

  /** Replace one document's rows; no operation leaves a document without rows once it has some. */
  function Put(t: Table, doc: DocId, rows: seq<Row>): Table {
    if rows == [] then t else t[doc := rows]
  }

  function SummaryOf(t: Table): map<DocId, DocSummary> {
    map doc | doc in t && t[doc] != [] :: DocSummary(LastSeq(t[doc]), Newest(t[doc]))
  }

  /** The documents to ask for, each with the offered digests the table lacks. */
  function WantsOf(t: Table, docs: map<DocId, DocSummary>): map<DocId, seq<Digest>> {
    map doc | doc in docs && Missing(docs[doc].digests, Digests(Rows(t, doc))) != [] ::
      Missing(docs[doc].digests, Digests(Rows(t, doc)))
  }

  /** Replacing one document's rows touches no other. */
  lemma PutRows(t: Table, doc: DocId, rows: seq<Row>, other: DocId)
    requires rows == [] ==> Rows(t, doc) == []
    ensures Rows(Put(t, doc, rows), other) == if other == doc then rows else Rows(t, other)
  {}

  lemma PutOver(t: Table, u: Table, doc: DocId, rows: seq<Row>, after: seq<Row>)
    requires u == t[doc := rows] && after != []
    ensures Put(u, doc, after) == t[doc := after]
  {}

  /** A summary covers every document with rows, with its highest number; the digests of its newest hundred
      rows are all in it, and nothing else. */
  lemma SummaryExactly(t: Table, doc: DocId)
    ensures doc in SummaryOf(t) <==> Rows(t, doc) != []
    ensures doc in SummaryOf(t) ==>
      var rows, d := Rows(t, doc), SummaryOf(t)[doc];
      && d.lastSeq == rows[|rows| - 1].num && |d.digests| <= 100
      && (forall i :: 0 <= i < |rows| && |rows| - 100 <= i ==> rows[i].digest in d.digests)
      && (forall x :: x in d.digests ==> exists i :: 0 <= i < |rows| && |rows| - 100 <= i && rows[i].digest == x)
  {
    if doc in SummaryOf(t) {
      var rows, digests := Rows(t, doc), SummaryOf(t)[doc].digests;
      forall i | 0 <= i < |rows| && |rows| - 100 <= i ensures rows[i].digest in digests {
        assert digests[|rows| - 1 - i] == rows[i].digest;
      }
      forall x | x in digests ensures exists i :: 0 <= i < |rows| && |rows| - 100 <= i && rows[i].digest == x {
        var j :| 0 <= j < |digests| && digests[j] == x;
        assert rows[|rows| - 1 - j].digest == x;
      }
    }
  }

  /** What is asked for: the offered digests that no row of the document has. */
  lemma WantsExactly(t: Table, docs: map<DocId, DocSummary>, doc: DocId, d: Digest)
    ensures doc in WantsOf(t, docs) && d in WantsOf(t, docs)[doc] <==>
      doc in docs && d in docs[doc].digests && forall i :: 0 <= i < |Rows(t, doc)| ==> Rows(t, doc)[i].digest != d
    ensures doc in WantsOf(t, docs) ==> WantsOf(t, docs)[doc] != []
  {
    if doc in docs {
      MissingExactly(docs[doc].digests, Digests(Rows(t, doc)));
      forall i | 0 <= i < |Rows(t, doc)| ensures Rows(t, doc)[i].digest in Digests(Rows(t, doc)) {
        assert Rows(t, doc)[i] in Rows(t, doc);
      }
    }
  }

  class Store {
    const crdt: Crdt
    var entries: Table
    var compacting: set<DocId>

    constructor (crdt: Crdt)
      ensures this.crdt == crdt && entries == map[] && compacting == {}
    {
      this.crdt := crdt;
      entries, compacting := map[], {};
    }

    method AppendUpdate(doc: DocId, payload: Bytes, kind: Kind, now: int) returns (num: nat, digest: Digest)
      modifies this`entries
      ensures num == LastSeq(Rows(old(entries), doc)) + 1 && digest == crdt.hash(payload)
      ensures entries == old(entries)[doc := Rows(old(entries), doc) + [Row(num, payload, digest, now, kind)]]
      ensures Rows(entries, doc) == Append(crdt, Rows(old(entries), doc), payload, kind, now)
    {
      digest := crdt.hash(payload);
      var rows := Rows(entries, doc);
      num := LastSeq(rows) + 1;
      entries := entries[doc := rows + [Row(num, payload, digest, now, kind)]];
    }

    method ListEntries(doc: DocId) returns (visible: seq<Row>)
      ensures visible == Visible(Rows(entries, doc))
    {
      var rows := Rows(entries, doc);
      var from := 0;
      for i := 0 to |rows|
        invariant from == VisibleFrom(rows[..i])
      {
        assert rows[..i + 1][..i] == rows[..i];
        if rows[i].kind.Snapshot? { from := i; }
      }
      assert rows[..|rows|] == rows;
      visible := rows[from..];
    }

    method CompactToSnapshot(doc: DocId, payload: Bytes, now: int) returns (num: nat)
      modifies this`entries
      ensures num == LastSeq(Rows(old(entries), doc)) + 1
      ensures entries == old(entries)[doc := [Row(num, payload, crdt.hash(payload), now, Snapshot)]]
    {
      var rows := Rows(entries, doc);
      num := LastSeq(rows) + 1;
      var snapshot := Row(num, payload, crdt.hash(payload), now, Snapshot);
      entries := entries[doc := [snapshot]];
    }

    /** Replay rows into one state, as both the compaction and the read do. */
    method Replay(rows: seq<Row>) returns (state: State)
      ensures state == Join(crdt, rows)
    {
      state := {};
      for i := 0 to |rows|
        invariant state == Join(crdt, rows[..i])
      {
        assert rows[..i + 1] == rows[..i] + [rows[i]];
        JoinConcat(crdt, rows[..i], [rows[i]]);
        JoinHas(crdt, [rows[i]], rows[i]);
        JoinWithin(crdt, [rows[i]], crdt.mean(rows[i].payload));
        state := state + crdt.mean(rows[i].payload);
      }
      assert rows[..|rows|] == rows;
    }

    /** The aggregate query over update rows. */
    method UpdateStats(rows: seq<Row>, now: int) returns (count: nat, bytes: nat, old_: bool)
      ensures count == UpdateCount(rows) && bytes == UpdateBytes(rows) && old_ == HasOldUpdate(rows, now)
    {
      count, bytes, old_ := 0, 0, false;
      for i := 0 to |rows|
        invariant count == UpdateCount(rows[..i]) && bytes == UpdateBytes(rows[..i])
        invariant old_ == HasOldUpdate(rows[..i], now)
      {
        assert rows[..i + 1][..i] == rows[..i];
        assert forall r :: r in rows[..i + 1] <==> r in rows[..i] || r == rows[i];
        if rows[i].kind.Update? {
          count, bytes := count + 1, bytes + |rows[i].payload|;
          if now - rows[i].createdAt >= COMPACT_MAX_AGE_MS {
            assert rows[i] in rows[..i + 1];
            old_ := true;
          }
        }
      }
      assert rows[..|rows|] == rows;
    }

    /** After a check that runs, fewer than 50 update rows and under 1 MiB of update payload remain. */
    method MaybeCompact(doc: DocId, now: int)
      modifies this
      ensures compacting == old(compacting)
      ensures doc in old(compacting) ==> entries == old(entries)
      ensures doc !in old(compacting) ==>
        && entries == Put(old(entries), doc, MaybeCompacted(crdt, Rows(old(entries), doc), now))
        && UpdateCount(Rows(entries, doc)) < COMPACT_MAX_UPDATES
        && UpdateBytes(Rows(entries, doc)) < COMPACT_MAX_BYTES
    {
      if doc in compacting { return; }
      compacting := compacting + {doc};
      var rows := Rows(entries, doc);
      var count, bytes, aged := UpdateStats(rows, now);
      if count != 0 && (count >= COMPACT_MAX_UPDATES || bytes >= COMPACT_MAX_BYTES || aged) {
        var state := Replay(rows);
        var _ := CompactToSnapshot(doc, crdt.encode(state), now);
      } else {
        NoUpdates(rows);
        assert entries == Put(old(entries), doc, rows);
      }
      compacting := compacting - {doc};
    }

    /** `yjs-write`: append, then the compaction check. Unless a compaction of the document is under way,
        fewer than 50 update rows and under 1 MiB of update payload remain. */
    method YjsWrite(doc: DocId, data: Bytes, now: int) returns (num: nat, digest: Digest)
      modifies this
      ensures compacting == old(compacting) && digest == crdt.hash(data) && num == LastSeq(Rows(old(entries), doc)) + 1
      ensures var appended := Append(crdt, Rows(old(entries), doc), data, Update, now);
        if doc in old(compacting) then entries == old(entries)[doc := appended]
        else
          && entries == old(entries)[doc := MaybeCompacted(crdt, appended, now)]
          && UpdateCount(Rows(entries, doc)) < COMPACT_MAX_UPDATES
          && UpdateBytes(Rows(entries, doc)) < COMPACT_MAX_BYTES
    {
      ghost var appended := Append(crdt, Rows(entries, doc), data, Update, now);
      num, digest := AppendUpdate(doc, data, Update, now);
      ghost var table := entries;
      MaybeCompact(doc, now);
      PutOver(old(entries), table, doc, appended, MaybeCompacted(crdt, appended, now));
    }

    /** `yjs-read`: nothing when the log is empty. */
    method YjsRead(doc: DocId) returns (data: seq<Bytes>)
      ensures data == if Rows(entries, doc) == [] then [] else [crdt.encode(Join(crdt, Visible(Rows(entries, doc))))]
    {
      var rows := ListEntries(doc);
      if |rows| > 0 {
        var state := Replay(rows);
        data := [crdt.encode(state)];
      } else {
        data := [];
      }
    }

    method BuildSummary() returns (docs: map<DocId, DocSummary>)
      ensures docs == SummaryOf(entries)
    {
      docs := map[];
      var todo := set doc | doc in entries && entries[doc] != [];
      ghost var all := todo;
      while todo != {}
        invariant todo <= all
        invariant docs.Keys == all - todo
        invariant forall doc :: doc in docs ==> docs[doc] == DocSummary(LastSeq(entries[doc]), Newest(entries[doc]))
        decreases todo
      {
        var doc :| doc in todo;
        docs := docs[doc := DocSummary(LastSeq(entries[doc]), Newest(entries[doc]))];
        todo := todo - {doc};
      }
    }

    method MissingOf(offered: seq<Digest>, ours: set<Digest>) returns (missing: seq<Digest>)
      ensures missing == Missing(offered, ours)
    {
      missing := [];
      for i := 0 to |offered|
        invariant missing == Missing(offered[..i], ours)
      {
        assert offered[..i + 1][..i] == offered[..i];
        if offered[i] !in ours { missing := missing + [offered[i]]; }
      }
      assert offered[..|offered|] == offered;
    }

    method DigestsWeMissFrom(docs: map<DocId, DocSummary>) returns (requests: map<DocId, seq<Digest>>)
      ensures requests == WantsOf(entries, docs)
    {
      requests := map[];
      var todo := docs.Keys;
      ghost var wants := WantsOf(entries, docs);
      while todo != {}
        invariant todo <= docs.Keys
        invariant requests == map doc | doc in docs.Keys - todo && doc in wants :: wants[doc]
        decreases todo
      {
        var doc :| doc in todo;
        var missing := MissingOf(docs[doc].digests, Digests(Rows(entries, doc)));
        if |missing| > 0 { requests := requests[doc := missing]; }
        todo := todo - {doc};
      }
    }

    method FulfillWant(doc: DocId, digests: seq<Digest>) returns (give: seq<Row>)
      ensures give == Fulfilled(Rows(entries, doc), digests)
    {
      var rows := Rows(entries, doc);
      give := [];
      for i := 0 to |rows|
        invariant give == Fulfilled(rows[..i], digests)
      {
        assert rows[..i + 1][..i] == rows[..i];
        if rows[i].digest in digests { give := give + [rows[i]]; }
      }
      assert rows[..|rows|] == rows;
    }

    method ApplyGive(doc: DocId, give: seq<Row>) returns (applied: nat)
      modifies this`entries
      ensures entries == Put(old(entries), doc, Given(Rows(old(entries), doc), give))
      ensures applied == |Rows(entries, doc)| - |Rows(old(entries), doc)|
    {
      var rows := Rows(entries, doc);
      var have := Digests(rows);
      var nextSeq := LastSeq(rows) + 1;
      var inserted := [];
      applied := 0;
      for i := 0 to |give|
        invariant inserted == Fresh(give[..i], have, LastSeq(rows) + 1)
        invariant applied == |inserted| && nextSeq == LastSeq(rows) + 1 + |inserted|
      {
        assert give[..i + 1][..i] == give[..i];
        if give[i].digest !in have {
          inserted := inserted + [give[i].(num := nextSeq)];
          nextSeq := nextSeq + 1;
          applied := applied + 1;
        }
      }
      assert give[..|give|] == give;
      entries := Put(entries, doc, rows + inserted);
    }
  }
}
