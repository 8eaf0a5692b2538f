/** The laws assumed of the Y.js merge and of the hash can be met, and so can the premises of the run in
    WillowCut: a payload is a list of integers, each its sign and its size in unary, with padding. */
module WillowExample {
  import opened ByteStrings
  import opened WillowLog
  import opened WillowStore
  import opened WillowGossip
  import opened WillowReads
  import opened WillowCut

  const PLUS: byte := 0
  const MINUS: byte := 1
  const PAD: byte := 2
  const ONE: byte := 3

  function Repeat(b: byte, n: nat): (r: Bytes)
    ensures |r| == n
    decreases n, b
  {
    if n == 0 then [] else [b] + Repeat(b, n - 1)
  }

  function Ones(b: Bytes): nat {
    if b == [] || b[0] != ONE then 0 else 1 + Ones(b[1..])
  }

  function Signed(sign: byte, n: nat): int {
    var m: int := n;
    if sign == PLUS then m else -m
  }

  function Mean(b: Bytes): State {
    if b == [] then {}
    else
      var rest := Mean(b[1..]);
      if b[0] == PLUS || b[0] == MINUS then {Signed(b[0], Ones(b[1..]))} + rest else rest
  }

  function Size(i: int): nat {
    if i >= 0 then i else -i
  }

  function Sign(i: int): byte {
    if i >= 0 then PLUS else MINUS
  }

  function Item(i: int): Bytes {
    [Sign(i)] + Repeat(ONE, Size(i))
  }

  ghost function Pick(s: State): int
    requires s != {}
    ensures Pick(s) in s
  {
    assert (forall i :: i !in s) ==> s == {};
    var i :| i in s;
    i
  }

  ghost function Encode(s: State): Bytes
    decreases |s|
  {
    if s == {} then [] else Item(Pick(s)) + Encode(s - {Pick(s)})
  }

  function Hash(b: Bytes): Digest {
    seq(|b|, i requires 0 <= i < |b| => b[i] as int as char)
  }

  ghost const EXAMPLE: Crdt := Crdt(Mean, (s: State) => Encode(s), Hash)

  lemma RepeatFirst(b: byte, n: nat, r: Bytes)
    requires n > 0
    ensures Repeat(b, n) + r == [b] + (Repeat(b, n - 1) + r)
  {}

  lemma MeanFirst(b: byte, r: Bytes)
    ensures Mean([b] + r) == if b == PLUS || b == MINUS then {Signed(b, Ones(r))} + Mean(r) else Mean(r)
    ensures Ones([b] + r) == if b == ONE then 1 + Ones(r) else 0
  {
    assert ([b] + r)[1..] == r;
  }

  lemma {:induction false} RunReads(b: byte, n: nat, r: Bytes)
    requires b == ONE || b == PAD
    ensures Mean(Repeat(b, n) + r) == Mean(r)
  {
    if n == 0 {
      assert Repeat(b, 0) + r == r;
    } else {
      var s := Repeat(b, n - 1) + r;
      RunReads(b, n - 1, r);
      MeanFirst(b, s);
      assert Repeat(b, n) + r == [b] + s by { RepeatFirst(b, n, r); }
    }
  }

  lemma {:induction false} OnesRead(n: nat, r: Bytes)
    requires r == [] || r[0] != ONE
    ensures Ones(Repeat(ONE, n) + r) == n
  {
    if n == 0 {
      assert Repeat(ONE, 0) + r == r;
    } else {
      OnesRead(n - 1, r);
      RepeatFirst(ONE, n, r);
      MeanFirst(ONE, Repeat(ONE, n - 1) + r);
    }
  }

  lemma ItemReads(i: int, r: Bytes)
    requires r == [] || r[0] != ONE
    ensures Mean(Item(i) + r) == {i} + Mean(r)
  {
    RunReads(ONE, Size(i), r);
    OnesRead(Size(i), r);
    MeanFirst(Sign(i), Repeat(ONE, Size(i)) + r);
    ItemFirst(Sign(i), Repeat(ONE, Size(i)), r);
    assert Signed(Sign(i), Size(i)) == i;
  }

  lemma ItemFirst(b: byte, a: Bytes, r: Bytes)
    ensures ([b] + a) + r == [b] + (a + r)
  {}

  lemma ItemAlone(i: int)
    ensures Mean(Item(i)) == {i}
  {
    ItemReads(i, []);
    assert Item(i) + [] == Item(i);
  }

  lemma {:induction false} EncodeReads(s: State)
    ensures Mean(Encode(s)) == s && (Encode(s) == [] || Encode(s)[0] != ONE)
    decreases |s|
  {
    if s != {} {
      EncodeReads(s - {Pick(s)});
      ItemReads(Pick(s), Encode(s - {Pick(s)}));
      assert {Pick(s)} + (s - {Pick(s)}) == s;
    }
  }

  lemma HashInjective(p: Bytes, q: Bytes)
    requires Hash(p) == Hash(q)
    ensures p == q
  {
    assert |p| == |Hash(p)| == |q|;
    forall i | 0 <= i < |p| ensures p[i] == q[i] {
      assert Hash(p)[i] == Hash(q)[i];
    }
  }

  lemma ExampleLawful()
    ensures EXAMPLE.Lawful()
  {
    forall s: State ensures EXAMPLE.mean(EXAMPLE.encode(s)) == s { EncodeReads(s); }
    forall p: Bytes, q: Bytes | EXAMPLE.hash(p) == EXAMPLE.hash(q) ensures p == q { HashInjective(p, q); }
  }

  /** 1 MiB of padding and the number k + 1. */
  function Big(k: nat): Bytes {
    Repeat(PAD, COMPACT_MAX_BYTES) + Item(k + 1)
  }

  lemma BigReads(k: nat)
    ensures Mean(Big(k)) == {k + 1} && |Big(k)| >= COMPACT_MAX_BYTES
  {
    RunReads(PAD, COMPACT_MAX_BYTES, Item(k + 1));
    ItemAlone(k + 1);
  }

  function Next(k: nat): int {
    k + 1
  }

  lemma ExampleSupply()
    ensures Supply(EXAMPLE, 0, Item(0), Big, Next)
  {
    ItemAlone(0);
    assert Item(0) == [PLUS];
    forall k: nat ensures Mean(Big(k)) == {k + 1} && |Big(k)| >= COMPACT_MAX_BYTES { BigReads(k); }
  }

  /** Two devices that gossip never brings together, whatever further frames pass between them,
      until the one that holds the update compacts. */
  lemma DevicesApart(doc: DocId) returns (evs: seq<Event>)
    ensures EXAMPLE.Lawful() && |Rows(Run(EXAMPLE, 2, evs).devices[1], doc)| == 101
    ensures forall more :: AllSpare(EXAMPLE, 2, evs, more, 1, doc, 0) ==> Apart(EXAMPLE, Run(EXAMPLE, 2, evs + more), doc, 0)
  {
    ExampleLawful();
    ExampleSupply();
    evs := LogsThatNeverAgree(EXAMPLE, doc, 0, Item(0), Big, Next);
  }

  /** Two devices whose own checks compact what they write, and a read on one of them that shows the other's
      writing instead of its own, after whatever further check. */
  lemma ReadLost(doc: DocId) returns (evs: seq<Event>)
    ensures EXAMPLE.Lawful() && Next(1) in Written(EXAMPLE, evs, 1, doc)
    ensures forall now :: Next(1) !in Join(EXAMPLE, Visible(Checked(EXAMPLE, 2, evs, 1, doc, now)))
  {
    ExampleLawful();
    ExampleSupply();
    evs := LoseRead(EXAMPLE, doc, 0, Item(0), Big, Next);
  }

  lemma LoseRead(crdt: Crdt, doc: DocId, x: int, c: Bytes, p: nat -> Bytes, y: nat -> int) returns (evs: seq<Event>)
    requires crdt.Lawful() && Supply(crdt, x, c, p, y)
    ensures y(1) in Written(crdt, evs, 1, doc)
    ensures forall now :: y(1) !in Join(crdt, Visible(Checked(crdt, 2, evs, 1, doc, now)))
  {
    assert y(1) in crdt.mean(p(1)) && y(1) !in crdt.mean(p(0));
    evs := SnapshotsStayHidden(crdt, doc, p(0), p(1));
  }
}
