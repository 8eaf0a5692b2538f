/** GitExecs of git-exec.js: live git processes on one connection, and the byte window on their output. */
module GitStream {
  import opened ByteStrings
  import opened Options

  const CHUNK: nat := 0x4_0000
  const WINDOW: nat := 0x40_0000
  const MAX_EXECS: nat := 8

  /** One stdout frame. */
  datatype Frame = Frame(execId: string, seqNo: nat, data: Bytes)

  /** One exec. The fields after `done` are history: its stdout frames in the order sent, how many exit
      frames it sent, the bytes read from git, and the bytes the server acknowledged. */
  datatype Exec = Exec(
    execId: string, seqNo: nat, outUnacked: nat, paused: bool, done: bool,
    stdout: seq<Frame>, exits: nat, output: Bytes, acked: nat)

  /** Execs by identity, for an id may be used again once its exec is finished. */
  datatype State = State(execs: map<nat, Exec>, registry: map<string, nat>, next: nat)

  datatype Refusal = InvalidId | AlreadyRunning | TooMany | UnknownService

  predicate IdChar(c: char) {
    'A' <= c <= 'Z' || 'a' <= c <= 'z' || '0' <= c <= '9' || c == '_' || c == '-'
  }

  predicate ValidId(id: string) {
    8 <= |id| <= 64 && forall i :: 0 <= i < |id| ==> IdChar(id[i])
  }

  function Refused(s: State, id: string, service: string): Option<Refusal> {
    if !ValidId(id) then Some(InvalidId)
    else if id in s.registry then Some(AlreadyRunning)
    else if |s.registry| >= MAX_EXECS then Some(TooMany)
    else if service != "upload-pack" && service != "receive-pack" then Some(UnknownService)
    else None
  }

  // ---- what each event does

  datatype Event =
    | Start(id: string, service: string)
    | Data(exec: nat, buf: Bytes)   // git's output arrives; never while the stream is paused
    | Ack(id: string, n: nat)       // a git-stdin frame with an ack
    | Finish(exec: nat)             // the child closed, or could not be started
    | CloseAll

  function Put(s: State, u: nat, ex: Exec): State {
    s.(execs := s.execs[u := ex])
  }

  function NewExec(id: string): Exec {
    Exec(id, 0, 0, false, false, [], 0, [], 0)
  }

  function Started(s: State, id: string, service: string): State {
    if Refused(s, id, service).Some? then s
    else Put(s, s.next, NewExec(id)).(registry := s.registry[id := s.next], next := s.next + 1)
  }

  function SentOne(ex: Exec, part: Bytes): Exec {
    ex.(outUnacked := ex.outUnacked + |part|, seqNo := ex.seqNo + 1,
        stdout := ex.stdout + [Frame(ex.execId, ex.seqNo, part)], output := ex.output + part)
  }

  /** `buf` cut at every multiple of CHUNK and sent piece by piece. */
  function SentAll(ex: Exec, buf: Bytes): Exec
    decreases |buf|
  {
    if buf == [] then ex
    else
      var cut := (|buf| - 1) / CHUNK * CHUNK;
      SentOne(SentAll(ex, buf[..cut]), buf[cut..])
  }

  function Paused(ex: Exec): Exec {
    if ex.outUnacked >= WINDOW && !ex.paused then ex.(paused := true) else ex
  }

  function Acked(ex: Exec, n: nat): Exec {
    var left := if ex.outUnacked > n then ex.outUnacked - n else 0;
    ex.(outUnacked := left, paused := ex.paused && left >= WINDOW / 2, acked := ex.acked + n)
  }

  function Done(ex: Exec, silent: bool): Exec {
    ex.(done := true, exits := if silent then ex.exits else ex.exits + 1)
  }

  predicate Possible(s: State, e: Event) {
    match e
    case Data(u, _) => u in s.execs && !s.execs[u].paused
    case Finish(u) => u in s.execs
    case _ => true
  }

  predicate Known(s: State) {
    (forall id :: id in s.registry ==> s.registry[id] in s.execs) && s.next !in s.execs
  }

  function Step(s: State, e: Event): State
    requires Known(s) && Possible(s, e)
  {
    match e
    case Start(id, service) => Started(s, id, service)
    case Data(u, buf) => Put(s, u, Paused(SentAll(s.execs[u], buf)))
    case Ack(id, n) => if id in s.registry && n > 0 then Put(s, s.registry[id], Acked(s.execs[s.registry[id]], n)) else s
    case Finish(u) =>
      var ex := s.execs[u];
      if ex.done then s else Put(s, u, Done(ex, false)).(registry := s.registry - {ex.execId})
    case CloseAll =>
      s.(execs := map u | u in s.execs :: if s.execs[u].done then s.execs[u] else Done(s.execs[u], true), registry := map[])
  }

  const EMPTY: State := State(map[], map[], 0)

  // ---- one exec

  function Joined(fs: seq<Frame>): Bytes {
    if fs == [] then [] else Joined(fs[..|fs| - 1]) + fs[|fs| - 1].data
  }

  /** The stdout frames are numbered from 0 without a gap, go out under the exec's id, hold 1 to CHUNK
      bytes each, and together are exactly git's output. */
  predicate Framed(ex: Exec) {
    && |ex.stdout| == ex.seqNo
    && (forall i :: 0 <= i < |ex.stdout| ==> FrameOk(ex.stdout[i], ex.execId, i))
    && Joined(ex.stdout) == ex.output
  }

  predicate FrameOk(f: Frame, id: string, i: nat) {
    f.execId == id && f.seqNo == i && 1 <= |f.data| <= CHUNK
  }

  predicate Flowing(ex: Exec) {
    (!ex.paused ==> ex.outUnacked < WINDOW) && (ex.paused ==> ex.outUnacked >= WINDOW / 2)
  }

  predicate ExecOk(ex: Exec) {
    Framed(ex) && Flowing(ex) && ex.exits <= if ex.done then 1 else 0
  }

  lemma SentOneFramed(ex: Exec, part: Bytes)
    requires Framed(ex) && 1 <= |part| <= CHUNK
    ensures Framed(SentOne(ex, part))
  {
    var fs := SentOne(ex, part).stdout;
    assert fs[..|fs| - 1] == ex.stdout;
  }

  /** Everything of an exec that sending does not touch. */
  predicate SameBut(a: Exec, b: Exec) {
    (a.execId, a.paused, a.done, a.exits, a.acked) == (b.execId, b.paused, b.done, b.exits, b.acked)
  }

  lemma {:induction false} SentAllFramed(ex: Exec, buf: Bytes)
    requires Framed(ex)
    ensures var t := SentAll(ex, buf);
      Framed(t) && SameBut(ex, t) && t.output == ex.output + buf && t.outUnacked == ex.outUnacked + |buf|
    decreases |buf|
  {
    if buf == [] {
      assert ex.output + buf == ex.output;
    } else {
      var cut := (|buf| - 1) / CHUNK * CHUNK;
      SentAllFramed(ex, buf[..cut]);
      SentOneFramed(SentAll(ex, buf[..cut]), buf[cut..]);
      assert ex.output + buf[..cut] + buf[cut..] == ex.output + buf;
    }
  }

  // ---- all execs

  predicate Registered(s: State) {
    && |s.registry| <= MAX_EXECS
    && (forall id :: id in s.registry ==>
          s.registry[id] in s.execs && !s.execs[s.registry[id]].done && s.execs[s.registry[id]].execId == id)
    && (forall u :: u in s.execs && !s.execs[u].done ==> s.execs[u].execId in s.registry && s.registry[s.execs[u].execId] == u)
  }

  predicate Valid(s: State) {
    Registered(s) && (forall u :: u in s.execs ==> u < s.next && ExecOk(s.execs[u])) && s.next !in s.execs
  }

  lemma CardPlus(m: map<string, nat>, id: string, u: nat)
    requires id !in m
    ensures |m[id := u]| == |m| + 1
  {
    assert m[id := u].Keys == m.Keys + {id};
    assert |m[id := u].Keys| == |m.Keys| + 1;
  }

  lemma CardMinus(m: map<string, nat>, id: string)
    requires id in m
    ensures |m - {id}| == |m| - 1
  {
    assert (m - {id}).Keys == m.Keys - {id};
    assert |(m - {id}).Keys| == |m.Keys| - 1;
  }

  lemma DataOk(ex: Exec, buf: Bytes)
    requires ExecOk(ex) && !ex.paused
    ensures var t := Paused(SentAll(ex, buf)); ExecOk(t) && t.execId == ex.execId && t.done == ex.done
  {
    SentAllFramed(ex, buf);
  }

  lemma AckOk(ex: Exec, n: nat)
    requires ExecOk(ex)
    ensures ExecOk(Acked(ex, n))
  {}

  lemma DoneOk(ex: Exec, silent: bool)
    requires ExecOk(ex) && !ex.done
    ensures ExecOk(Done(ex, silent))
  {}

  lemma PutValid(s: State, u: nat, ex: Exec)
    requires Valid(s) && u in s.execs && ExecOk(ex) && ex.execId == s.execs[u].execId && ex.done == s.execs[u].done
    ensures Valid(Put(s, u, ex))
  {}

  lemma StartValid(s: State, id: string, service: string)
    requires Valid(s)
    ensures Valid(Started(s, id, service))
  {
    if Refused(s, id, service).None? {
      CardPlus(s.registry, id, s.next);
      assert ExecOk(NewExec(id));
      assert forall u :: u in s.execs ==> s.execs[u].execId != id || s.execs[u].done;
    }
  }

  lemma FinishValid(s: State, u: nat)
    requires Valid(s) && u in s.execs && !s.execs[u].done
    ensures Valid(Step(s, Finish(u)))
  {
    CardMinus(s.registry, s.execs[u].execId);
    DoneOk(s.execs[u], false);
  }

  lemma CloseAllValid(s: State)
    requires Valid(s)
    ensures Valid(Step(s, CloseAll))
  {
    var t := Step(s, CloseAll);
    forall u | u in t.execs ensures u < t.next && ExecOk(t.execs[u]) {
      if !s.execs[u].done { DoneOk(s.execs[u], true); }
    }
  }

  lemma StepValid(s: State, e: Event)
    requires Valid(s) && Possible(s, e)
    ensures Valid(Step(s, e))
  {
    match e
    case Start(id, service) => StartValid(s, id, service);
    case Data(u, buf) =>
      DataOk(s.execs[u], buf);
      PutValid(s, u, Paused(SentAll(s.execs[u], buf)));
    case Ack(id, n) =>
      if id in s.registry && n > 0 {
        AckOk(s.execs[s.registry[id]], n);
        PutValid(s, s.registry[id], Acked(s.execs[s.registry[id]], n));
      }
    case Finish(u) => if !s.execs[u].done { FinishValid(s, u); }
    case CloseAll => CloseAllValid(s);
  }

  // ---- what each event brings about

  /** A letter, a digit, an underscore or a dash, by its code. */
  predicate WordCode(n: nat) {
    65 <= n <= 90 || 97 <= n <= 122 || 48 <= n <= 57 || n == 95 || n == 45
  }

  /** A request is taken exactly when its id is 8 to 64 letters, digits, underscores and dashes and not in
      use, fewer than eight execs run, and the service is one of git's two. */
  lemma TakenIff(s: State, id: string, service: string)
    ensures Refused(s, id, service).None? <==>
      && 8 <= |id| <= 64 && (forall i :: 0 <= i < |id| ==> WordCode(id[i] as nat))
      && id !in s.registry && |s.registry| < 8 && (service == "upload-pack" || service == "receive-pack")
    ensures Refused(s, id, service) == Some(InvalidId) <==>
      !(8 <= |id| <= 64) || exists i :: 0 <= i < |id| && !WordCode(id[i] as nat)
    ensures ValidId(id) ==> (Refused(s, id, service) == Some(AlreadyRunning) <==> id in s.registry)
    ensures ValidId(id) && id !in s.registry ==> (Refused(s, id, service) == Some(TooMany) <==> |s.registry| >= 8)
  {
    forall i | 0 <= i < |id| ensures IdChar(id[i]) <==> WordCode(id[i] as nat) {}
  }

  /** A taken request runs under its id with nothing sent; a refused one changes nothing. */
  lemma StartTakes(s: State, id: string, service: string)
    requires Known(s)
    ensures var t := Step(s, Start(id, service));
      if Refused(s, id, service).Some? then t == s
      else
        && id in t.registry && t.registry[id] !in s.execs && t.registry == s.registry[id := t.registry[id]]
        && t.execs == s.execs[t.registry[id] := Exec(id, 0, 0, false, false, [], 0, [], 0)]
  {}

  function Pieces(len: nat): nat {
    (len + 262_143) / 262_144
  }

  function End(len: nat, k: nat): nat {
    if (k + 1) * 262_144 < len then (k + 1) * 262_144 else len
  }

  lemma PiecesMore(len: nat)
    requires len > 0
    ensures var n := (len - 1) / CHUNK; n * CHUNK < len <= (n + 1) * CHUNK && Pieces(n * CHUNK) == n && Pieces(len) == n + 1
  {
    var n := (len - 1) / 262_144;
    assert len - 1 == n * 262_144 + (len - 1) % 262_144;
  }

  /** One read goes out cut at every multiple of 262144 bytes, the last piece being what is left. */
  lemma {:induction false} SentPieces(ex: Exec, buf: Bytes)
    ensures |SentAll(ex, buf).stdout| == |ex.stdout| + Pieces(|buf|) && SentAll(ex, buf).seqNo == ex.seqNo + Pieces(|buf|)
    ensures SentAll(ex, buf).execId == ex.execId
    decreases |buf|
  {
    if buf != [] {
      var n := (|buf| - 1) / CHUNK;
      PiecesMore(|buf|);
      SentPieces(ex, buf[..n * CHUNK]);
    }
  }

  lemma {:induction false} PieceAt(ex: Exec, buf: Bytes, k: nat)
    requires k < Pieces(|buf|)
    ensures |SentAll(ex, buf).stdout| == |ex.stdout| + Pieces(|buf|) && k * 262_144 <= End(|buf|, k) <= |buf|
    ensures SentAll(ex, buf).stdout[|ex.stdout| + k] == Frame(ex.execId, ex.seqNo + k, buf[k * 262_144..End(|buf|, k)])
    decreases |buf|
  {
    var n := (|buf| - 1) / CHUNK;
    var front := buf[..n * CHUNK];
    SentPieces(ex, buf);
    SentPieces(ex, front);
    PiecesMore(|buf|);
    if k < n {
      PieceAt(ex, front, k);
      assert front[k * 262_144..End(|front|, k)] == buf[k * 262_144..End(|buf|, k)];
    } else {
      assert buf[k * 262_144..End(|buf|, k)] == buf[n * CHUNK..];
    }
  }

  /** A read is sent and counted, and pauses the stream exactly when 4 MiB or more are then unacked. */
  lemma DataSends(s: State, u: nat, buf: Bytes)
    requires Valid(s) && Possible(s, Data(u, buf))
    ensures var t := Step(s, Data(u, buf));
      && t == Put(s, u, t.execs[u])
      && var a, b := s.execs[u], t.execs[u];
      && b.output == a.output + buf && b.outUnacked == a.outUnacked + |buf| && b.stdout == SentAll(a, buf).stdout
      && (b.paused <==> b.outUnacked >= 4_194_304)
      && (b.execId, b.done, b.exits, b.acked) == (a.execId, a.done, a.exits, a.acked)
  {
    assert ExecOk(s.execs[u]);
    SentAllFramed(s.execs[u], buf);
  }

  /** An ack takes its bytes off the count, down to zero, and resumes a paused stream exactly when fewer than
      2 MiB are left. */
  lemma AckResumes(s: State, id: string, n: nat)
    requires Known(s)
    ensures var t := Step(s, Ack(id, n));
      if id !in s.registry || n == 0 then t == s
      else
        var u := s.registry[id];
        var a, b := s.execs[u], t.execs[u];
        && t == Put(s, u, b) && b == a.(outUnacked := b.outUnacked, paused := b.paused, acked := a.acked + n)
        && b.outUnacked == (if a.outUnacked < n then 0 else a.outUnacked - n)
        && (b.paused <==> a.paused && b.outUnacked >= 2_097_152)
  {}

  /** A finish sends the one exit frame of an exec and takes it out of the registry; a second changes nothing. */
  lemma FinishReports(s: State, u: nat)
    requires Valid(s) && u in s.execs
    ensures var t := Step(s, Finish(u));
      if s.execs[u].done then t == s
      else
        && t.execs == s.execs[u := t.execs[u]] && t.execs[u] == s.execs[u].(done := true, exits := 1)
        && s.execs[u].exits == 0 && t.registry == s.registry - {s.execs[u].execId} && t.next == s.next
  {
    assert ExecOk(s.execs[u]);
  }

  /** Closing ends every exec without a frame. */
  lemma CloseAllEnds(s: State, u: nat)
    requires Known(s) && u in s.execs
    ensures var t := Step(s, CloseAll);
      && t.execs.Keys == s.execs.Keys && t.registry == map[] && t.next == s.next
      && t.execs[u] == s.execs[u].(done := true)
  {}

  // ---- runs

  /** The state after a run; an event that cannot happen changes nothing. Every state reached is valid: the
      registry holds exactly the unfinished execs, one per id and at most eight; each exec's stdout frames
      are framed and sum to git's output; each exec has sent at most one git-exit, and none while it runs;
      each stream is below the window unless paused, and at or above half of it while paused. */
  function Run(es: seq<Event>): (s: State)
    ensures Valid(s)
  {
    if es == [] then EMPTY
    else
      var before, e := Run(es[..|es| - 1]), es[|es| - 1];
      if Possible(before, e) then
        StepValid(before, e);
        Step(before, e)
      else before
  }

  lemma RunMore(es: seq<Event>, e: Event)
    requires Possible(Run(es), e)
    ensures Run(es + [e]) == Step(Run(es), e)
  {
    assert (es + [e])[..|es|] == es;
  }

  /** An ack is honest when the server acknowledges no more than the bytes sent. */
  predicate HonestAck(s: State, e: Event)
    requires Known(s)
  {
    e.Ack? && e.id in s.registry ==> s.execs[s.registry[e.id]].acked + e.n <= |s.execs[s.registry[e.id]].output|
  }

  predicate Honest(es: seq<Event>) {
    es == [] || (Honest(es[..|es| - 1]) && HonestAck(Run(es[..|es| - 1]), es[|es| - 1]))
  }

  predicate Counted(ex: Exec) {
    ex.acked <= |ex.output| && ex.outUnacked == |ex.output| - ex.acked
  }

  predicate AllCounted(s: State) {
    forall u :: u in s.execs ==> Counted(s.execs[u])
  }

  lemma StepCounted(s: State, e: Event)
    requires Known(s) && Possible(s, e) && Valid(s) && AllCounted(s) && HonestAck(s, e)
    ensures AllCounted(Step(s, e))
  {
    if e.Data? { SentAllFramed(s.execs[e.exec], e.buf); }
  }

  /** With acks never exceeding bytes sent, the unacked count is exactly sent minus acked. */
  lemma {:induction false} UnackedIsSentMinusAcked(es: seq<Event>)
    requires Honest(es)
    ensures AllCounted(Run(es))
  {
    if es != [] {
      UnackedIsSentMinusAcked(es[..|es| - 1]);
      if Possible(Run(es[..|es| - 1]), es[|es| - 1]) { StepCounted(Run(es[..|es| - 1]), es[|es| - 1]); }
    }
  }

  predicate Below(s: State, limit: nat) {
    forall u :: u in s.execs ==> s.execs[u].outUnacked < limit
  }

  lemma StepBelow(s: State, e: Event, most: nat)
    requires Valid(s) && Possible(s, e) && Below(s, WINDOW + most) && (e.Data? ==> |e.buf| <= most)
    ensures Below(Step(s, e), WINDOW + most)
  {
    if e.Data? {
      assert ExecOk(s.execs[e.exec]);
      SentAllFramed(s.execs[e.exec], e.buf);
    }
  }

  /** While every read delivers at most `most` bytes, the unacked count stays below the window plus one
      read, whatever the acks. */
  lemma {:induction false} UnackedBounded(es: seq<Event>, most: nat)
    requires forall i :: 0 <= i < |es| ==> es[i].Data? ==> |es[i].buf| <= most
    ensures Below(Run(es), WINDOW + most)
  {
    if es != [] {
      UnackedBounded(es[..|es| - 1], most);
      if Possible(Run(es[..|es| - 1]), es[|es| - 1]) { StepBelow(Run(es[..|es| - 1]), es[|es| - 1], most); }
    }
  }

  function Sum(ns: seq<nat>): nat {
    if ns == [] then 0 else Sum(ns[..|ns| - 1]) + ns[|ns| - 1]
  }

  function Acks(id: string, ns: seq<nat>): seq<Event> {
    if ns == [] then [] else Acks(id, ns[..|ns| - 1]) + [Ack(id, ns[|ns| - 1])]
  }

  function Outstanding(s: State, id: string): nat {
    if id in s.registry && s.registry[id] in s.execs then s.execs[s.registry[id]].outUnacked else 0
  }

  function Minus(a: nat, b: nat): nat {
    if b < a then a - b else 0
  }

  lemma AckTakes(s: State, id: string, n: nat)
    requires Known(s) && id in s.registry
    ensures Step(s, Ack(id, n)).registry == s.registry && Outstanding(Step(s, Ack(id, n)), id) == Minus(Outstanding(s, id), n)
  {}

  /** Acks take what they sum to off the unacked count of their exec, and nobody leaves the registry. */
  lemma {:induction false} AcksDrain(es: seq<Event>, id: string, ns: seq<nat>)
    requires id in Run(es).registry
    ensures Run(es + Acks(id, ns)).registry == Run(es).registry
    ensures Outstanding(Run(es + Acks(id, ns)), id) == Minus(Outstanding(Run(es), id), Sum(ns))
  {
    if ns == [] {
      assert es + Acks(id, ns) == es;
    } else {
      var front, n := ns[..|ns| - 1], ns[|ns| - 1];
      AcksDrain(es, id, front);
      var before := es + Acks(id, front);
      RunMore(before, Ack(id, n));
      AckTakes(Run(before), id, n);
      assert es + Acks(id, ns) == before + [Ack(id, n)];
    }
  }

  /** The stream cannot stall: a paused exec has at least half a window outstanding, and any acks that
      together reach what is outstanding resume it. */
  lemma FullAckResumes(es: seq<Event>, id: string, ns: seq<nat>)
    requires id in Run(es).registry && Run(es).execs[Run(es).registry[id]].paused
    requires Sum(ns) >= Run(es).execs[Run(es).registry[id]].outUnacked
    ensures Run(es).execs[Run(es).registry[id]].outUnacked >= WINDOW / 2
    ensures var t := Run(es + Acks(id, ns));
      id in t.registry && !t.execs[t.registry[id]].paused && t.execs[t.registry[id]].outUnacked == 0
  {
    AcksDrain(es, id, ns);
    var s, t := Run(es), Run(es + Acks(id, ns));
    assert ExecOk(s.execs[s.registry[id]]) && ExecOk(t.execs[t.registry[id]]);
  }

  /** The exec's own end came in the run, before anything else had ended it. */
  predicate Ended(es: seq<Event>, u: nat) {
    es != [] &&
    var front, e := es[..|es| - 1], es[|es| - 1];
    || Ended(front, u)
    || (e == Finish(u) && u in Run(front).execs && !Run(front).execs[u].done)
  }

  /** Over any run an exec that ended by itself has sent exactly one exit frame, one that was closed with the
      connection none, and one that runs none. */
  lemma {:induction false} ExitOnce(es: seq<Event>, u: nat)
    requires u in Run(es).execs
    ensures var ex := Run(es).execs[u];
      && ex.exits == (if Ended(es, u) then 1 else 0)
      && (Ended(es, u) ==> ex.done)
      && (ex.done && !Ended(es, u) ==> CloseAll in es)
  {
    if es != [] {
      var front, e := es[..|es| - 1], es[|es| - 1];
      var s := Run(front);
      assert e in es && forall x :: x in front ==> x in es;
      EndedKnown(front, u);
      if u in s.execs { ExitOnce(front, u); }
      if Possible(s, e) { StepExits(s, e, u); }
    }
  }

  lemma {:induction false} EndedKnown(es: seq<Event>, u: nat)
    ensures Ended(es, u) ==> u in Run(es).execs
  {
    if es != [] {
      var s, e := Run(es[..|es| - 1]), es[|es| - 1];
      EndedKnown(es[..|es| - 1], u);
      if u in s.execs && Possible(s, e) { ExecKept(s, e, u); }
    }
  }

  lemma ExecKept(s: State, e: Event, u: nat)
    requires Known(s) && Possible(s, e) && u in s.execs
    ensures u in Step(s, e).execs
  {}

  lemma StepExits(s: State, e: Event, u: nat)
    requires Valid(s) && Possible(s, e) && u in Step(s, e).execs
    ensures var b := Step(s, e).execs[u];
      if u !in s.execs then b.exits == 0 && !b.done
      else if e == Finish(u) && !s.execs[u].done then b.exits == 1 && b.done
      else b.exits == s.execs[u].exits && (b.done <==> s.execs[u].done || e.CloseAll?)
  {
    match e
    case Start(id, service) => StartTakes(s, id, service);
    case Data(v, buf) => DataSends(s, v, buf);
    case Ack(id, n) => AckResumes(s, id, n);
    case Finish(v) => FinishReports(s, v);
    case CloseAll => if u in s.execs { CloseAllEnds(s, u); }
  }

  /** What git wrote to the stdout of exec `u` during the run. */
  function Delivered(es: seq<Event>, u: nat): Bytes {
    if es == [] then []
    else
      var e := es[|es| - 1];
      Delivered(es[..|es| - 1], u) + if e.Data? && e.exec == u && Possible(Run(es[..|es| - 1]), e) then e.buf else []
  }

  predicate Carried(s: State, u: nat, delivered: Bytes) {
    if u in s.execs then s.execs[u].output == delivered else delivered == []
  }

  lemma StepCarries(s: State, e: Event, u: nat, delivered: Bytes)
    requires Valid(s) && Possible(s, e) && Carried(s, u, delivered)
    ensures Carried(Step(s, e), u, delivered + if e.Data? && e.exec == u then e.buf else [])
  {
    assert delivered + [] == delivered;
    if e.Data? {
      assert ExecOk(s.execs[e.exec]);
      SentAllFramed(s.execs[e.exec], e.buf);
    }
  }

  lemma {:induction false} RunCarries(es: seq<Event>, u: nat)
    ensures Carried(Run(es), u, Delivered(es, u))
  {
    if es != [] {
      var front, e := es[..|es| - 1], es[|es| - 1];
      RunCarries(front, u);
      if Possible(Run(front), e) {
        StepCarries(Run(front), e, u, Delivered(front, u));
      } else {
        assert Delivered(front, u) + [] == Delivered(front, u);
      }
    }
  }

  /** The stdout frames of one exec, in order: consecutive numbers from 0, 1 to CHUNK bytes each, and
      together exactly what git wrote; at most one git-exit, none while the exec runs. */
  lemma FramesCarryOutput(es: seq<Event>, u: nat)
    requires u in Run(es).execs
    ensures var ex := Run(es).execs[u];
      && Joined(ex.stdout) == Delivered(es, u)
      && (forall i :: 0 <= i < |ex.stdout| ==>
            ex.stdout[i].seqNo == i && ex.stdout[i].execId == ex.execId && 1 <= |ex.stdout[i].data| <= CHUNK)
      && ex.exits <= if ex.done then 1 else 0
  {
    RunCarries(es, u);
    assert ExecOk(Run(es).execs[u]);
    forall i | 0 <= i < |Run(es).execs[u].stdout| ensures FrameOk(Run(es).execs[u].stdout[i], Run(es).execs[u].execId, i) {}
  }

  // ---- the registry of one connection

  lemma ChunkStep(ex: Exec, buf: Bytes, k: nat, off: nat, hi: nat)
    requires off == k * CHUNK && off < |buf| && hi == if off + CHUNK < |buf| then off + CHUNK else |buf|
    ensures SentAll(ex, buf[..hi]) == SentOne(SentAll(ex, buf[..off]), buf[off..hi])
  {
    assert (hi - 1) / CHUNK == k;
    assert buf[..hi][..off] == buf[..off] && buf[..hi][off..] == buf[off..hi];
  }

  class GitExecs {
    var execs: map<nat, Exec>
    var registry: map<string, nat>
    var next: nat

    function Now(): State
      reads this
    {
      State(execs, registry, next)
    }

    constructor ()
      ensures Now() == EMPTY && Known(Now())
    {
      execs, registry, next := map[], map[], 0;
    }

    method StartExec(id: string, service: string) returns (refusal: Option<Refusal>)
      requires Known(Now())
      modifies this
      ensures Now() == Step(old(Now()), Start(id, service)) && refusal == Refused(old(Now()), id, service)
    {
      var wellFormed := ValidId(id);
      if !wellFormed { return Some(InvalidId); }
      if id in registry { return Some(AlreadyRunning); }
      if |registry| >= MAX_EXECS { return Some(TooMany); }
      if service != "upload-pack" && service != "receive-pack" { return Some(UnknownService); }
      execs := execs[next := NewExec(id)];
      registry, next := registry[id := next], next + 1;
      return None;
    }

    method SendPart(u: nat, part: Bytes)
      requires u in execs
      modifies this`execs
      ensures execs == old(execs)[u := SentOne(old(execs[u]), part)]
    {
      var ex := execs[u];
      execs := execs[u := ex.(outUnacked := ex.outUnacked + |part|)];
      ex := execs[u];
      execs := execs[u := ex.(seqNo := ex.seqNo + 1, output := ex.output + part,
        stdout := ex.stdout + [Frame(ex.execId, ex.seqNo, part)])];
    }

    method SendParts(u: nat, buf: Bytes)
      requires u in execs
      modifies this`execs
      ensures execs == old(execs)[u := SentAll(old(execs[u]), buf)]
    {
      ghost var was, k := execs, 0;
      var off, hi := 0, 0;
      while off < |buf|
        invariant off == k * CHUNK && hi == if off < |buf| then off else |buf|
        invariant execs == was[u := SentAll(was[u], buf[..hi])]
      {
        hi := if off + CHUNK < |buf| then off + CHUNK else |buf|;
        ChunkStep(was[u], buf, k, off, hi);
        SendPart(u, buf[off..hi]);
        off, k := off + CHUNK, k + 1;
      }
      assert buf[..|buf|] == buf;
    }

    method OnStdout(u: nat, buf: Bytes)
      requires Known(Now()) && u in execs && !execs[u].paused
      modifies this`execs
      ensures Now() == Step(old(Now()), Data(u, buf))
    {
      SendParts(u, buf);
      if execs[u].outUnacked >= WINDOW && !execs[u].paused {
        execs := execs[u := execs[u].(paused := true)];
      }
    }

    /** The ack of a git-stdin frame; false when the id names no running exec. */
    method OnStdin(id: string, n: nat) returns (known: bool)
      requires Known(Now())
      modifies this`execs
      ensures Now() == Step(old(Now()), Ack(id, n)) && known == (id in registry)
    {
      if id !in registry { return false; }
      var u := registry[id];
      if n > 0 {
        var left := execs[u].outUnacked - n;
        execs := execs[u := execs[u].(outUnacked := if left < 0 then 0 else left, acked := execs[u].acked + n)];
        if execs[u].paused && execs[u].outUnacked < WINDOW / 2 {
          execs := execs[u := execs[u].(paused := false)];
        }
      }
      return true;
    }

    method FinishExec(u: nat)
      requires Known(Now()) && u in execs
      modifies this
      ensures Now() == Step(old(Now()), Finish(u))
    {
      if execs[u].done { return; }
      registry := registry - {execs[u].execId};
      execs := execs[u := execs[u].(done := true, exits := execs[u].exits + 1)];
    }

    method CloseOne(id: string)
      requires id in registry && registry[id] in execs
      modifies this
      ensures execs == old(execs)[old(registry[id]) := Done(old(execs[registry[id]]), true)]
      ensures registry == old(registry) - {id} && next == old(next)
    {
      var u := registry[id];
      execs := execs[u := execs[u].(done := true)];
      registry := registry - {id};
    }

    method CloseRegistered()
      requires Registered(Now())
      modifies this
      ensures registry == map[] && execs.Keys == old(execs.Keys) && next == old(next)
      ensures forall u :: u in execs ==> execs[u] == ClosedUnless(old(execs)[u], map[])
    {
      ghost var was := Now();
      while registry.Keys != {}
        invariant registry.Keys <= was.registry.Keys && execs.Keys == was.execs.Keys && next == was.next
        invariant forall id :: id in registry ==> registry[id] == was.registry[id]
        invariant forall u :: u in execs ==> execs[u] == ClosedUnless(was.execs[u], registry)
        decreases registry.Keys
      {
        var id :| id in registry.Keys;
        ClosedNext(was.execs, execs, registry, id, registry[id]);
        CloseOne(id);
      }
      assert registry == map[];
    }

    method CloseAllExecs()
      requires Registered(Now()) && Known(Now())
      modifies this
      ensures Now() == Step(old(Now()), CloseAll)
    {
      CloseRegistered();
      assert execs == Step(old(Now()), CloseAll).execs;
    }
  }

  /** Closing one more exec leaves one fewer registered. */
  lemma ClosedNext(was: map<nat, Exec>, execs: map<nat, Exec>, registry: map<string, nat>, id: string, u: nat)
    requires u in was && execs.Keys == was.Keys && was[u].execId == id && !was[u].done && id in registry
    requires forall v :: v in execs ==> execs[v] == ClosedUnless(was[v], registry)
    requires forall v :: v in was && !was[v].done && was[v].execId == id ==> v == u
    ensures forall v :: v in execs ==> execs[u := Done(execs[u], true)][v] == ClosedUnless(was[v], registry - {id})
  {}

  function ClosedUnless(ex: Exec, registry: map<string, nat>): Exec {
    if ex.done || ex.execId in registry then ex else Done(ex, true)
  }
}
