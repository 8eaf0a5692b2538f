/** rotation.js and its callers in agent.js: replacing the agent's credentials over a lossy channel. */
module Rotation {
  import opened Options

  datatype Pair = Pair(token: string, secret: string) {
    predicate Usable() {
      token != "" && secret != ""
    }

    predicate LongEnough() {
      |token| >= MIN_CRED_LEN && |secret| >= MIN_CRED_LEN
    }
  }

  const MIN_CRED_LEN: nat := 32

  /** The drive's configuration, in memory or in the folder's config file. */
  datatype Config = Config(driveId: string, pair: Pair, previous: Option<Pair>)

  /** The server's pair is this configuration's pair or its fallback. */
  predicate Holds(c: Config, stored: Pair) {
    stored == c.pair || c.previous == Some(stored)
  }

  // ---- what each operation does to a configuration

  function Rotated(drive: Config, next: Pair): Config {
    Config(drive.driveId, next, Some(drive.pair))
  }

  function Reverted(drive: Config): Option<Config> {
    if drive.previous.Some? && drive.previous.value.Usable()
    then Some(Config(drive.driveId, drive.previous.value, None))
    else None
  }

  function Committed(drive: Config): Config {
    drive.(previous := None)
  }

  function AdoptedFrom(drive: Config, disk: Option<Config>): Option<Config> {
    if disk.Some? && disk.value.driveId == drive.driveId && disk.value.pair.token != drive.pair.token
    then Some(drive.(pair := disk.value.pair))
    else None
  }

  datatype Change = Change(previousSecret: string, next: Config)

  class Agent {
    var drive: Config
    /** The config file; None while it is missing or unreadable. */
    var file: Option<Config>

    constructor (drive: Config)
      ensures this.drive == drive && file == Some(drive)
    {
      this.drive, file := drive, Some(drive);
    }

    /** Persists the new pair with the current one as its fallback; the pair in memory waits for Adopt. */
    method ApplyRotation(next: Pair) returns (change: Option<Change>)
      modifies this`file
      ensures change.Some? <==> |next.token| >= 32 && |next.secret| >= 32
      ensures change.Some? ==> file == Some(change.value.next) && change.value.next == Config(drive.driveId, next, Some(drive.pair))
      ensures change.Some? ==> change.value.previousSecret == drive.pair.secret
      ensures change.None? ==> file == old(file)
    {
      if |next.token| < MIN_CRED_LEN || |next.secret| < MIN_CRED_LEN { return None; }
      var previous := drive.pair;
      file := Some(drive.(pair := next, previous := Some(previous)));
      change := Some(Change(previous.secret, Config(drive.driveId, next, Some(previous))));
    }

    method Adopt(change: Change)
      modifies this`drive
      ensures drive == Config(old(drive.driveId), change.next.pair, change.next.previous)
    {
      drive := drive.(pair := change.next.pair);
      drive := drive.(previous := change.next.previous);
    }

    method RevertRotation() returns (done: bool)
      modifies this
      ensures done <==> old(drive).previous.Some? && old(drive).previous.value.token != "" && old(drive).previous.value.secret != ""
      ensures done ==> drive == Config(old(drive).driveId, old(drive).previous.value, None) && file == Some(drive)
      ensures !done ==> drive == old(drive) && file == old(file)
    {
      var prev := drive.previous;
      if prev.None? || prev.value.token == "" || prev.value.secret == "" { return false; }
      drive := drive.(pair := prev.value);
      drive := drive.(previous := None);
      file := Some(drive);
      return true;
    }

    method CommitRotation() returns (done: bool)
      modifies this
      ensures done <==> old(drive).previous.Some?
      ensures drive == Config(old(drive).driveId, old(drive).pair, None) && file == if done then Some(drive) else old(file)
    {
      if drive.previous.None? { return false; }
      drive := drive.(previous := None);
      file := Some(drive);
      return true;
    }

    method AdoptConfigOnDisk() returns (done: bool)
      modifies this`drive
      ensures done <==> file.Some? && file.value.driveId == old(drive).driveId && file.value.pair.token != old(drive).pair.token
      ensures drive == if done then Config(old(drive).driveId, file.value.pair, old(drive).previous) else old(drive)
    {
      if file.None? || file.value.driveId != drive.driveId { return false; }
      if file.value.pair.token == drive.pair.token { return false; }
      drive := drive.(pair := file.value.pair);
      return true;
    }
  }

  // ---- the protocol: one agent, its config file, the server, and the channel between them

  datatype State = State(
    stored: Pair,            // the server's pair
    ok: Option<Pair>,        // the agent's ok to this pair is on its way
    running: bool,
    connected: bool,
    mem: Config,
    pending: Option<Config>, // written to the file, not yet answered or adopted
    live: bool,              // the connection that asked for the pending rotation is still up
    disk: Config,
    grace: Option<string>,   // the old secret, still accepted on requests
    graceOver: bool,         // the grace window of the last rotation has ended
    stranded: bool           // a refused handshake found no fallback pair
  )

  datatype Event =
    | Rotate(next: Pair)
    | Reply(sent: bool)
    | TakeOk
    | LoseOk
    | Drop
    | GraceEnds
    | Crash
    | Restart
    | Handshake(hello: bool, saved: bool) // the hello arrives; a config write it leads to completes

  function Start(drive: Config): State {
    State(drive.pair, None, true, false, drive, None, false, drive, None, false, false)
  }

  function Crashed(s: State): State {
    s.(running := false, connected := false, pending := None, live := false, grace := None)
  }

  /** The agent's configuration becomes `c`, in memory and then, unless it crashes first, on disk. */
  function Save(s: State, c: Config, saved: bool): State {
    if saved then s.(mem := c, disk := c) else Crashed(s.(mem := c))
  }

  /** A request signed with the server's secret is accepted. */
  predicate RequestVerifies(s: State) {
    s.mem.pair.secret == s.stored.secret || s.grace == Some(s.stored.secret)
  }

  predicate Possible(s: State, e: Event) {
    match e
    case Rotate(_) => s.running && s.connected && s.pending.None? && RequestVerifies(s)
    case Reply(_) => s.running && s.pending.Some?
    case TakeOk => s.ok.Some?
    case LoseOk => s.ok.Some?
    case Drop => s.connected
    case GraceEnds => s.grace.Some?
    case Crash => s.running
    case Restart => !s.running
    case Handshake(_, _) => s.running && !s.connected && s.ok.None? // an ok is taken or lost by then
  }

  /** The server starts a rotation only to a token it does not hold, when the agent's pair is its own. */
  predicate ServerMay(s: State, e: Event) {
    e.Rotate? ==> s.mem.pair == s.stored && s.ok.None? && e.next.token != s.stored.token
  }

  predicate Accepted(s: State) {
    s.mem.pair.token == s.stored.token
  }

  function Step(s: State, e: Event): State {
    match e
    case Rotate(next) =>
      if next.LongEnough() then s.(pending := Some(Rotated(s.mem, next)), disk := Rotated(s.mem, next), live := true) else s
    case Reply(sent) =>
      if s.pending.None? then s
      else s.(mem := s.pending.value, pending := None, grace := Some(s.mem.pair.secret), graceOver := false,
              ok := if sent && s.live then Some(s.pending.value.pair) else s.ok)
    case TakeOk => if s.ok.Some? then s.(stored := s.ok.value, ok := None) else s
    case LoseOk => s.(ok := None)
    case Drop => s.(connected := false, live := false)
    case GraceEnds => s.(grace := None, graceOver := true)
    case Crash => Crashed(s)
    case Restart => s.(running := true, mem := s.disk)
    case Handshake(hello, saved) =>
      if Accepted(s) then
        if !hello then s
        else if s.mem.previous.None? then s.(connected := true)
        else Save(s.(connected := true), Committed(s.mem), saved)
      else if Reverted(s.mem).Some? then Save(s, Reverted(s.mem).value, saved)
      else s.(stranded := true,
              mem := if AdoptedFrom(s.mem, Some(s.disk)).Some? then AdoptedFrom(s.mem, Some(s.disk)).value else s.mem)
  }

  function Run(s: State, es: seq<Event>): State
  {
    if es == [] then s else Step(Run(s, es[..|es| - 1]), es[|es| - 1])
  }

  predicate Legal(s: State, es: seq<Event>) {
    es == [] ||
    var before := Run(s, es[..|es| - 1]);
    Legal(s, es[..|es| - 1]) && Possible(before, es[|es| - 1]) && ServerMay(before, es[|es| - 1])
  }

  /** A usable configuration that holds the server's pair, and whose two tokens tell its pairs apart. */
  predicate Sound(c: Config, stored: Pair) {
    && Holds(c, stored) && c.pair.Usable()
    && (c.previous.Some? ==> c.previous.value.Usable() && c.previous.value.token != c.pair.token)
  }

  /** The invariant of every run. */
  predicate Safe(s: State) {
    && !s.stranded && Sound(s.disk, s.stored) && (s.live ==> s.connected) && (s.connected ==> s.running)
    && (s.running ==> Sound(s.mem, s.stored))
    && (s.pending.Some? ==>
          && s.running && s.ok.None? && s.mem.pair == s.stored
          && Sound(s.pending.value, s.stored) && s.pending.value.previous == Some(s.stored)
          && (s.live ==> s.disk == s.pending.value))
    && (s.ok.Some? ==>
          && s.disk.pair == s.ok.value && s.disk.previous == Some(s.stored)
          && (s.running ==> s.mem == s.disk))
    && (s.running && s.connected && s.mem.pair != s.stored ==> s.graceOver || s.grace == Some(s.stored.secret))
  }

  lemma RotateSafe(s: State, next: Pair)
    requires Safe(s) && Possible(s, Rotate(next)) && ServerMay(s, Rotate(next))
    ensures Safe(Step(s, Rotate(next)))
  {}

  lemma ReplySafe(s: State, sent: bool)
    requires Safe(s) && Possible(s, Reply(sent))
    ensures Safe(Step(s, Reply(sent)))
  {}

  lemma OkSafe(s: State)
    requires Safe(s) && s.ok.Some?
    ensures Safe(Step(s, TakeOk)) && Safe(Step(s, LoseOk))
  {}

  lemma LossSafe(s: State)
    requires Safe(s)
    ensures Safe(Step(s, Drop)) && Safe(Step(s, GraceEnds)) && Safe(Crashed(s))
  {}

  lemma RestartSafe(s: State)
    requires Safe(s) && !s.running
    ensures Safe(Step(s, Restart))
  {}

  lemma HandshakeSafe(s: State, hello: bool, saved: bool)
    requires Safe(s) && Possible(s, Handshake(hello, saved))
    ensures Safe(Step(s, Handshake(hello, saved)))
  {
    if Accepted(s) {
      assert s.mem.pair == s.stored;
    } else {
      assert s.mem.previous == Some(s.stored) && Reverted(s.mem).Some?;
    }
  }

  lemma StepSafe(s: State, e: Event)
    requires Safe(s) && Possible(s, e) && ServerMay(s, e)
    ensures Safe(Step(s, e))
  {
    match e
    case Rotate(next) => RotateSafe(s, next);
    case Reply(sent) => ReplySafe(s, sent);
    case TakeOk => OkSafe(s);
    case LoseOk => OkSafe(s);
    case Drop => LossSafe(s);
    case GraceEnds => LossSafe(s);
    case Crash => LossSafe(s);
    case Restart => RestartSafe(s);
    case Handshake(hello, saved) => HandshakeSafe(s, hello, saved);
  }

  lemma {:induction false} RunSafe(s: State, es: seq<Event>)
    requires Safe(s) && Legal(s, es)
    ensures Safe(Run(s, es))
  {
    if es != [] {
      RunSafe(s, es[..|es| - 1]);
      StepSafe(Run(s, es[..|es| - 1]), es[|es| - 1]);
    }
  }

  /** With replies lost, connections dropped and crashes anywhere, the server's pair stays the agent's pair
      or its fallback, in memory and on disk; no refused handshake finds the fallback missing. */
  lemma NeverLockedOut(drive: Config, es: seq<Event>)
    requires drive.pair.Usable() && Legal(Start(drive), es)
    requires drive.previous.Some? ==> drive.previous.value.Usable() && drive.previous.value.token != drive.pair.token
    ensures var s := Run(Start(drive), es);
      && Holds(s.disk, s.stored)
      && (s.running ==> Holds(s.mem, s.stored))
      && !s.stranded
  {
    RunSafe(Start(drive), es);
  }

  /** An accepted handshake means the two ends hold the same secret too; a refused one is followed, once
      the agent has reverted or come back from a crash, by an accepted one after at most one more revert. */
  lemma OneRevertSuffices(drive: Config, es: seq<Event>, hello: bool, saved: bool)
    requires drive.pair.Usable() && Legal(Start(drive), es)
    requires drive.previous.Some? ==> drive.previous.value.Usable() && drive.previous.value.token != drive.pair.token
    requires Possible(Run(Start(drive), es), Handshake(hello, saved))
    ensures var s := Run(Start(drive), es);
      var after := Step(s, Handshake(hello, saved));
      && (Accepted(s) <==> s.mem.pair == s.stored)
      && (!Accepted(s) && saved ==> after.running && Accepted(after) && after.mem.pair == s.stored && after.disk == after.mem)
      && (!Accepted(s) && !saved ==>
            var back := Step(after, Restart);
            && Possible(after, Restart) && Holds(after.disk, s.stored) && !back.connected
            && (Accepted(back) || Accepted(Step(back, Handshake(hello, true)))))
  {
    RunSafe(Start(drive), es);
  }

  /** On a live connection requests keep verifying through a rotation, its ok taken or lost, until the
      grace window ends. */
  lemma GraceCoversTheSwitch(drive: Config, es: seq<Event>)
    requires drive.pair.Usable() && Legal(Start(drive), es)
    requires drive.previous.Some? ==> drive.previous.value.Usable() && drive.previous.value.token != drive.pair.token
    ensures var s := Run(Start(drive), es);
      s.running && s.connected && !s.graceOver ==> RequestVerifies(s)
  {
    RunSafe(Start(drive), es);
  }

  /** An accepted handshake, its hello and any write completed, leaves the server's pair alone: connected, with
      no fallback in memory, nor on disk if there was one. */
  lemma HandshakeCommits(s: State)
    requires Safe(s) && Possible(s, Handshake(true, true)) && Accepted(s)
    ensures var t := Step(s, Handshake(true, true));
      && t.connected && t.running && t.stored == s.stored && t.mem == Config(s.mem.driveId, s.stored, None)
      && t.disk == if s.mem.previous.None? then s.disk else t.mem
  {}

  /** A refused agent with nothing to fall back to comes back with the file's pair, if another program has
      put the server's there. */
  lemma FileRescues(s: State, hello: bool, saved: bool)
    requires !Accepted(s) && (s.mem.previous.None? || !s.mem.previous.value.Usable())
    requires s.disk.driveId == s.mem.driveId && s.disk.pair == s.stored
    ensures var t := Step(s, Handshake(hello, saved));
      t.mem == Config(s.mem.driveId, s.stored, s.mem.previous) && Accepted(t) && t.stored == s.stored
  {}

  /** Once the grace window is over a request verifies only with the agent's own secret; a crash leaves
      nothing but the file, which a restart reads. */
  lemma GraceAndCrashEnd(s: State)
    ensures RequestVerifies(Step(s, GraceEnds)) <==> s.mem.pair.secret == s.stored.secret
    ensures var t := Step(s, Crash);
      !t.running && !t.connected && t.pending.None? && t.grace.None? && t.disk == s.disk && t.stored == s.stored
    ensures Step(s, Restart).running && Step(s, Restart).mem == s.disk
  {}

  /** A whole rotation: asked for on a live connection, answered, its ok taken. Both ends then hold the new
      pair, the old one is the fallback until the next handshake, and gone after it. */
  lemma RotationCompletes(drive: Config, next: Pair) returns (es: seq<Event>)
    requires drive.pair.Usable() && drive.previous.None? && next.LongEnough() && next.token != drive.pair.token
    ensures es == [Handshake(true, true), Rotate(next), Reply(true), TakeOk, Drop, Handshake(true, true)]
    ensures var before, after := Run(Start(drive), es[..5]), Run(Start(drive), es);
      && Feasible(Start(drive), es)
      && before.stored == next && before.mem == before.disk == Config(drive.driveId, next, Some(drive.pair))
      && after.stored == next && after.mem == after.disk == Config(drive.driveId, next, None) && after.connected
  {
    var s0 := Start(drive);
    es := [];
    Extend(s0, es, Handshake(true, true)); es := es + [Handshake(true, true)];
    Extend(s0, es, Rotate(next)); es := es + [Rotate(next)];
    Extend(s0, es, Reply(true)); es := es + [Reply(true)];
    Extend(s0, es, TakeOk); es := es + [TakeOk];
    Extend(s0, es, Drop); es := es + [Drop];
    var five := es;
    Extend(s0, es, Handshake(true, true)); es := es + [Handshake(true, true)];
    assert es[..5] == five;
  }

  // ---- why the server must not rotate while the pairs differ

  /** A completed rotation leaves the agent a pair the server holds exactly when its own pair was the
      server's to begin with, or the server already holds the new one. */
  lemma RotationKeepsIff(s: State, next: Pair, sent: bool)
    requires s.running && s.pending.None? && next.LongEnough()
    ensures Holds(Step(Step(s, Rotate(next)), Reply(sent)).mem, s.stored) <==> s.mem.pair == s.stored || next == s.stored
    ensures Step(Step(s, Rotate(next)), Reply(sent)).stored == s.stored
  {}

  /** Every event of the run is possible, whatever the server may do. */
  predicate Feasible(s: State, es: seq<Event>) {
    es == [] || (Feasible(s, es[..|es| - 1]) && Possible(Run(s, es[..|es| - 1]), es[|es| - 1]))
  }

  lemma Extend(s: State, es: seq<Event>, e: Event)
    requires Feasible(s, es) && Possible(Run(s, es), e)
    ensures Feasible(s, es + [e]) && Run(s, es + [e]) == Step(Run(s, es), e)
  {
    assert (es + [e])[..|es|] == es;
  }

  /** A second rotation accepted through the grace window after a lost ok overwrites the only copy of the
      server's pair: two refused handshakes later the agent has nothing left to fall back to. */
  lemma SecondRotationStrands(drive: Config, b: Pair, c: Pair) returns (es: seq<Event>)
    requires drive.pair.Usable() && drive.previous.None? && b.LongEnough() && c.LongEnough()
    requires drive.pair.token != b.token && drive.pair.token != c.token && b.token != c.token
    ensures Feasible(Start(drive), es) && !Legal(Start(drive), es)
    ensures var s := Run(Start(drive), es);
      s.stranded && s.stored == drive.pair && !Holds(s.mem, s.stored) && !Holds(s.disk, s.stored)
    ensures |es| > 4 && es[4] == Rotate(c)
    ensures var at := Run(Start(drive), es[..4]);
      at.mem.pair != at.stored && at.grace == Some(at.stored.secret) && RequestVerifies(at)
  {
    var s0 := Start(drive);
    var hello := Handshake(true, true);
    es := [];
    Extend(s0, es, hello); es := es + [hello];
    Extend(s0, es, Rotate(b)); es := es + [Rotate(b)];
    Extend(s0, es, Reply(true)); es := es + [Reply(true)];
    Extend(s0, es, LoseOk); es := es + [LoseOk];
    Extend(s0, es, Rotate(c));
    var four, prefix := es, es + [Rotate(c)];
    assert prefix[..|es|] == es;
    assert !ServerMay(Run(s0, es), Rotate(c)) && !Legal(s0, prefix);
    es := prefix;
    Extend(s0, es, Reply(false)); StillIllegal(s0, es, Reply(false)); es := es + [Reply(false)];
    Extend(s0, es, Drop); StillIllegal(s0, es, Drop); es := es + [Drop];
    Extend(s0, es, hello); StillIllegal(s0, es, hello); es := es + [hello];
    Extend(s0, es, hello); StillIllegal(s0, es, hello); es := es + [hello];
    assert es[..4] == four;
  }

  lemma StillIllegal(s: State, es: seq<Event>, e: Event)
    requires !Legal(s, es)
    ensures !Legal(s, es + [e])
  {
    assert (es + [e])[..|es|] == es;
  }
}
