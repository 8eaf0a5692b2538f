/** Claiming one request on a folder several hosts serve: processRequest and exclusiveWrite of afan-bridge.js. */
module Claiming {
  /** The request's result file. A file that cannot be parsed reads as no result, but it exists. */
  datatype Result =
    | Absent
    | Garbage
    | Running(device: nat)
    | Terminal(device: nat, text: string)

  /** Where one host's run of the request stands. */
  datatype Place =
    | Idle
    | Asked(key: string)                  // the request has been read
    | Free(key: string)                   // and no result was seen
    | Moving(key: string, text: Result)   // no hard links: nothing was there a moment ago, the rename is next
    | Holding(key: string)                // the result says this device is running it
    | Sent(key: string)                   // message/send has gone out

  datatype Message = Message(device: nat, messageId: string)

  datatype State = State(hardLinks: bool, key: string, result: Result, hosts: map<nat, Place>, sends: seq<Message>)

  datatype Act =
    | Read
    | Look(unreadable: bool) // reading the result file may fail
    | Answer(text: string)   // a terminal result without a claim: refused, canceled, expired, answered before
    | Claim
    | Rename
    | Send
    | Finish(text: string)
    | Crash

  datatype Event = Host(device: nat, act: Act) | NewKey(key: string)

  function At(s: State, d: nat): Place {
    if d in s.hosts then s.hosts[d] else Idle
  }

  function Move(s: State, d: nat, p: Place): State {
    s.(hosts := s.hosts[d := p])
  }

  /** After its file has been created: a claim is held, an answer ends the run. */
  function After(key: string, text: Result): Place {
    if text.Running? then Holding(key) else Idle
  }

  /** exclusiveWrite: one step with hard links; without them, a look and then a rename. */
  function Create(s: State, d: nat, key: string, text: Result): State {
    if !s.result.Absent? then Move(s, d, Idle)
    else if s.hardLinks then Move(s, d, After(key, text)).(result := text)
    else Move(s, d, Moving(key, text))
  }

  function Seen(r: Result, d: nat, unreadable: bool, key: string): Place {
    if unreadable || r.Absent? || r.Garbage? then Free(key)
    else if r == Running(d) then Holding(key)
    else Idle
  }

  function Step(s: State, e: Event): State {
    match e
    case NewKey(key) => s.(key := key)
    case Host(d, act) =>
      var p := At(s, d);
      match act
      case Read => if p.Idle? then Move(s, d, Asked(s.key)) else s
      case Look(unreadable) => if p.Asked? then Move(s, d, Seen(s.result, d, unreadable, p.key)) else s
      case Answer(text) => if p.Free? then Create(s, d, p.key, Terminal(d, text)) else s
      case Claim => if p.Free? then Create(s, d, p.key, Running(d)) else s
      case Rename => if p.Moving? then Move(s, d, After(p.key, p.text)).(result := p.text) else s
      case Send => if p.Holding? then Move(s, d, Sent(p.key)).(sends := s.sends + [Message(d, p.key)]) else s
      case Finish(text) => if p.Holding? || p.Sent? then Move(s, d, Idle).(result := Terminal(d, text)) else s
      case Crash => Move(s, d, Idle)
  }

  function Start(hardLinks: bool, key: string, result: Result): State {
    State(hardLinks, key, result, map[], [])
  }

  function Run(s: State, es: seq<Event>): State {
    if es == [] then s else Step(Run(s, es[..|es| - 1]), es[|es| - 1])
  }

  // ---- with hard links

  predicate Valid(s: State) {
    && s.hardLinks
    && (forall d :: d in s.hosts ==>
          !s.hosts[d].Moving? && (s.hosts[d].Holding? || s.hosts[d].Sent? ==> s.result == Running(d)))
    && (forall i :: 0 <= i < |s.sends| ==> Owner(s.result, s.sends[i].device))
  }

  /** The device a result names. */
  predicate Owner(r: Result, d: nat) {
    (r.Running? || r.Terminal?) && r.device == d
  }

  lemma StepValid(s: State, e: Event)
    requires Valid(s)
    ensures Valid(Step(s, e))
  {}

  lemma {:induction false} RunValid(s: State, es: seq<Event>)
    requires Valid(s)
    ensures Valid(Run(s, es))
  {
    if es != [] {
      RunValid(s, es[..|es| - 1]);
      StepValid(Run(s, es[..|es| - 1]), es[|es| - 1]);
    }
  }

  predicate OneSender(s: State) {
    forall i, j :: 0 <= i < |s.sends| && 0 <= j < |s.sends| ==> s.sends[i].device == s.sends[j].device
  }

  /** Whatever the result file held at first, and whoever crashes and restarts: at most one device ever
      sends the request, and it sends only while the result says that it is running it. */
  lemma OneDeviceSends(key: string, result: Result, es: seq<Event>, e: Event)
    ensures var s := Run(Start(true, key, result), es);
      && OneSender(s)
      && (|Step(s, e).sends| > |s.sends| ==> e.Host? && s.result == Running(e.device) && Step(s, e).result == s.result)
  {
    RunValid(Start(true, key, result), es);
  }

  /** How a result file may change: absent to running to terminal, or straight to terminal. */
  predicate Advances(from: Result, to: Result) {
    || from == to
    || (from.Absent? && (to.Running? || to.Terminal?))
    || (from.Running? && to.Terminal? && to.device == from.device)
  }

  lemma StepAdvances(s: State, e: Event)
    requires Valid(s)
    ensures Advances(s.result, Step(s, e).result)
  {}

  /** Over any run the result only advances; so a terminal result is never rewritten, and neither is a
      file some other program left there. */
  lemma {:induction false} ResultAdvances(key: string, result: Result, es: seq<Event>, more: seq<Event>)
    ensures var s := Start(true, key, result);
      && Advances(Run(s, es).result, Run(s, es + more).result)
      && (Run(s, es).result.Terminal? || Run(s, es).result.Garbage? ==> Run(s, es + more).result == Run(s, es).result)
  {
    var s := Start(true, key, result);
    if more == [] {
      assert es + more == es;
    } else {
      ResultAdvances(key, result, es, more[..|more| - 1]);
      RunValid(s, es + more[..|more| - 1]);
      StepAdvances(Run(s, es + more[..|more| - 1]), more[|more| - 1]);
      assert (es + more)[..|es + more| - 1] == es + more[..|more| - 1];
    }
  }

  predicate KeyIs(p: Place, key: string) {
    !p.Idle? ==> p.key == key
  }

  predicate Keyed(s: State, key: string) {
    && s.key == key
    && (forall d :: d in s.hosts ==> KeyIs(s.hosts[d], key))
    && (forall i :: 0 <= i < |s.sends| ==> s.sends[i].messageId == key)
  }

  lemma StepKeyed(s: State, e: Event, key: string)
    requires Keyed(s, key) && !e.NewKey?
    ensures Keyed(Step(s, e), key)
  {}

  /** While the request's key is unchanged every send carries it as its messageId: a resumed run repeats
      the message it may have sent before the crash. Hard links are not needed for this. */
  lemma {:induction false} SameMessageId(hardLinks: bool, key: string, result: Result, es: seq<Event>)
    requires forall i :: 0 <= i < |es| ==> !es[i].NewKey?
    ensures Keyed(Run(Start(hardLinks, key, result), es), key)
  {
    if es != [] {
      SameMessageId(hardLinks, key, result, es[..|es| - 1]);
      StepKeyed(Run(Start(hardLinks, key, result), es[..|es| - 1]), es[|es| - 1], key);
    }
  }

  /** A run that starts after the request got a new key sends that key. */
  lemma NewKeyIsSent(key: string, other: string, d: nat) returns (es: seq<Event>)
    ensures es == [NewKey(other), Host(d, Read), Host(d, Look(false)), Host(d, Claim), Host(d, Send), Host(d, Finish("done"))]
    ensures var s := Run(Start(true, key, Absent), es);
      s.key == other && s.sends == [Message(d, other)] && s.result == Terminal(d, "done")
  {
    var s := Start(true, key, Absent);
    es := [];
    es := Next(s, es, NewKey(other));
    es := Next(s, es, Host(d, Read));
    es := Next(s, es, Host(d, Look(false)));
    es := Next(s, es, Host(d, Claim));
    es := Next(s, es, Host(d, Send));
    es := Next(s, es, Host(d, Finish("done")));
  }

  /** A crashed host that finds its own claim takes it up again. */
  lemma CrashedClaimResumes(key: string, result: Result, es: seq<Event>, d: nat)
    requires Run(Start(true, key, result), es).result == Running(d)
    ensures var s := Run(Start(true, key, result), es);
      At(Run(s, [Host(d, Crash), Host(d, Read), Host(d, Look(false))]), d) == Holding(s.key)
  {
    var s := Run(Start(true, key, result), es);
    var back := [Host(d, Crash), Host(d, Read), Host(d, Look(false))];
    Steps3(s, back[0], back[1], back[2]);
  }

  lemma Steps3(s: State, a: Event, b: Event, c: Event)
    ensures Run(s, [a, b, c]) == Step(Step(Step(s, a), b), c)
  {
    assert [a, b, c][..2] == [a, b] && [a, b][..1] == [a] && [a][..0] == [];
    assert Run(s, [a]) == Step(s, a);
    assert Run(s, [a, b]) == Step(Run(s, [a]), b);
  }

  // ---- without them

  lemma Append(s: State, es: seq<Event>, e: Event)
    ensures Run(s, es + [e]) == Step(Run(s, es), e)
  {
    assert (es + [e])[..|es|] == es;
  }

  /** Two hosts that both look before either renames both hold the claim, and both send. */
  lemma TwoHostsRace(key: string, a: nat, b: nat) returns (es: seq<Event>)
    requires a != b
    ensures !OneSender(Run(Start(false, key, Absent), es))
  {
    var s := Start(false, key, Absent);
    es := [];
    es := Next(s, es, Host(a, Read));
    es := Next(s, es, Host(b, Read));
    es := Next(s, es, Host(a, Look(false)));
    es := Next(s, es, Host(b, Look(false)));
    es := Next(s, es, Host(a, Claim));
    es := Next(s, es, Host(b, Claim));
    es := Next(s, es, Host(a, Rename));
    es := Next(s, es, Host(b, Rename));
    es := Next(s, es, Host(a, Send));
    es := Next(s, es, Host(b, Send));
    var sends := Run(s, es).sends;
    assert sends[0].device == a && sends[1].device == b;
  }

  lemma Next(s: State, es: seq<Event>, e: Event) returns (more: seq<Event>)
    ensures more == es + [e] && Run(s, more) == Step(Run(s, es), e)
  {
    more := es + [e];
    Append(s, es, e);
  }

  /** One sender in every run, exactly on a file system with hard links. */
  lemma OneSenderIffHardLinks(hardLinks: bool, key: string)
    ensures (forall es :: OneSender(Run(Start(hardLinks, key, Absent), es))) <==> hardLinks
  {
    if hardLinks {
      forall es ensures OneSender(Run(Start(true, key, Absent), es)) {
        OneDeviceSends(key, Absent, es, NewKey(key));
      }
    } else {
      var es := TwoHostsRace(key, 0, 1);
    }
  }

  // ---- one host, undisturbed: its code takes only steps of the protocol

  class Folder {
    var now: State

    constructor (hardLinks: bool, key: string, result: Result)
      ensures now == Start(hardLinks, key, result)
    {
      now := Start(hardLinks, key, result);
    }

    method Take(e: Event, ghost start: State, ghost done: seq<Event>) returns (ghost more: seq<Event>)
      requires now == Run(start, done)
      modifies this
      ensures now == Step(old(now), e) && now == Run(start, more)
    {
      more := Next(start, done, e);
      now := Step(now, e);
    }

    /** Creates the result file exactly when there is none. */
    method ExclusiveWrite(d: nat, text: Result, ghost start: State, ghost done: seq<Event>)
      returns (mine: bool, ghost more: seq<Event>)
      requires At(now, d).Free? && (text.Running? || text.Terminal?) && text.device == d && now == Run(start, done)
      modifies this
      ensures mine == old(now).result.Absent? && now.result == if mine then text else old(now).result
      ensures At(now, d) == if mine then After(At(old(now), d).key, text) else Idle
      ensures now.sends == old(now).sends && now == Run(start, more)
    {
      mine := now.result.Absent?;
      if text.Running? {
        more := Take(Host(d, Claim), start, done);
      } else {
        more := Take(Host(d, Answer(text.text)), start, done);
      }
      if mine && !now.hardLinks { more := Take(Host(d, Rename), start, more); }
    }

    /** One whole run: it answers exactly when there was no result, or its own claim was found; it sends at
        most once, and a result of another host, a terminal one or an unreadable file stays as it was. */
    method ProcessRequest(d: nat, unreadable: bool, settled: bool, sends: bool, text: string)
      returns (ran: bool, ghost steps: seq<Event>)
      requires At(now, d).Idle?
      modifies this
      ensures ran == (old(now).result.Absent? || (old(now).result == Running(d) && !unreadable))
      ensures now.result == if ran then Terminal(d, text) else old(now).result
      ensures now.sends == old(now).sends + if ran && !settled && sends then [Message(d, old(now).key)] else []
      ensures At(now, d) == Idle && now == Run(old(now), steps)
    {
      ghost var start := now;
      steps := Take(Host(d, Read), start, []);
      steps := Take(Host(d, Look(unreadable)), start, steps);
      ran := true;
      if At(now, d).Idle? { return false, steps; }
      if At(now, d).Free? {
        if settled {
          ran, steps := ExclusiveWrite(d, Terminal(d, text), start, steps);
          return;
        }
        ran, steps := ExclusiveWrite(d, Running(d), start, steps);
        if !ran { return; }
      }
      if !settled && sends { steps := Take(Host(d, Send), start, steps); }
      steps := Take(Host(d, Finish(text)), start, steps);
    }
  }
}
