/** writeFileSerialized of rpc.js: writes of one path follow each other through a chain of promises. */
module WriteChain {
  import opened Options

  datatype Phase =
    | Waiting                        // for the write before it
    | Writing                        // fsp.writeFile is under way
    | Done(ok: bool, cleaned: bool)  // its tail settled; cleaned once the tail's own step ran

  /** One call. `prev` is the call whose tail it waits for, if the map held one; `left` is history: what the
      write has made of the file so far, if anything. */
  datatype Call = Call(path: string, data: string, prev: Option<nat>, phase: Phase, left: Option<string>)

  /** The calls in order, the map from a path to the tail of its chain, and the files. */
  datatype State = State(calls: seq<Call>, chains: map<string, nat>, files: map<string, string>)

  datatype Event =
    | Write(path: string, data: string)
    | Start(call: nat)
    | Progress(call: nat, content: string) // the file as the write has left it so far
    | Finish(call: nat, ok: bool)
    | Cleanup(call: nat)

  predicate Possible(s: State, e: Event) {
    match e
    case Write(_, _) => true
    case Start(c) => c < |s.calls| && s.calls[c].phase.Waiting? && Released(s, s.calls[c].prev)
    case Progress(c, _) => c < |s.calls| && s.calls[c].phase.Writing?
    case Finish(c, _) => c < |s.calls| && s.calls[c].phase.Writing?
    case Cleanup(c) => c < |s.calls| && s.calls[c].phase.Done? && !s.calls[c].phase.cleaned
  }

  predicate Released(s: State, prev: Option<nat>) {
    prev.Some? && prev.value < |s.calls| ==> s.calls[prev.value].phase.Done?
  }

  function Step(s: State, e: Event): State
    requires Possible(s, e)
  {
    match e
    case Write(path, data) =>
      var prev := if path in s.chains then Some(s.chains[path]) else None;
      s.(calls := s.calls + [Call(path, data, prev, Waiting, None)], chains := s.chains[path := |s.calls|])
    case Start(c) => s.(calls := s.calls[c := s.calls[c].(phase := Writing)])
    case Progress(c, content) =>
      s.(calls := s.calls[c := s.calls[c].(left := Some(content))], files := s.files[s.calls[c].path := content])
    case Finish(c, ok) =>
      var call := s.calls[c];
      s.(calls := s.calls[c := call.(phase := Done(ok, false), left := if ok then Some(call.data) else call.left)],
         files := if ok then s.files[call.path := call.data] else s.files)
    case Cleanup(c) =>
      var call := s.calls[c];
      s.(calls := s.calls[c := call.(phase := Done(call.phase.ok, true))],
         chains := if call.path in s.chains && s.chains[call.path] == c then s.chains - {call.path} else s.chains)
  }

  // ---- the invariant

  predicate Same(s: State, b: nat, c: nat) {
    b < |s.calls| && c < |s.calls| && s.calls[b].path == s.calls[c].path
  }

  /** Every call waits for the call before it on its path; without one to wait for, all of them are done. */
  ghost predicate Linked(s: State, c: nat)
    requires c < |s.calls|
  {
    match s.calls[c].prev
    case None => forall b: nat :: b < c && Same(s, b, c) ==> s.calls[b].phase.Done?
    case Some(p) => p < c && Same(s, p, c) && forall b: nat :: p < b < c ==> !Same(s, b, c)
  }

  /** A call that has started comes after every earlier call on its path is done. */
  ghost predicate InOrder(s: State, c: nat)
    requires c < |s.calls|
  {
    !s.calls[c].phase.Waiting? ==> forall b: nat :: b < c && Same(s, b, c) ==> s.calls[b].phase.Done?
  }

  /** The map leads to the last call on the path, until that call is cleaned up. */
  ghost predicate Mapped(s: State, c: nat)
    requires c < |s.calls|
  {
    && (s.calls[c].path in s.chains && s.chains[s.calls[c].path] == c ==> !(s.calls[c].phase.Done? && s.calls[c].phase.cleaned))
    && (s.calls[c].path in s.chains ==> s.chains[s.calls[c].path] >= c)
    && (s.calls[c].path !in s.chains ==> s.calls[c].phase.Done? && (LastOf(s, c) ==> s.calls[c].phase.cleaned))
  }

  ghost predicate LastOf(s: State, c: nat) {
    forall d: nat :: c < d ==> !Same(s, c, d)
  }

  /** What the latest of these calls that left anything in the path's file left there. */
  function Left(calls: seq<Call>, path: string): Option<string> {
    if calls == [] then None
    else
      var last := calls[|calls| - 1];
      if last.path == path && last.left.Some? then last.left else Left(calls[..|calls| - 1], path)
  }

  /** A file holds what the latest call left in it, or what it held at first. */
  ghost predicate Contents(s: State, first: map<string, string>) {
    forall p ::
      match Left(s.calls, p)
      case None => (p in s.files <==> p in first) && (p in first ==> s.files[p] == first[p])
      case Some(content) => p in s.files && s.files[p] == content
  }

  ghost predicate Valid(s: State) {
    && (forall p :: p in s.chains ==> s.chains[p] < |s.calls| && s.calls[s.chains[p]].path == p)
    && (forall c: nat :: c < |s.calls| ==> Linked(s, c) && InOrder(s, c) && Mapped(s, c))
    && (forall c: nat :: c < |s.calls| && s.calls[c].left.Some? ==> !s.calls[c].phase.Waiting?)
    && (forall c: nat :: c < |s.calls| && s.calls[c].phase.Done? && s.calls[c].phase.ok ==> s.calls[c].left == Some(s.calls[c].data))
  }

  function Initial(files: map<string, string>): State {
    State([], map[], files)
  }

  lemma WriteValid(s: State, path: string, data: string)
    requires Valid(s)
    ensures Valid(Step(s, Write(path, data)))
  {
    var t, n := Step(s, Write(path, data)), |s.calls|;
    assert forall b: nat, c: nat :: b < n && c < n ==> (Same(t, b, c) <==> Same(s, b, c));
    forall c: nat | c < n ensures Linked(t, c) && InOrder(t, c) && Mapped(t, c) {
      assert Linked(s, c) && InOrder(s, c) && Mapped(s, c);
      if LastOf(t, c) {
        forall d: nat | c < d ensures !Same(s, c, d) { assert !Same(t, c, d); }
      }
    }
    forall b: nat | b < n && Same(t, b, n)
      ensures if path in s.chains then b <= s.chains[path] else s.calls[b].phase.Done?
    {
      assert Mapped(s, b);
    }
  }

  /** An event that changes one call's phase, never back to waiting or out of done, keeps the chain. */
  lemma ChainKept(s: State, t: State, c: nat)
    requires Valid(s) && c < |s.calls| == |t.calls| && t.calls == s.calls[c := t.calls[c]]
    requires t.calls[c].path == s.calls[c].path && t.calls[c].prev == s.calls[c].prev
    requires s.calls[c].phase.Done? ==> t.calls[c].phase.Done?
    requires t.calls[c].phase.Waiting? ==> s.calls[c].phase.Waiting?
    requires s.calls[c].phase.Waiting? && !t.calls[c].phase.Waiting? ==> Released(s, s.calls[c].prev)
    ensures forall b: nat :: b < |t.calls| ==> Linked(t, b) && InOrder(t, b)
  {
    assert forall a: nat, b: nat :: Same(t, a, b) <==> Same(s, a, b);
    forall b: nat | b < |t.calls| ensures Linked(t, b) && InOrder(t, b) {
      assert Linked(s, b) && InOrder(s, b);
      if b == c && s.calls[c].phase.Waiting? && !t.calls[c].phase.Waiting? { StartsInOrder(s, c); }
    }
  }

  lemma StartsInOrder(s: State, c: nat)
    requires Valid(s) && c < |s.calls| && Released(s, s.calls[c].prev)
    ensures forall b: nat :: b < c && Same(s, b, c) ==> s.calls[b].phase.Done?
  {
    assert Linked(s, c);
    if s.calls[c].prev.Some? {
      var p := s.calls[c].prev.value;
      assert InOrder(s, p);
      forall b: nat | b < c && Same(s, b, c) ensures s.calls[b].phase.Done? {
        if b < p { assert Same(s, b, p); }
      }
    }
  }

  lemma StartValid(s: State, c: nat)
    requires Valid(s) && Possible(s, Start(c))
    ensures Valid(Step(s, Start(c)))
  {
    var t := Step(s, Start(c));
    ChainKept(s, t, c);
    forall b: nat | b < |t.calls| ensures Mapped(t, b) {
      assert Mapped(s, b);
      LastBack(s, t, c, b);
    }
  }

  lemma LastBack(s: State, t: State, c: nat, b: nat)
    requires c < |s.calls| == |t.calls| && t.calls == s.calls[c := t.calls[c]] && t.calls[c].path == s.calls[c].path
    ensures LastOf(t, b) ==> LastOf(s, b)
  {
    if LastOf(t, b) {
      forall d: nat | b < d ensures !Same(s, b, d) { assert !Same(t, b, d); }
    }
  }

  /** Nothing later on the path is done while a call is being written. */
  lemma LaterNotDone(s: State, c: nat, b: nat)
    requires Valid(s) && c < b && Same(s, c, b) && s.calls[c].phase.Writing?
    ensures s.calls[b].phase.Waiting?
  {
    assert InOrder(s, b);
  }

  lemma ProgressValid(s: State, c: nat, content: string)
    requires Valid(s) && Possible(s, Progress(c, content))
    ensures Valid(Step(s, Progress(c, content)))
  {
    var t := Step(s, Progress(c, content));
    ChainKept(s, t, c);
    forall b: nat | b < |t.calls| ensures Mapped(t, b) {
      assert Mapped(s, b);
      LastBack(s, t, c, b);
    }
  }

  lemma FinishValid(s: State, c: nat, ok: bool)
    requires Valid(s) && Possible(s, Finish(c, ok))
    ensures Valid(Step(s, Finish(c, ok)))
  {
    var t := Step(s, Finish(c, ok));
    ChainKept(s, t, c);
    forall b: nat | b < |t.calls| ensures Mapped(t, b) {
      assert Mapped(s, b);
      LastBack(s, t, c, b);
    }
  }

  lemma CleanupValid(s: State, c: nat)
    requires Valid(s) && Possible(s, Cleanup(c))
    ensures Valid(Step(s, Cleanup(c)))
  {
    var t := Step(s, Cleanup(c));
    ChainKept(s, t, c);
    forall b: nat | b < |t.calls| ensures Mapped(t, b) {
      assert Mapped(s, b);
      LastBack(s, t, c, b);
      if b != c && s.calls[b].path == s.calls[c].path && s.calls[c].path in s.chains && s.calls[c].path !in t.chains {
        assert InOrder(s, c) && Mapped(s, c);
        assert b < c && Same(s, b, c) && Same(t, b, c);
      }
    }
  }

  lemma StepValid(s: State, e: Event)
    requires Valid(s) && Possible(s, e)
    ensures Valid(Step(s, e))
  {
    match e
    case Write(path, data) => WriteValid(s, path, data);
    case Start(c) => StartValid(s, c);
    case Progress(c, content) => ProgressValid(s, c, content);
    case Finish(c, ok) => FinishValid(s, c, ok);
    case Cleanup(c) => CleanupValid(s, c);
  }

  // ---- what the files hold

  /** Setting what call `c` left changes its own path alone, and there only what the calls after it do not hide. */
  lemma {:induction false} LeftSet(calls: seq<Call>, c: nat, call: Call, path: string)
    requires c < |calls| && call.path == calls[c].path
    requires call.left == calls[c].left || (call.left.Some? && forall d :: c < d < |calls| && calls[d].path == call.path ==> calls[d].left.None?)
    ensures Left(calls[c := call], path) == if path == call.path && call.left != calls[c].left then call.left else Left(calls, path)
  {
    var n := |calls| - 1;
    if c < n {
      LeftSet(calls[..n], c, call, path);
      assert calls[c := call][..n] == calls[..n][c := call];
    } else {
      assert calls[c := call][..n] == calls[..n];
    }
  }

  lemma StepContents(s: State, e: Event, first: map<string, string>)
    requires Valid(s) && Possible(s, e) && Contents(s, first)
    ensures Contents(Step(s, e), first)
  {
    var t := Step(s, e);
    if e.Write? {
      assert t.calls[..|s.calls|] == s.calls;
    } else {
      var c := e.call;
      if s.calls[c].phase.Writing? { LaterLeaveNothing(s, c); }
      forall p
        ensures Left(t.calls, p) ==
          if p == s.calls[c].path && t.calls[c].left != s.calls[c].left then t.calls[c].left else Left(s.calls, p)
      {
        LeftSet(s.calls, c, t.calls[c], p);
      }
      if s.calls[c].phase.Writing? && s.calls[c].left.Some? { LeftLatest(s.calls, c); }
    }
  }

  lemma LaterLeaveNothing(s: State, c: nat)
    requires Valid(s) && c < |s.calls| && s.calls[c].phase.Writing?
    ensures forall d :: c < d < |s.calls| && s.calls[d].path == s.calls[c].path ==> s.calls[d].left.None?
  {
    forall d | c < d < |s.calls| && s.calls[d].path == s.calls[c].path ensures s.calls[d].left.None? {
      LaterNotDone(s, c, d);
    }
  }

  lemma {:induction false} LeftLatest(calls: seq<Call>, c: nat)
    requires c < |calls| && calls[c].left.Some?
    requires forall d :: c < d < |calls| && calls[d].path == calls[c].path ==> calls[d].left.None?
    ensures Left(calls, calls[c].path) == calls[c].left
  {
    if c < |calls| - 1 { LeftLatest(calls[..|calls| - 1], c); }
  }

  lemma {:induction false} LeftSplits(a: seq<Call>, b: seq<Call>, path: string)
    ensures Left(a + b, path) == if Left(b, path).Some? then Left(b, path) else Left(a, path)
  {
    if b == [] {
      assert a + b == a;
    } else {
      LeftSplits(a, b[..|b| - 1], path);
      assert (a + b)[..|a + b| - 1] == a + b[..|b| - 1];
    }
  }

  // ---- runs

  /** The state after a run from any files; an event that cannot happen changes nothing. */
  function Run(files: map<string, string>, es: seq<Event>): (s: State)
    ensures Valid(s)
  {
    if es == [] then Initial(files)
    else
      var before, e := Run(files, es[..|es| - 1]), es[|es| - 1];
      if Possible(before, e) then
        StepValid(before, e);
        Step(before, e)
      else before
  }

  /** Never two writes of one path at once; and a write starts only when every earlier one on its path is
      done, whether or not it failed. */
  lemma OneAtATimeInOrder(files: map<string, string>, es: seq<Event>, b: nat, c: nat)
    requires Same(Run(files, es), b, c) && b < c
    ensures var s := Run(files, es);
      && !(s.calls[b].phase.Writing? && s.calls[c].phase.Writing?)
      && (!s.calls[c].phase.Waiting? ==> s.calls[b].phase.Done?)
  {
    assert InOrder(Run(files, es), c);
  }

  /** After any run each file holds what the latest call that left anything in it left there, whole or
      half-written, and a file no call touched holds what it held at first. */
  lemma {:induction false} ContentIsLatest(files: map<string, string>, es: seq<Event>)
    ensures Contents(Run(files, es), files)
  {
    if es != [] {
      var before, e := Run(files, es[..|es| - 1]), es[|es| - 1];
      ContentIsLatest(files, es[..|es| - 1]);
      if Possible(before, e) { StepContents(before, e, files); }
    }
  }

  /** A successful write is the file's content exactly when the calls after it left nothing in the file, or
      left it with the same data: failed writes that never touched the file do no harm, a failed write that
      truncated it does. */
  lemma LastSuccessStaysIff(files: map<string, string>, es: seq<Event>, c: nat)
    requires c < |Run(files, es).calls| && Run(files, es).calls[c].phase.Done? && Run(files, es).calls[c].phase.ok
    ensures var s := Run(files, es);
      var call := s.calls[c];
      && call.path in s.files
      && (s.files[call.path] == call.data <==>
            Left(s.calls[c + 1..], call.path) == None || Left(s.calls[c + 1..], call.path) == Some(call.data))
  {
    var s := Run(files, es);
    var call := s.calls[c];
    ContentIsLatest(files, es);
    assert s.calls == s.calls[..c + 1] + s.calls[c + 1..];
    LeftSplits(s.calls[..c + 1], s.calls[c + 1..], call.path);
    LeftLatest(s.calls[..c + 1], c);
  }

  lemma RunNext(files: map<string, string>, es: seq<Event>, e: Event) returns (more: seq<Event>)
    requires Possible(Run(files, es), e)
    ensures more == es + [e] && Run(files, more) == Step(Run(files, es), e)
  {
    more := es + [e];
    assert more[..|es|] == es;
  }

  /** One call that writes all it was given. */
  ghost predicate Wrote(s: State, path: string, a: string) {
    && |s.calls| == 1 && s.calls[0] == Call(path, a, None, Done(true, false), Some(a))
    && path in s.files && s.files[path] == a && path in s.chains && s.chains[path] == 0
  }

  lemma WriteWhole(files: map<string, string>, path: string, a: string) returns (es: seq<Event>)
    ensures Wrote(Run(files, es), path, a)
  {
    es := RunNext(files, [], Write(path, a));
    es := RunNext(files, es, Start(0));
    es := RunNext(files, es, Finish(0, true));
  }

  /** The last successful data can be lost: a write that truncates the file in place and then fails leaves it
      empty. */
  lemma FailedWriteClobbers(files: map<string, string>, path: string, a: string, b: string) returns (es: seq<Event>)
    requires a != ""
    ensures var s := Run(files, es);
      && |s.calls| == 2 && s.calls[0] == Call(path, a, None, Done(true, false), Some(a))
      && s.calls[1].path == path && s.calls[1].phase == Done(false, false)
      && path in s.files && s.files[path] == "" != a
  {
    es := WriteWhole(files, path, a);
    es := RunNext(files, es, Write(path, b));
    es := RunNext(files, es, Start(1));
    es := RunNext(files, es, Progress(1, ""));
    es := RunNext(files, es, Finish(1, false));
  }

  /** No write waits for ever on one that is over: a waiting call whose earlier calls on the path are all
      done can start. */
  lemma CanStart(files: map<string, string>, es: seq<Event>, c: nat)
    requires c < |Run(files, es).calls| && Run(files, es).calls[c].phase.Waiting?
    requires forall b: nat :: b < c && Same(Run(files, es), b, c) ==> Run(files, es).calls[b].phase.Done?
    ensures Possible(Run(files, es), Start(c))
  {
    assert Linked(Run(files, es), c);
  }

  /** The map holds an entry for a path exactly while the path's last call is unsettled or its cleanup step
      is still to run, and the entry is that call. */
  lemma EntryWhileNeeded(files: map<string, string>, es: seq<Event>, c: nat)
    requires c < |Run(files, es).calls| && LastOf(Run(files, es), c)
    ensures var s := Run(files, es);
      var call := s.calls[c];
      && (call.path in s.chains <==> !(call.phase.Done? && call.phase.cleaned))
      && (call.path in s.chains ==> s.chains[call.path] == c)
  {
    var s := Run(files, es);
    assert Mapped(s, c);
    if s.calls[c].path in s.chains { assert !(c < s.chains[s.calls[c].path]) || Same(s, c, s.chains[s.calls[c].path]); }
  }

  /** A cleanup marks its call, and drops the path's entry unless a later call has taken it over. */
  lemma CleanupDrops(s: State, c: nat)
    requires Possible(s, Cleanup(c))
    ensures var t, path := Step(s, Cleanup(c)), s.calls[c].path;
      && t.files == s.files && |t.calls| == |s.calls|
      && t.calls[c] == s.calls[c].(phase := Done(s.calls[c].phase.ok, true))
      && (forall b: nat :: b < |s.calls| && b != c ==> t.calls[b] == s.calls[b])
      && (path in t.chains <==> path in s.chains && s.chains[path] != c)
      && (forall p :: p in t.chains ==> p in s.chains && t.chains[p] == s.chains[p])
      && (forall p :: p in s.chains && p != path ==> p in t.chains)
  {}

  /** Nothing is kept once every call is settled and cleaned up. */
  lemma EmptyAtRest(files: map<string, string>, es: seq<Event>)
    requires forall c: nat :: c < |Run(files, es).calls| ==>
      Run(files, es).calls[c].phase.Done? && Run(files, es).calls[c].phase.cleaned
    ensures Run(files, es).chains == map[]
  {
    var s := Run(files, es);
    forall p ensures p !in s.chains {
      if p in s.chains { EntryIsOpen(s, p); }
    }
  }

  lemma EntryIsOpen(s: State, p: string)
    requires Valid(s) && p in s.chains
    ensures s.chains[p] < |s.calls| && !(s.calls[s.chains[p]].phase.Done? && s.calls[s.chains[p]].phase.cleaned)
  {
    assert Mapped(s, s.chains[p]);
  }

  // ---- the map of chains

  class Chains {
    var calls: seq<Call>
    var chains: map<string, nat>
    var files: map<string, string>

    function Now(): State
      reads this
    {
      State(calls, chains, files)
    }

    constructor (files: map<string, string>)
      ensures Now() == Initial(files)
    {
      calls, chains, this.files := [], map[], files;
    }

    /** Queues a write behind the path's chain; the call's number stands for its promise. */
    method WriteFileSerialized(path: string, data: string) returns (run: nat)
      modifies this
      ensures Now() == Step(old(Now()), Write(path, data)) && run == |old(calls)|
    {
      var prev := if path in chains then Some(chains[path]) else None;
      run := |calls|;
      calls := calls + [Call(path, data, prev, Waiting, None)];
      chains := chains[path := run];
    }

    /** The tail's own step: drop the entry if the chain has not grown since. */
    method CleanUp(c: nat)
      requires Possible(Now(), Cleanup(c))
      modifies this
      ensures Now() == Step(old(Now()), Cleanup(c))
    {
      var path := calls[c].path;
      calls := calls[c := calls[c].(phase := Done(calls[c].phase.ok, true))];
      if path in chains && chains[path] == c { chains := chains - {path}; }
    }
  }
}
