/** AgentManager of desktop/src/agents.js: one agent process per shared folder. */
module Supervisor {
  import opened Options

  type Folder = string

  /** What the manager keeps about a folder. `gaveUp` is history: the last spawn threw, or the last exit
      found the folder unpaired. */
  datatype Rec = Rec(
    folder: Folder,
    child: Option<nat>,
    wanted: bool,
    removing: bool,
    killing: bool,
    firstRun: bool,
    restarts: nat,
    timer: Option<nat>,     // the armed restart timer's delay
    killTimer: Option<nat>, // the process the armed SIGKILL timer is for
    gaveUp: bool
  )

  /** Records by identity (a closure can outlive a record's place in the map), the map from folders, the
      processes that run, and the SIGKILLs sent, in order. */
  datatype State = State(
    recs: map<nat, Rec>,
    agents: map<Folder, nat>,
    live: map<nat, nat>,
    nextRec: nat,
    nextProc: nat,
    signals: seq<nat>
  )

  /** What the world answers during one event. */
  datatype World = World(isFolder: bool, spawnThrows: bool, paired: bool)

  datatype Event =
    | Start(folder: Folder, firstRun: bool)
    | Stop(folder: Folder)
    | Remove(folder: Folder)
    | AddStopped(folder: Folder)
    | StopAll
    | Exit(proc: nat)                  // its exit, or the error of a process that never got a pid
    | TimerFires(rec: nat)
    | KillTimerFires(rec: nat, hasPid: bool)
    | Connected(rec: nat)              // an output line; it may trail the exit

  function RestartDelay(restarts: nat): nat {
    if restarts == 0 then 2_000 else if restarts == 1 then 5_000 else if restarts == 2 then 15_000 else 60_000
  }

  // ---- what each event does

  function Put(s: State, r: nat, a: Rec): State {
    s.(recs := s.recs[r := a])
  }

  function Scheduled(a: Rec): Rec {
    a.(restarts := a.restarts + 1, timer := Some(RestartDelay(a.restarts)), gaveUp := false)
  }

  function Killed(a: Rec): Rec {
    if a.child.None? then a else a.(killing := true, killTimer := a.child)
  }

  function Spawned(s: State, r: nat, a: Rec, w: World): State {
    if !w.isFolder then Put(s, r, Scheduled(a))
    else if w.spawnThrows then Put(s, r, a.(gaveUp := true))
    else
      Put(s, r, a.(firstRun := false, child := Some(s.nextProc), gaveUp := false))
        .(live := s.live[s.nextProc := r], nextProc := s.nextProc + 1)
  }

  function Fresh(folder: Folder, wanted: bool): Rec {
    Rec(folder, None, wanted, false, false, false, 0, None, None, false)
  }

  /** The folder's record, made if there is none. */
  function WithRecord(s: State, folder: Folder): State {
    if folder in s.agents then s
    else Put(s, s.nextRec, Fresh(folder, true)).(agents := s.agents[folder := s.nextRec], nextRec := s.nextRec + 1)
  }

  function WantedRec(a: Rec, firstRun: bool): Rec {
    a.(wanted := true, removing := false, firstRun := firstRun, timer := None)
  }

  function Started(s: State, folder: Folder, firstRun: bool, w: World): State
    requires Known(s)
  {
    var t := WithRecord(s, folder);
    var r := t.agents[folder];
    var a := WantedRec(t.recs[r], firstRun);
    if a.child.Some? then Put(t, r, a) else Spawned(t, r, a, w)
  }

  function StoppedRec(a: Rec): Rec {
    Killed(a.(wanted := false, timer := None))
  }

  function Gone(s: State, folder: Folder): State {
    s.(agents := s.agents - {folder})
  }

  function Removed(s: State, folder: Folder): State
    requires folder in s.agents ==> s.agents[folder] in s.recs
  {
    if folder !in s.agents then s
    else
      var r := s.agents[folder];
      var a := StoppedRec(s.recs[r].(removing := true));
      if a.child.Some? then Put(s, r, a) else Gone(Put(s, r, a), folder)
  }

  function Exited(s: State, p: nat, w: World): State {
    if p !in s.live || s.live[p] !in s.recs then s
    else
      var r := s.live[p];
      var a := s.recs[r];
      var s := s.(live := s.live - {p});
      if a.child != Some(p) then s
      else
        var b := a.(killTimer := None, killing := false, child := None);
        if a.removing && !a.wanted then Gone(Put(s, r, b), a.folder)
        else if !a.wanted then Put(s, r, b)
        else if a.killing then Spawned(s, r, b, w)
        else if !w.paired then Put(s, r, b.(gaveUp := true))
        else Put(s, r, Scheduled(b))
  }

  predicate Attached(s: State, r: nat) {
    r in s.recs && s.recs[r].folder in s.agents && s.agents[s.recs[r].folder] == r
  }

  /** The map and the processes lead to records, and the next record is a new one. */
  predicate Known(s: State) {
    && (forall f :: f in s.agents ==> s.agents[f] in s.recs && s.recs[s.agents[f]].folder == f)
    && (forall p :: p in s.live ==> s.live[p] in s.recs)
    && s.nextRec !in s.recs
  }

  function Step(s: State, e: Event, w: World): State
    requires Known(s)
  {
    match e
    case Start(f, firstRun) => Started(s, f, firstRun, w)
    case Stop(f) => if f in s.agents then Put(s, s.agents[f], StoppedRec(s.recs[s.agents[f]])) else s
    case Remove(f) => Removed(s, f)
    case AddStopped(f) =>
      if f in s.agents then s
      else Put(s, s.nextRec, Fresh(f, false)).(agents := s.agents[f := s.nextRec], nextRec := s.nextRec + 1)
    case StopAll => s.(recs := map r | r in s.recs :: if Attached(s, r) then StoppedRec(s.recs[r]) else s.recs[r])
    case Exit(p) => Exited(s, p, w)
    case TimerFires(r) =>
      if r !in s.recs || s.recs[r].timer.None? then s
      else
        var a := s.recs[r].(timer := None);
        if a.wanted && a.child.None? && Attached(s, r) then Spawned(s, r, a, w) else Put(s, r, a)
    case KillTimerFires(r, hasPid) =>
      if r !in s.recs || s.recs[r].killTimer.None? then s
      else
        var a := s.recs[r];
        var s := Put(s, r, a.(killTimer := None));
        if a.child == a.killTimer && hasPid then s.(signals := s.signals + [a.killTimer.value]) else s
    case Connected(r) => if r in s.recs then Put(s, r, s.recs[r].(restarts := 0)) else s
  }

  const EMPTY: State := State(map[], map[], map[], 0, 0, [])

  // ---- the invariant

  predicate RecOk(s: State, r: nat)
    requires r in s.recs
  {
    var a := s.recs[r];
    && r < s.nextRec
    && (a.child.Some? ==> Attached(s, r) && a.child.value in s.live && s.live[a.child.value] == r)
    && (a.timer.Some? ==> Attached(s, r) && a.wanted && a.child.None?)
    && (a.killTimer.Some? ==> a.child == a.killTimer && a.killing)
    && (a.killing ==> a.child.Some?)
    && (a.child.Some? && !a.wanted ==> a.killing)
    && (a.removing ==> !a.wanted && (Attached(s, r) ==> a.child.Some?))
    && (Attached(s, r) && a.wanted && a.child.None? ==> a.timer.Some? || a.gaveUp)
  }

  predicate Valid(s: State) {
    && (forall f :: f in s.agents ==> s.agents[f] in s.recs && s.recs[s.agents[f]].folder == f)
    && (forall p :: p in s.live ==> p < s.nextProc && s.live[p] in s.recs && s.recs[s.live[p]].child == Some(p))
    && (forall r :: r in s.recs ==> RecOk(s, r))
    && s.nextRec !in s.recs
  }

  /** The invariant, for everything but record `r`, which runs no process. */
  predicate ValidBut(s: State, r: nat) {
    && r < s.nextRec
    && (forall f :: f in s.agents ==> s.agents[f] == r || (s.agents[f] in s.recs && s.recs[s.agents[f]].folder == f))
    && (forall p :: p in s.live ==>
          p < s.nextProc && s.live[p] != r && s.live[p] in s.recs && s.recs[s.live[p]].child == Some(p))
    && (forall q :: q in s.recs && q != r ==> RecOk(s, q))
    && s.nextRec !in s.recs
  }

  predicate Idle(a: Rec) {
    a.child.None? && a.timer.None? && a.killTimer.None? && !a.killing
  }

  lemma SpawnedValid(s: State, r: nat, a: Rec, w: World)
    requires ValidBut(s, r) && Idle(a) && a.wanted && !a.removing
    requires forall f :: f in s.agents && s.agents[f] == r ==> f == a.folder
    requires a.folder in s.agents && s.agents[a.folder] == r
    ensures Valid(Spawned(s, r, a, w))
  {
    var t := Spawned(s, r, a, w);
    forall q | q in t.recs ensures RecOk(t, q) {
      if q != r { assert RecOk(s, q); }
    }
  }

  lemma PutValid(s: State, r: nat, a: Rec)
    requires Valid(s) && r in s.recs && a.folder == s.recs[r].folder && a.child == s.recs[r].child
    requires RecOk(Put(s, r, a), r)
    ensures Valid(Put(s, r, a))
  {
    var t := Put(s, r, a);
    forall q | q in t.recs ensures RecOk(t, q) {
      if q != r { assert RecOk(s, q); }
    }
  }

  lemma WithRecordValid(s: State, folder: Folder)
    requires Valid(s) && folder !in s.agents
    ensures ValidBut(WithRecord(s, folder), s.nextRec) && Known(WithRecord(s, folder))
  {
    var t := WithRecord(s, folder);
    forall q | q in s.recs ensures RecOk(t, q) && q < s.nextRec { assert RecOk(s, q); }
  }

  lemma StartValid(s: State, folder: Folder, firstRun: bool, w: World)
    requires Valid(s)
    ensures Valid(Started(s, folder, firstRun, w))
  {
    if folder in s.agents {
      var r := s.agents[folder];
      assert RecOk(s, r);
      if s.recs[r].child.Some? {
        PutValid(s, r, WantedRec(s.recs[r], firstRun));
      } else {
        IdleBut(s, r);
        SpawnedValid(s, r, WantedRec(s.recs[r], firstRun), w);
      }
    } else {
      WithRecordValid(s, folder);
      SpawnedValid(WithRecord(s, folder), s.nextRec, WantedRec(Fresh(folder, true), firstRun), w);
    }
  }

  lemma IdleBut(s: State, r: nat)
    requires Valid(s) && r in s.recs && s.recs[r].child.None?
    ensures ValidBut(s, r)
  {
    assert RecOk(s, r);
    forall p | p in s.live ensures s.live[p] != r { assert s.recs[s.live[p]].child == Some(p); }
  }

  lemma RemoveValid(s: State, folder: Folder)
    requires Valid(s)
    ensures Valid(Removed(s, folder))
  {
    if folder in s.agents {
      var r := s.agents[folder];
      assert RecOk(s, r);
      var a := StoppedRec(s.recs[r].(removing := true));
      if a.child.Some? {
        PutValid(s, r, a);
      } else {
        var t := Removed(s, folder);
        forall q | q in t.recs ensures RecOk(t, q) { if q != r { assert RecOk(s, q); } }
      }
    }
  }

  lemma ExitValid(s: State, p: nat, w: World)
    requires Valid(s)
    ensures Valid(Exited(s, p, w))
  {
    if p in s.live {
      var r := s.live[p];
      assert RecOk(s, r);
      var a := s.recs[r];
      var u := s.(live := s.live - {p});
      var b := a.(killTimer := None, killing := false, child := None);
      forall q | q in s.recs && q != r ensures RecOk(u, q) { assert RecOk(s, q); }
      if a.wanted && a.killing {
        SpawnedValid(u, r, b, w);
      } else {
        var t := Exited(s, p, w);
        forall q | q in t.recs ensures RecOk(t, q) { if q != r { assert RecOk(u, q); } }
      }
    }
  }

  lemma StopAllValid(s: State, w: World)
    requires Valid(s)
    ensures Valid(Step(s, StopAll, w))
  {
    var t := Step(s, StopAll, w);
    forall q | q in t.recs ensures RecOk(t, q) { assert RecOk(s, q); }
  }

  lemma StepValid(s: State, e: Event, w: World)
    requires Valid(s)
    ensures Valid(Step(s, e, w))
  {
    match e
    case Start(f, firstRun) => StartValid(s, f, firstRun, w);
    case Stop(f) =>
      if f in s.agents {
        assert RecOk(s, s.agents[f]);
        PutValid(s, s.agents[f], StoppedRec(s.recs[s.agents[f]]));
      }
    case Remove(f) => RemoveValid(s, f);
    case AddStopped(f) =>
      if f !in s.agents {
        var t := Step(s, e, w);
        forall q | q in t.recs ensures RecOk(t, q) { if q in s.recs { assert RecOk(s, q); } }
      }
    case StopAll => StopAllValid(s, w);
    case Exit(p) => ExitValid(s, p, w);
    case TimerFires(r) => TimerValid(s, r, w);
    case KillTimerFires(r, hasPid) =>
      if r in s.recs && s.recs[r].killTimer.Some? {
        assert RecOk(s, r);
        PutValid(s, r, s.recs[r].(killTimer := None));
        SignalsAside(Put(s, r, s.recs[r].(killTimer := None)), s.signals + [s.recs[r].killTimer.value]);
      }
    case Connected(r) =>
      if r in s.recs {
        assert RecOk(s, r);
        PutValid(s, r, s.recs[r].(restarts := 0));
      }
  }

  lemma SignalsAside(s: State, signals: seq<nat>)
    requires Valid(s)
    ensures Valid(s.(signals := signals))
  {
    forall q | q in s.recs ensures RecOk(s.(signals := signals), q) { assert RecOk(s, q); }
  }

  lemma TimerValid(s: State, r: nat, w: World)
    requires Valid(s)
    ensures Valid(Step(s, TimerFires(r), w))
  {
    if r in s.recs && s.recs[r].timer.Some? {
      assert RecOk(s, r);
      IdleBut(s, r);
      SpawnedValid(s, r, s.recs[r].(timer := None), w);
    }
  }

  // ---- what each event brings about

  /** No record but `r` changes, and none but `r` is new. */
  ghost predicate OnlyRec(s: State, t: State, r: nat) {
    && (forall q :: q in s.recs && q != r ==> q in t.recs && t.recs[q] == s.recs[q])
    && (forall q :: q in t.recs ==> q == r || q in s.recs)
    && r in t.recs
  }

  /** `b` is `a`, stopped: unwanted, without a restart to come, and a running child asked to end, with a
      SIGKILL to follow. */
  ghost predicate StoppedFrom(a: Rec, b: Rec) {
    && !b.wanted && b.timer.None? && b.child == a.child
    && (a.child.Some? ==> b.killing && b.killTimer == a.child)
    && (a.child.None? ==> b.killing == a.killing && b.killTimer == a.killTimer)
    && b == a.(wanted := b.wanted, timer := b.timer, killing := b.killing, killTimer := b.killTimer, removing := b.removing)
  }

  lemma StopStops(s: State, f: Folder, w: World)
    requires Valid(s)
    ensures var t := Step(s, Stop(f), w);
      if f !in s.agents then t == s
      else
        var r := s.agents[f];
        && OnlyRec(s, t, r) && t == s.(recs := t.recs)
        && StoppedFrom(s.recs[r], t.recs[r]) && t.recs[r].removing == s.recs[r].removing
  {}

  lemma RemoveRemoves(s: State, f: Folder, w: World)
    requires Valid(s)
    ensures var t := Step(s, Remove(f), w);
      if f !in s.agents then t == s
      else
        var r := s.agents[f];
        && OnlyRec(s, t, r) && t == s.(recs := t.recs, agents := t.agents)
        && StoppedFrom(s.recs[r], t.recs[r]) && t.recs[r].removing
        && t.agents == if s.recs[r].child.Some? then s.agents else s.agents - {f}
  {}

  lemma AddStoppedAdds(s: State, f: Folder, w: World)
    requires Valid(s)
    ensures var t := Step(s, AddStopped(f), w);
      if f in s.agents then t == s
      else
        && f in t.agents && t.agents[f] !in s.recs && t.agents == s.agents[f := t.agents[f]]
        && OnlyRec(s, t, t.agents[f]) && t == s.(recs := t.recs, agents := t.agents, nextRec := t.nextRec)
        && var a := t.recs[t.agents[f]];
        a.folder == f && !a.wanted && !a.removing && Idle(a) && a.restarts == 0
  {}

  lemma StopAllStops(s: State, w: World, r: nat)
    requires Valid(s) && r in s.recs
    ensures var t := Step(s, StopAll, w);
      && t == s.(recs := t.recs) && t.recs.Keys == s.recs.Keys
      && if Attached(s, r) then StoppedFrom(s.recs[r], t.recs[r]) && t.recs[r].removing == s.recs[r].removing
         else t.recs[r] == s.recs[r]
  {}

  /** What an attempt to start the folder of record `r` leads to, if `a` is the record before it. */
  ghost predicate Attempted(s: State, t: State, r: nat, a: Rec, w: World) {
    && OnlyRec(s, t, r)
    && var b := t.recs[r];
    && b.folder == a.folder && b.wanted == a.wanted && b.removing == a.removing && !b.killing && b.killTimer.None?
    && if !w.isFolder then
         && b.child.None? && b.timer == Some([2_000, 5_000, 15_000, 60_000][if a.restarts < 3 then a.restarts else 3])
         && b.restarts == a.restarts + 1 && b.firstRun == a.firstRun && t.live == s.live
       else if w.spawnThrows then
         b.child.None? && b.timer.None? && b.gaveUp && b.restarts == a.restarts && b.firstRun == a.firstRun && t.live == s.live
       else
         && b.child.Some? && b.child.value !in s.live && t.live == s.live[b.child.value := r]
         && b.timer.None? && !b.firstRun && b.restarts == a.restarts
  }

  lemma SpawnedAttempt(s: State, r: nat, a: Rec, w: World)
    requires Idle(a) && s.nextProc !in s.live
    ensures Attempted(s, Spawned(s, r, a, w), r, a, w)
    ensures Spawned(s, r, a, w).agents == s.agents && Spawned(s, r, a, w).signals == s.signals
  {}

  lemma StartStarts(s: State, f: Folder, firstRun: bool, w: World)
    requires Valid(s)
    ensures var t := Step(s, Start(f, firstRun), w);
      && f in t.agents && t.agents == s.agents[f := t.agents[f]] && t.signals == s.signals
      && var r := t.agents[f];
      && (if f in s.agents then r == s.agents[f] else r !in s.recs)
      && OnlyRec(s, t, r) && t.recs[r].folder == f && t.recs[r].wanted && !t.recs[r].removing
      && if f in s.agents && s.recs[r].child.Some? then
           t.live == s.live && t.recs[r] == s.recs[r].(wanted := true, removing := false, firstRun := firstRun, timer := None)
         else
           Attempted(s, t, r, Rec(f, None, true, false, false, firstRun,
             if f in s.agents then s.recs[r].restarts else 0, None, None, false), w)
  {
    if f in s.agents {
      assert RecOk(s, s.agents[f]);
      if s.recs[s.agents[f]].child.None? {
        SpawnedAttempt(s, s.agents[f], WantedRec(s.recs[s.agents[f]], firstRun), w);
      }
    } else {
      SpawnedAttempt(WithRecord(s, f), s.nextRec, WantedRec(Fresh(f, true), firstRun), w);
    }
  }

  /** An exit: the process is gone, and its record has no child and no SIGKILL to come. A folder being
      removed is forgotten, a stopped one stays stopped, one killed and wanted again starts at once, an
      unpaired one waits for the user, any other for its restart timer. */
  lemma ExitEnds(s: State, p: nat, w: World)
    requires Valid(s)
    ensures var t := Step(s, Exit(p), w);
      if p !in s.live then t == s
      else
        var r, left := s.live[p], s.live - {p};
        var a, idle := s.recs[r], s.recs[r].(child := None, killing := false, killTimer := None);
        && OnlyRec(s, t, r) && t.signals == s.signals && p !in t.live
        && if !a.wanted then
             t.live == left && t.recs[r] == idle && t.agents == if a.removing then s.agents - {a.folder} else s.agents
           else
             && t.agents == s.agents
             && if a.killing then Attempted(s.(live := left), t, r, idle, w)
                else if !w.paired then t.live == left && t.recs[r] == idle.(gaveUp := true)
                else Attempted(s.(live := left), t, r, idle, World(false, false, true))
  {
    if p in s.live {
      var r := s.live[p];
      assert RecOk(s, r);
      SpawnedAttempt(s.(live := s.live - {p}), r, s.recs[r].(child := None, killing := false, killTimer := None), w);
      SpawnedAttempt(s.(live := s.live - {p}), r, s.recs[r].(child := None, killing := false, killTimer := None), World(false, false, true));
    }
  }

  /** A restart timer that fires starts its folder again. */
  lemma TimerStarts(s: State, r: nat, w: World)
    requires Valid(s)
    ensures var t := Step(s, TimerFires(r), w);
      if r !in s.recs || s.recs[r].timer.None? then t == s
      else t.agents == s.agents && t.signals == s.signals && Attempted(s, t, r, s.recs[r].(timer := None), w)
  {
    if r in s.recs && s.recs[r].timer.Some? {
      assert RecOk(s, r);
      SpawnedAttempt(s, r, s.recs[r].(timer := None), w);
    }
  }

  /** A SIGKILL timer that fires is gone, and signals its process if that has a pid. */
  lemma KillTimerSignals(s: State, r: nat, hasPid: bool, w: World)
    requires Valid(s)
    ensures var t := Step(s, KillTimerFires(r, hasPid), w);
      if r !in s.recs || s.recs[r].killTimer.None? then t == s
      else
        && OnlyRec(s, t, r) && t.recs[r] == s.recs[r].(killTimer := None) && t == s.(recs := t.recs, signals := t.signals)
        && t.signals == s.signals + if hasPid then [s.recs[r].killTimer.value] else []
  {
    if r in s.recs && s.recs[r].killTimer.Some? { assert RecOk(s, r); }
    assert s.signals + [] == s.signals;
  }

  /** A connection makes the next restart a first one again. */
  lemma ConnectedResets(s: State, r: nat, w: World)
    requires Valid(s)
    ensures var t := Step(s, Connected(r), w);
      if r !in s.recs then t == s
      else OnlyRec(s, t, r) && t.recs[r] == s.recs[r].(restarts := 0) && t == s.(recs := t.recs)
  {}

  // ---- runs

  datatype Turn = Turn(event: Event, world: World)

  function Run(turns: seq<Turn>): (s: State)
    ensures Valid(s)
  {
    if turns == [] then EMPTY
    else
      var before := Run(turns[..|turns| - 1]);
      var last := turns[|turns| - 1];
      StepValid(before, last.event, last.world);
      Step(before, last.event, last.world)
  }

  /** In every run each folder has at most one live process: the one its record holds. */
  lemma OneProcessPerFolder(turns: seq<Turn>, p: nat, q: nat)
    ensures var s := Run(turns);
      && (p in s.live ==> s.live[p] in s.recs)
      && (p in s.live && q in s.live && s.recs[s.live[p]].folder == s.recs[s.live[q]].folder ==> p == q)
  {
    var s := Run(turns);
    if p in s.live && q in s.live {
      assert RecOk(s, s.live[p]) && RecOk(s, s.live[q]);
    }
  }

  lemma SpawnWanted(s: State, e: Event, w: World, p: nat)
    requires Valid(s) && p in Step(s, e, w).live && p !in s.live
    ensures var t := Step(s, e, w);
      t.live[p] in t.recs && t.recs[t.live[p]].wanted && !t.recs[t.live[p]].killing
  {
    match e
    case Start(f, _) => if f in s.agents { assert RecOk(s, s.agents[f]); }
    case Exit(q) => if q in s.live { assert RecOk(s, s.live[q]); }
    case TimerFires(r) => if r in s.recs { assert RecOk(s, r); }
    case Stop(_) =>
    case Remove(_) =>
    case AddStopped(_) =>
    case StopAll =>
    case KillTimerFires(_, _) =>
    case Connected(_) =>
  }

  lemma RunTurn(turns: seq<Turn>, turn: Turn)
    ensures Run(turns + [turn]) == Step(Run(turns), turn.event, turn.world)
  {
    assert (turns + [turn])[..|turns|] == turns;
  }

  /** A process comes to life only for a folder that is wanted and has no other. */
  lemma SpawnOnlyWanted(turns: seq<Turn>, turn: Turn, p: nat)
    requires p in Run(turns + [turn]).live && p !in Run(turns).live
    ensures var s := Run(turns + [turn]);
      && s.live[p] in s.recs && s.recs[s.live[p]].wanted && !s.recs[s.live[p]].killing && Attached(s, s.live[p])
      && (forall q :: q in s.live && q != p ==> s.recs[s.live[q]].folder != s.recs[s.live[p]].folder)
  {
    RunTurn(turns, turn);
    SpawnWanted(Run(turns), turn.event, turn.world, p);
    var s := Run(turns + [turn]);
    assert RecOk(s, s.live[p]);
    forall q | q in s.live && q != p ensures s.recs[s.live[q]].folder != s.recs[s.live[p]].folder {
      OneProcessPerFolder(turns + [turn], p, q);
    }
  }

  /** Every SIGKILL, a repeated one too, is the firing of a kill timer, and hits the live process the timer
      was armed for, which is its record's child and which the manager has asked to stop. */
  lemma KillHitsItsTarget(turns: seq<Turn>, turn: Turn)
    ensures var s, e, sent := Run(turns), turn.event, Run(turns + [turn]).signals;
      sent != s.signals ==>
        && e.KillTimerFires? && e.rec in s.recs && s.recs[e.rec].killing
        && s.recs[e.rec].killTimer.Some? && s.recs[e.rec].child == s.recs[e.rec].killTimer
        && var p := s.recs[e.rec].killTimer.value;
        && p in s.live && s.live[p] == e.rec && sent == s.signals + [p]
  {
    var s := Run(turns);
    RunTurn(turns, turn);
    if Run(turns + [turn]).signals != s.signals {
      SignalsChange(s, turn.event, turn.world);
      assert RecOk(s, turn.event.rec);
    }
  }

  lemma SignalsChange(s: State, e: Event, w: World)
    requires Known(s) && Step(s, e, w).signals != s.signals
    ensures e.KillTimerFires? && e.rec in s.recs && s.recs[e.rec].killTimer.Some?
    ensures s.recs[e.rec].child == s.recs[e.rec].killTimer
    ensures Step(s, e, w).signals == s.signals + [s.recs[e.rec].killTimer.value]
  {}

  /** A wanted folder without a process has its restart timer armed, unless its last spawn threw or its
      last exit found it unpaired; and an unwanted folder's process has been asked to stop. */
  lemma WantedComesBack(turns: seq<Turn>, folder: Folder)
    requires folder in Run(turns).agents
    ensures var a := Run(turns).recs[Run(turns).agents[folder]];
      && a.folder == folder
      && (a.wanted && a.child.None? ==> a.timer.Some? || a.gaveUp)
      && (a.timer.Some? ==> a.wanted && a.child.None?)
      && (!a.wanted && a.child.Some? ==> a.killing)
      && (a.removing ==> !a.wanted && a.child.Some?)
  {
    assert RecOk(Run(turns), Run(turns).agents[folder]);
  }

  ghost predicate Unwanted(s: State, f: Folder) {
    f in s.agents && s.agents[f] in s.recs ==> !s.recs[s.agents[f]].wanted
  }

  lemma StepUnwanted(s: State, e: Event, w: World, f: Folder)
    requires Valid(s) && Unwanted(s, f) && !(e.Start? && e.folder == f)
    ensures Unwanted(Step(s, e, w), f)
  {
    match e
    case Start(g, firstRun) => StartStarts(s, g, firstRun, w);
    case Stop(g) => StopStops(s, g, w);
    case Remove(g) => RemoveRemoves(s, g, w);
    case AddStopped(g) => AddStoppedAdds(s, g, w);
    case StopAll => if f in s.agents { StopAllStops(s, w, s.agents[f]); }
    case Exit(p) => ExitEnds(s, p, w);
    case TimerFires(r) => TimerStarts(s, r, w);
    case KillTimerFires(r, hasPid) => KillTimerSignals(s, r, hasPid, w);
    case Connected(r) => ConnectedResets(s, r, w);
  }

  /** The folder is unwanted, and no process of it lives that is not among these. */
  ghost predicate Quiet(s: State, f: Folder, procs: set<nat>) {
    Unwanted(s, f) && forall p :: p in s.live && s.live[p] in s.recs && s.recs[s.live[p]].folder == f ==> p in procs
  }

  /** What is stopped stays stopped: after a stop, no run in which the folder is not started brings a process
      of it to life. */
  lemma {:induction false} StoppedStays(turns: seq<Turn>, f: Folder, w: World, more: seq<Turn>)
    requires forall turn :: turn in more ==> !(turn.event.Start? && turn.event.folder == f)
    ensures Quiet(Run(turns + [Turn(Stop(f), w)] + more), f, Run(turns).live.Keys)
  {
    var stopped := turns + [Turn(Stop(f), w)];
    if more == [] {
      RunTurn(turns, Turn(Stop(f), w));
      StopStops(Run(turns), f, w);
      assert stopped + more == stopped;
    } else {
      var front, last := more[..|more| - 1], more[|more| - 1];
      StoppedStays(turns, f, w, front);
      assert last in more && stopped + more == stopped + front + [last];
      RunTurn(stopped + front, last);
      StaysQuiet(Run(stopped + front), last.event, last.world, f, Run(turns).live.Keys);
    }
  }

  lemma StaysQuiet(s: State, e: Event, w: World, f: Folder, procs: set<nat>)
    requires Valid(s) && Quiet(s, f, procs) && !(e.Start? && e.folder == f)
    ensures Quiet(Step(s, e, w), f, procs)
  {
    var t := Step(s, e, w);
    StepUnwanted(s, e, w, f);
    StepValid(s, e, w);
    forall p | p in t.live && t.live[p] in t.recs && t.recs[t.live[p]].folder == f ensures p in procs {
      assert RecOk(t, t.live[p]);
      if p in s.live {
        ProcessKept(s, e, w, p);
        FolderKept(s, e, w, s.live[p]);
      } else {
        SpawnWanted(s, e, w, p);
      }
    }
  }

  lemma FolderKept(s: State, e: Event, w: World, r: nat)
    requires Valid(s) && r in s.recs
    ensures r in Step(s, e, w).recs && Step(s, e, w).recs[r].folder == s.recs[r].folder
  {
    match e
    case Start(g, firstRun) => StartStarts(s, g, firstRun, w);
    case Exit(p) => ExitEnds(s, p, w);
    case TimerFires(q) => TimerStarts(s, q, w);
    case StopAll => StopAllStops(s, w, r);
    case Stop(g) => StopStops(s, g, w);
    case Remove(g) => RemoveRemoves(s, g, w);
    case AddStopped(g) => AddStoppedAdds(s, g, w);
    case KillTimerFires(q, hasPid) => KillTimerSignals(s, q, hasPid, w);
    case Connected(q) => ConnectedResets(s, q, w);
  }

  lemma ProcessKept(s: State, e: Event, w: World, p: nat)
    requires Valid(s) && p in s.live && p in Step(s, e, w).live
    ensures Step(s, e, w).live[p] == s.live[p]
  {}

  /** A record that left the map is inert: no closure still holding it can start or kill anything. */
  lemma ForgottenIsInert(turns: seq<Turn>, r: nat)
    requires r in Run(turns).recs && !Attached(Run(turns), r)
    ensures Idle(Run(turns).recs[r])
  {
    assert RecOk(Run(turns), r);
  }

  // ---- the manager; StepValid carries the invariant through each method

  /** For events that ask the world nothing. */
  const CALM: World := World(true, false, true)

  function StoppedUnless(s: State, r: nat, todo: set<Folder>): Rec
    requires r in s.recs
  {
    if Attached(s, r) && s.recs[r].folder !in todo then StoppedRec(s.recs[r]) else s.recs[r]
  }

  /** Every record in the map is stopped, but for those of `todo`. */
  ghost predicate StoppedBut(s: State, recs: map<nat, Rec>, todo: set<Folder>) {
    recs.Keys == s.recs.Keys && forall r :: r in recs ==> recs[r] == StoppedUnless(s, r, todo)
  }

  lemma StoppedNext(s: State, recs: map<nat, Rec>, todo: set<Folder>, folder: Folder)
    requires Known(s) && folder in todo && folder in s.agents && StoppedBut(s, recs, todo)
    ensures var r := s.agents[folder];
      r in recs && StoppedBut(s, recs[r := StoppedRec(recs[r])], todo - {folder})
  {
    assert Attached(s, s.agents[folder]);
  }

  lemma AllStopped(s: State, recs: map<nat, Rec>)
    requires Known(s)
    ensures StoppedBut(s, s.recs, s.agents.Keys)
    ensures StoppedBut(s, recs, {}) ==> s.(recs := recs) == Step(s, StopAll, CALM)
  {}

  class AgentManager {
    var recs: map<nat, Rec>
    var agents: map<Folder, nat>
    var live: map<nat, nat>
    var nextRec: nat
    var nextProc: nat
    var signals: seq<nat>

    function Now(): State
      reads this
    {
      State(recs, agents, live, nextRec, nextProc, signals)
    }

    constructor ()
      ensures Now() == EMPTY && Known(Now())
    {
      recs, agents, live, nextRec, nextProc, signals := map[], map[], map[], 0, 0, [];
    }

    method ScheduleRestart(r: nat)
      requires r in recs
      modifies this`recs
      ensures Now() == Put(old(Now()), r, Scheduled(old(recs[r])))
    {
      var restarts := recs[r].restarts;
      var delay := RestartDelay(if restarts < 3 then restarts else 3);
      recs := recs[r := recs[r].(restarts := restarts + 1)];
      recs := recs[r := recs[r].(timer := Some(delay), gaveUp := false)];
    }

    method Spawn(r: nat, w: World)
      requires r in recs
      modifies this`recs, this`live, this`nextProc
      ensures Now() == Spawned(old(Now()), r, old(recs[r]), w)
    {
      if !w.isFolder {
        ScheduleRestart(r);
        return;
      }
      if w.spawnThrows {
        recs := recs[r := recs[r].(gaveUp := true)];
        return;
      }
      var child := nextProc;
      live, nextProc := live[child := r], child + 1;
      recs := recs[r := recs[r].(firstRun := false, gaveUp := false)];
      recs := recs[r := recs[r].(child := Some(child))];
    }

    method Kill(r: nat)
      requires r in recs
      modifies this`recs
      ensures Now() == Put(old(Now()), r, Killed(old(recs[r])))
    {
      var c := recs[r].child;
      if c.None? {
        assert recs[r := recs[r]] == recs;
        return;
      }
      recs := recs[r := recs[r].(killing := true)];
      recs := recs[r := recs[r].(killTimer := c)];
    }

    method RecordOf(folder: Folder) returns (r: nat)
      requires Known(Now())
      modifies this
      ensures Now() == WithRecord(old(Now()), folder) && folder in agents && r == agents[folder] && r in recs
    {
      if folder in agents { return agents[folder]; }
      r := nextRec;
      recs, agents, nextRec := recs[r := Fresh(folder, true)], agents[folder := r], r + 1;
    }

    method StartFolder(folder: Folder, firstRun: bool, w: World)
      requires Known(Now())
      modifies this
      ensures Now() == Step(old(Now()), Start(folder, firstRun), w)
    {
      var r := RecordOf(folder);
      recs := recs[r := WantedRec(recs[r], firstRun)];
      if recs[r].child.Some? { return; }
      Spawn(r, w);
    }

    method StopFolder(folder: Folder)
      requires Known(Now())
      modifies this
      ensures Now() == Step(old(Now()), Stop(folder), CALM)
    {
      if folder !in agents { return; }
      var r := agents[folder];
      recs := recs[r := recs[r].(wanted := false, timer := None)];
      if recs[r].child.Some? { Kill(r); }
    }

    method RemoveFolder(folder: Folder)
      requires Known(Now())
      modifies this
      ensures Now() == Step(old(Now()), Remove(folder), CALM)
    {
      if folder !in agents { return; }
      var r := agents[folder];
      recs := recs[r := recs[r].(wanted := false, removing := true, timer := None)];
      if recs[r].child.Some? { Kill(r); } else { agents := agents - {folder}; }
    }

    method AddStoppedFolder(folder: Folder)
      requires Known(Now())
      modifies this
      ensures Now() == Step(old(Now()), AddStopped(folder), CALM)
    {
      if folder in agents { return; }
      recs, agents, nextRec := recs[nextRec := Fresh(folder, false)], agents[folder := nextRec], nextRec + 1;
    }

    method StopOne(r: nat)
      requires r in recs
      modifies this`recs
      ensures recs == old(recs)[r := StoppedRec(old(recs[r]))]
    {
      recs := recs[r := recs[r].(wanted := false, timer := None)];
      Kill(r);
    }

    method StopAllFolders()
      requires Known(Now())
      modifies this`recs
      ensures Now() == Step(old(Now()), StopAll, CALM)
    {
      var todo := agents.Keys;
      AllStopped(Now(), recs);
      while todo != {}
        invariant todo <= agents.Keys && StoppedBut(old(Now()), recs, todo)
        decreases todo
      {
        var folder :| folder in todo;
        StoppedNext(old(Now()), recs, todo, folder);
        StopOne(agents[folder]);
        todo := todo - {folder};
      }
      AllStopped(old(Now()), recs);
    }

    method OnExit(p: nat, w: World)
      requires Known(Now())
      modifies this
      ensures Now() == Step(old(Now()), Exit(p), w)
    {
      if p !in live { return; }
      var r := live[p];
      live := live - {p};
      if recs[r].child != Some(p) { return; }
      var killed := recs[r].killing;
      recs := recs[r := recs[r].(killTimer := None, killing := false, child := None)];
      if recs[r].removing && !recs[r].wanted {
        agents := agents - {recs[r].folder};
      } else if !recs[r].wanted {
      } else if killed {
        Spawn(r, w);
      } else if !w.paired {
        recs := recs[r := recs[r].(gaveUp := true)];
      } else {
        ScheduleRestart(r);
      }
    }

    method OnTimer(r: nat, w: World)
      requires Known(Now())
      modifies this
      ensures Now() == Step(old(Now()), TimerFires(r), w)
    {
      if r !in recs || recs[r].timer.None? { return; }
      recs := recs[r := recs[r].(timer := None)];
      if recs[r].wanted && recs[r].child.None? && recs[r].folder in agents && agents[recs[r].folder] == r {
        Spawn(r, w);
      }
    }

    method OnKillTimer(r: nat, hasPid: bool)
      requires Known(Now())
      modifies this
      ensures Now() == Step(old(Now()), KillTimerFires(r, hasPid), CALM)
    {
      if r !in recs || recs[r].killTimer.None? { return; }
      var c := recs[r].killTimer;
      recs := recs[r := recs[r].(killTimer := None)];
      if recs[r].child == c && hasPid { signals := signals + [c.value]; }
    }
  }
}
