/** A cell's storage behind its re-entrant lock, under every interleaving of tasks, and
    the cell.update events that replay it. */
module CellState {
  import opened Basics
  import opened Json
  import opened KeyPath
  import opened KeyPathText

  type Task = nat

  /** _owner, _depth, and whether the inner asyncio lock is held. */
  datatype Lock = Lock(owner: Option<Task>, depth: int, held: bool)

  const FREE := Lock(None, 0, false)

  /** What __aenter__ does at once: it enters again, takes the free lock, or has to wait. */
  function TryEnter(l: Lock, t: Task): (Lock, bool) {
    if l.owner == Some(t) then (l.(depth := l.depth + 1), true)
    else if !l.held then (Lock(Some(t), 1, true), true)
    else (l, false)
  }

  /** __aexit__; false where it raises. */
  function Leave(l: Lock, t: Task): (Lock, bool) {
    if l.owner != Some(t) || l.depth <= 0 then (l, false)
    else if l.depth == 1 then (FREE, true)
    else (l.(depth := l.depth - 1), true)
  }

  class ReentrantLock {
    var owner: Option<Task>
    var depth: int
    var held: bool

    constructor ()
      ensures Snapshot() == FREE
    {
      owner, depth, held := None, 0, false;
    }

    function Snapshot(): Lock
      reads this
    {
      Lock(owner, depth, held)
    }

    method Enter(t: Task) returns (entered: bool)
      modifies this
      ensures (Snapshot(), entered) == TryEnter(old(Snapshot()), t)
    {
      if owner == Some(t) {
        depth := depth + 1;
        return true;
      }
      if held {
        return false;
      }
      held := true;
      owner := Some(t);
      depth := 1;
      entered := true;
    }

    method Exit(t: Task) returns (ok: bool)
      modifies this
      ensures (Snapshot(), ok) == Leave(old(Snapshot()), t)
    {
      if owner != Some(t) || depth <= 0 {
        return false;
      }
      depth := depth - 1;
      if depth == 0 {
        owner := None;
        held := false;
      }
      ok := true;
    }
  }

  // ---- tasks around the lock ----

  /** A value written under a key path text. */
  datatype Update = Update(keypath: string, value: Json)

  /** inside counts, task by task, the bodies of "async with" it is in. */
  datatype Machine = Machine(lock: Lock, waiting: set<Task>, inside: map<Task, nat>, storage: Json, events: seq<Update>)

  datatype Step =
    | Enter(task: Task)
    | Wake(task: Task)
    | Cancel(task: Task)
    | Exit(task: Task)
    | Write(task: Task, update: Update)

  function Inside(m: Machine, t: Task): nat {
    if t in m.inside then m.inside[t] else 0
  }

  /** set without a handler: the path is read, the tree written, the event pushed. */
  function Stored(same: Equality, tree: Json, u: Update): (Json, bool) {
    match KeyPathText.Parse(u.keypath)
    case None => (tree, false)
    case Some(p) => SetPath(same, tree, p, u.value)
  }

  /** A waiting task does nothing but wake or be cancelled; writing is for those inside. */
  predicate Enabled(m: Machine, s: Step) {
    match s
    case Enter(t) => t !in m.waiting
    case Wake(t) => t in m.waiting && !m.lock.held
    case Cancel(t) => t in m.waiting
    case Exit(t) => t !in m.waiting
    case Write(t, _) => t !in m.waiting && Inside(m, t) > 0
  }

  function Entered(m: Machine, t: Task): Machine {
    var (l, entered) := TryEnter(m.lock, t);
    if entered then m.(lock := l, waiting := m.waiting - {t}, inside := m.inside[t := Inside(m, t) + 1])
    else m.(waiting := m.waiting + {t})
  }

  function After(same: Equality, m: Machine, s: Step): Machine {
    match s
    case Enter(t) => Entered(m, t)
    case Wake(t) => Entered(m, t)
    case Cancel(t) => m.(waiting := m.waiting - {t})
    case Exit(t) =>
      var (l, ok) := Leave(m.lock, t);
      if ok && Inside(m, t) > 0 then m.(lock := l, inside := m.inside[t := Inside(m, t) - 1]) else m
    case Write(t, u) =>
      var (tree, ok) := Stored(same, m.storage, u);
      m.(storage := tree, events := if ok then m.events + [u] else m.events)
  }

  function Start(storage: Json): Machine {
    Machine(FREE, {}, map[], storage, [])
  }

  ghost predicate Runs(same: Equality, m: Machine, steps: seq<Step>)
    decreases |steps|
  {
    steps == [] || (Enabled(m, steps[0]) && Runs(same, After(same, m, steps[0]), steps[1..]))
  }

  function Final(same: Equality, m: Machine, steps: seq<Step>): Machine
    decreases |steps|
  {
    if steps == [] then m else Final(same, After(same, m, steps[0]), steps[1..])
  }

  // ---- one task at a time ----

  ghost predicate Serial(m: Machine) {
    && (m.lock.held <==> m.lock.owner.Some?)
    && m.lock.depth >= 0 && (m.lock.owner.None? <==> m.lock.depth == 0)
    && (forall t: Task :: Inside(m, t) == if m.lock.owner == Some(t) then m.lock.depth else 0)
    && (m.lock.owner.Some? ==> m.lock.owner.value !in m.waiting)
  }

  lemma StepSerial(same: Equality, m: Machine, s: Step)
    requires Serial(m) && Enabled(m, s)
    ensures Serial(After(same, m, s))
  {
    hide Stored;
    var d := After(same, m, s);
    forall t: Task ensures Inside(d, t) == if d.lock.owner == Some(t) then d.lock.depth else 0 {
      assert Inside(m, t) == if m.lock.owner == Some(t) then m.lock.depth else 0;
      assert Inside(m, s.task) == if m.lock.owner == Some(s.task) then m.lock.depth else 0;
    }
  }

  /** In every interleaving at most one task is inside, the lock's depth is its nesting,
      an exit by anyone else raises, and only the owner writes. */
  lemma {:induction false} OneTaskAtATime(same: Equality, m: Machine, steps: seq<Step>)
    requires Serial(m) && Runs(same, m, steps)
    ensures var d := Final(same, m, steps);
      && Serial(d)
      && (forall t: Task, u: Task :: Inside(d, t) > 0 && Inside(d, u) > 0 ==> t == u)
      && (forall t: Task :: Leave(d.lock, t).1 <==> Inside(d, t) > 0)
      && (forall t: Task, u :: Enabled(d, Write(t, u)) ==> d.lock == Lock(Some(t), Inside(d, t), true))
    decreases |steps|
  {
    hide After;
    if steps != [] {
      StepSerial(same, m, steps[0]);
      OneTaskAtATime(same, After(same, m, steps[0]), steps[1..]);
    }
  }

  // ---- the events replay the storage ----

  function Replay(same: Equality, tree: Json, events: seq<Update>): Json
    decreases |events|
  {
    if events == [] then tree else Replay(same, Stored(same, tree, events[0]).0, events[1..])
  }

  lemma {:induction false} ReplaySnoc(same: Equality, tree: Json, events: seq<Update>, u: Update)
    ensures Replay(same, tree, events + [u]) == Stored(same, Replay(same, tree, events), u).0
    decreases |events|
  {
    hide Stored;
    if events == [] {
      assert [] + [u] == [u] && [u][1..] == [];
      assert Replay(same, Stored(same, tree, u).0, []) == Stored(same, tree, u).0;
    } else {
      assert (events + [u])[1..] == events[1..] + [u];
      ReplaySnoc(same, Stored(same, tree, events[0]).0, events[1..], u);
    }
  }

  /** On this path no write that raises leaves the tree changed: the path is clean, or its
      first step does not fit the dict that a cell's storage is. */
  predicate Harmless(same: Equality, tree: Json, u: Update) {
    Stored(same, tree, u).1 || KeyPathText.Parse(u.keypath).None? ||
    var p := KeyPathText.Parse(u.keypath).value;
    Clean(p) || (tree.Obj? && !p[0].Key?)
  }

  ghost predicate AllHarmless(same: Equality, m: Machine, steps: seq<Step>)
    decreases |steps|
  {
    steps == [] ||
      ((steps[0].Write? ==> Harmless(same, m.storage, steps[0].update))
        && AllHarmless(same, After(same, m, steps[0]), steps[1..]))
  }

  lemma StepReplays(same: Equality, first: Json, m: Machine, s: Step)
    requires m.storage == Replay(same, first, m.events) && (s.Write? ==> Harmless(same, m.storage, s.update))
    ensures After(same, m, s).storage == Replay(same, first, After(same, m, s).events)
  {
    hide Replay, SetPath, KeyPathText.Parse, Clean, ScalarMatches;
    if s.Write? {
      var u := s.update;
      if Stored(same, m.storage, u).1 {
        ReplaySnoc(same, first, m.events, u);
      } else if KeyPathText.Parse(u.keypath).Some? {
        KeyPathText.ParsedIsScalar(u.keypath);
        HarmlessKeeps(same, m.storage, KeyPathText.Parse(u.keypath).value, u.value);
      }
    }
  }

  lemma HarmlessKeeps(same: Equality, tree: Json, p: Path, v: Json)
    requires ScalarMatches(p) && !SetPath(same, tree, p, v).1 && (Clean(p) || (tree.Obj? && !p[0].Key?))
    ensures SetPath(same, tree, p, v).0 == tree
  {
    if Clean(p) {
      FailureChangesNothing(same, tree, p, v);
    }
  }

  /** For any number of tasks, any nesting and any failures on harmless paths, replaying the
      pushed events from the first storage gives the storage. */
  lemma {:induction false} EventsReplay(same: Equality, first: Json, m: Machine, steps: seq<Step>)
    requires m.storage == Replay(same, first, m.events)
    requires Runs(same, m, steps) && AllHarmless(same, m, steps)
    ensures Final(same, m, steps).storage == Replay(same, first, Final(same, m, steps).events)
    decreases |steps|
  {
    hide After, Replay, Harmless;
    if steps != [] {
      StepReplays(same, first, m, steps[0]);
      EventsReplay(same, first, After(same, m, steps[0]), steps[1..]);
    }
  }

  /** A path text whose failed writes leave every dict alone: it is clean or starts with a
      step that no dict takes, or it does not parse. */
  predicate Logged(keypath: string) {
    var p := KeyPathText.Parse(keypath);
    p.None? || Clean(p.value) || !p.value[0].Key?
  }

  /** A cell's storage stays a dict, so on such paths every run replays. */
  lemma {:induction false} LoggedIsHarmless(same: Equality, m: Machine, steps: seq<Step>)
    requires m.storage.Obj? && forall s | s in steps && s.Write? :: Logged(s.update.keypath)
    ensures AllHarmless(same, m, steps)
    decreases |steps|
  {
    hide KeyPathText.Parse, Clean;
    if steps != [] {
      assert steps[0] in steps && forall s | s in steps[1..] :: s in steps;
      LoggedIsHarmless(same, After(same, m, steps[0]), steps[1..]);
    }
  }

  /** On any other path the first write into an empty cell raises, and the storage has
      something that no event tells of. */
  lemma HarmBreaksReplay(same: Equality, u: Update)
    requires !Logged(u.keypath)
    ensures var steps := [Enter(0), Write(0, u)];
      && Runs(same, Start(Obj([])), steps)
      && var d := Final(same, Start(Obj([])), steps);
      && d.events == [] && d.storage != Replay(same, Obj([]), d.events)
  {
    hide KeyPathText.Parse, SetPath, Clean;
    var p := KeyPathText.Parse(u.keypath).value;
    KeyPathText.ParsedIsScalar(u.keypath);
    UncleanChanges(same, p, u.value);
    assert Bare(p) == Obj([]);
    var m := After(same, Start(Obj([])), Enter(0));
    assert [Enter(0), Write(0, u)][1..] == [Write(0, u)] && [Write(0, u)][1..] == [];
    assert Runs(same, m, [Write(0, u)]);
    assert Final(same, m, [Write(0, u)]) == After(same, m, Write(0, u));
  }

  /** The runs that write under one path text, from any dict. */
  ghost predicate WritesUnder(same: Equality, first: Json, keypath: string, steps: seq<Step>) {
    && first.Obj? && Runs(same, Start(first), steps)
    && forall s | s in steps && s.Write? :: s.update.keypath == keypath
  }

  /** The log of every run under a path text replays exactly when the text is one of those. */
  lemma ReplaysExactly(same: Equality, keypath: string)
    ensures Logged(keypath) <==>
      forall first, steps | WritesUnder(same, first, keypath, steps) ::
        Final(same, Start(first), steps).storage == Replay(same, first, Final(same, Start(first), steps).events)
  {
    hide Logged, Replay, Runs, Final, AllHarmless;
    if Logged(keypath) {
      forall first, steps | WritesUnder(same, first, keypath, steps)
        ensures Final(same, Start(first), steps).storage
          == Replay(same, first, Final(same, Start(first), steps).events)
      {
        LoggedIsHarmless(same, Start(first), steps);
        ReplayNothing(same, first);
        EventsReplay(same, first, Start(first), steps);
      }
    } else {
      var u := Update(keypath, Null);
      HarmBreaksReplay(same, u);
      assert WritesUnder(same, Obj([]), keypath, [Enter(0), Write(0, u)]);
    }
  }

  lemma ReplayNothing(same: Equality, first: Json)
    ensures Replay(same, first, []) == first
  {
  }

  // ---- who is inside, and what is stored ----

  /** The lock lets a task in exactly when nobody else is inside; nested entries and exits count. */
  lemma TurnsExactly(same: Equality, m: Machine, s: Step, t: Task)
    requires Serial(m) && Enabled(m, s)
    ensures var d := After(same, m, s);
      var others := exists u: Task :: u != s.task && Inside(m, u) > 0;
      && (t != s.task ==> Inside(d, t) == Inside(m, t) && (t in d.waiting <==> t in m.waiting))
      && (s.Enter? || s.Wake? ==>
            && Inside(d, s.task) == Inside(m, s.task) + (if others then 0 else 1)
            && (s.task in d.waiting <==> others))
      && (s.Exit? ==>
            Inside(d, s.task) == (if Inside(m, s.task) > 0 then Inside(m, s.task) - 1 else 0) && s.task !in d.waiting)
      && (s.Cancel? ==> Inside(d, s.task) == Inside(m, s.task) && s.task !in d.waiting)
  {
    hide Stored;
    assert Inside(m, s.task) == if m.lock.owner == Some(s.task) then m.lock.depth else 0;
    if m.lock.owner.Some? && m.lock.owner.value != s.task {
      assert Inside(m, m.lock.owner.value) == m.lock.depth;
    }
    forall u: Task | u != s.task && Inside(m, u) > 0 ensures m.lock.owner == Some(u) {}
  }

  function WritesOf(steps: seq<Step>): seq<Update>
    decreases |steps|
  {
    if steps == [] then []
    else (if steps[0].Write? then [steps[0].update] else []) + WritesOf(steps[1..])
  }

  /** The storage after some writes, and those of them that returned. A text that is no path
      raises. */
  function InTurn(same: Equality, tree: Json, us: seq<Update>): (Json, seq<Update>)
    decreases |us|
  {
    if us == [] then (tree, []) else
      var p := KeyPathText.Parse(us[0].keypath);
      var (next, ok) := if p.None? then (tree, false) else SetPath(same, tree, p.value, us[0].value);
      var (last, told) := InTurn(same, next, us[1..]);
      (last, (if ok then [us[0]] else []) + told)
  }

  /** The storage is that of the writes one after the other, and an event tells of each that
      returned, in that order. */
  lemma {:induction false} WritesInTurn(same: Equality, m: Machine, steps: seq<Step>)
    ensures var d, (tree, told) := Final(same, m, steps), InTurn(same, m.storage, WritesOf(steps));
      d.storage == tree && d.events == m.events + told
    decreases |steps|
  {
    hide KeyPathText.Parse, SetPath, TryEnter, Leave;
    if steps == [] {
      assert m.events + [] == m.events;
    } else {
      var s, d := steps[0], After(same, m, steps[0]);
      WritesInTurn(same, d, steps[1..]);
      if s.Write? {
        var us := WritesOf(steps);
        assert us[0] == s.update && us[1..] == WritesOf(steps[1..]);
        var told := InTurn(same, d.storage, us[1..]).1;
        assert m.events + [s.update] + told == m.events + ([s.update] + told);
        assert m.events + told == m.events + ([] + told);
      } else {
        assert [] + WritesOf(steps[1..]) == WritesOf(steps[1..]);
      }
    }
  }
}
