/** CellResolve.resolve for cells that are unique per scaffold or per identity: any number
    of tasks ask, the factory takes its time, and every key has one instance. Between
    looking for an instance and keeping one a task may be suspended while others run,
    fail or are cancelled; the instance lock keeps them from building as well. */
module Resolver {
  import opened Basics

  type Task = nat

  /** An instance, told apart from every other by its number. */
  type Instance = nat

  /** Who holds the instance lock, what each waiting task asked for, the instances kept,
      and what was built and returned so far. The scaffold's one instance has one key. */
  datatype Resolve = Resolve(
    holder: Option<Task>, wanted: map<Task, string>, instances: map<string, Instance>,
    built: seq<(string, Instance)>, returned: seq<(string, Instance)>)

  const NEW := Resolve(None, map[], map[], [], [])

  datatype Step =
    | Ask(task: Task, key: string)
    | Acquire(task: Task)
    | Built(task: Task, instance: Instance)
    | Fails(task: Task)
    | Cancel(task: Task)

  predicate Enabled(r: Resolve, s: Step) {
    match s
    case Ask(t, _) => t !in r.wanted
    case Acquire(t) => t in r.wanted && r.holder.None?
    case Built(t, _) => r.holder == Some(t)
    case Fails(t) => r.holder == Some(t)
    case Cancel(t) => t in r.wanted
  }

  /** A task that gets the lock returns a kept instance at once; otherwise it keeps the lock
      while the factory runs. */
  function After(r: Resolve, s: Step): Resolve {
    match s
    case Ask(t, key) => r.(wanted := r.wanted[t := key])
    case Acquire(t) =>
      if t !in r.wanted then r
      else if r.wanted[t] in r.instances then
        r.(wanted := r.wanted - {t}, returned := r.returned + [(r.wanted[t], r.instances[r.wanted[t]])])
      else r.(holder := Some(t))
    case Built(t, instance) =>
      if t !in r.wanted then r else
        var key := r.wanted[t];
        Resolve(None, r.wanted - {t}, r.instances[key := instance], r.built + [(key, instance)],
                r.returned + [(key, instance)])
    case Fails(t) => r.(holder := None, wanted := r.wanted - {t})
    case Cancel(t) => r.(holder := if r.holder == Some(t) then None else r.holder, wanted := r.wanted - {t})
  }

  ghost predicate Runs(r: Resolve, steps: seq<Step>)
    decreases |steps|
  {
    steps == [] || (Enabled(r, steps[0]) && Runs(After(r, steps[0]), steps[1..]))
  }

  function Final(r: Resolve, steps: seq<Step>): Resolve
    decreases |steps|
  {
    if steps == [] then r else Final(After(r, steps[0]), steps[1..])
  }

  ghost predicate BuiltKeeps(r: Resolve, i: nat) {
    i < |r.built| ==> r.built[i].0 in r.instances && r.instances[r.built[i].0] == r.built[i].1
  }

  ghost predicate ReturnKeeps(r: Resolve, i: nat) {
    i < |r.returned| ==> r.returned[i].0 in r.instances && r.instances[r.returned[i].0] == r.returned[i].1
  }

  ghost predicate Keeps(r: Resolve) {
    && (r.holder.Some? ==> r.holder.value in r.wanted && r.wanted[r.holder.value] !in r.instances)
    && (forall i: nat :: BuiltKeeps(r, i))
    && (forall i: nat :: ReturnKeeps(r, i))
    && (forall i, j | 0 <= i < j < |r.built| :: r.built[i].0 != r.built[j].0)
    && (forall k | k in r.instances :: (k, r.instances[k]) in r.built)
  }

  lemma StepKeeps(r: Resolve, s: Step)
    requires Keeps(r) && Enabled(r, s)
    ensures Keeps(After(r, s))
  {
    var d := After(r, s);
    forall i: nat ensures BuiltKeeps(d, i) { assert BuiltKeeps(r, i); }
    forall i: nat ensures ReturnKeeps(d, i) { assert ReturnKeeps(r, i); }
    forall i, j | 0 <= i < j < |d.built| ensures d.built[i].0 != d.built[j].0 { assert BuiltKeeps(r, i); }
  }

  lemma {:induction false} RunKeeps(r: Resolve, steps: seq<Step>)
    requires Keeps(r) && Runs(r, steps)
    ensures Keeps(Final(r, steps))
    decreases |steps|
  {
    hide After, Keeps, Enabled;
    if steps != [] {
      StepKeeps(r, steps[0]);
      RunKeeps(After(r, steps[0]), steps[1..]);
    }
  }

  /** Under any interleaving, failures and cancellations included, all answers for a key
      are one instance, and the factory's result is used once per key. */
  lemma OneInstancePerKey(steps: seq<Step>, i: nat, j: nat)
    requires Runs(NEW, steps)
    ensures var r := Final(NEW, steps);
      && (i < |r.returned| && j < |r.returned| && r.returned[i].0 == r.returned[j].0 ==> r.returned[i] == r.returned[j])
      && (i < |r.returned| ==> r.returned[i] in r.built)
      && (i < j < |r.built| ==> r.built[i].0 != r.built[j].0)
  {
    hide Runs, Final;
    RunKeeps(NEW, steps);
    var r := Final(NEW, steps);
    assert ReturnKeeps(r, i) && ReturnKeeps(r, j);
  }

  // ---- what each task gets ----

  lemma {:induction false} OnlyGrows(r: Resolve, steps: seq<Step>)
    requires Keeps(r) && Runs(r, steps)
    ensures var d := Final(r, steps);
      && r.returned <= d.returned && r.built <= d.built
      && forall k | k in r.instances :: k in d.instances && d.instances[k] == r.instances[k]
    decreases |steps|
  {
    hide Enabled;
    if steps != [] {
      StepKeeps(r, steps[0]);
      OnlyGrows(After(r, steps[0]), steps[1..]);
    }
  }

  lemma {:induction false} RunsSplit(r: Resolve, a: seq<Step>, steps: seq<Step>)
    requires Runs(r, a + steps)
    ensures Runs(r, a) && Runs(Final(r, a), steps) && Final(r, a + steps) == Final(Final(r, a), steps)
    decreases |a|
  {
    hide After, Enabled;
    if a == [] {
      assert a + steps == steps;
    } else {
      assert (a + steps)[1..] == a[1..] + steps && (a + steps)[0] == a[0];
      RunsSplit(After(r, a[0]), a[1..], steps);
    }
  }

  /** In every run: a task that gets the lock is given the instance kept for its key, if there
      is one, and lets the lock go; otherwise it builds, and what it builds is kept for the key
      from then on and is its answer. A build that fails or is cancelled keeps nothing and frees
      the lock. */
  lemma AnswersExactly(before: seq<Step>, s: Step, later: seq<Step>)
    requires Runs(NEW, before + ([s] + later))
    ensures var r, d, end := Final(NEW, before), After(Final(NEW, before), s), Final(NEW, before + ([s] + later));
      var n := |r.returned|;
      && (s.Ask? || s.task in r.wanted)
      && (s.Ask? ==> d == r.(wanted := r.wanted[s.task := s.key]))
      && (s.Acquire? ==>
            var k := r.wanted[s.task];
            if k in r.instances then
              && n < |end.returned| && end.returned[n] == (k, r.instances[k])
              && d.holder.None? && d.built == r.built && s.task !in d.wanted
            else d == r.(holder := Some(s.task)))
      && (s.Built? ==>
            var k := r.wanted[s.task];
            && n < |end.returned| && end.returned[n] == (k, s.instance)
            && k in end.instances && end.instances[k] == s.instance && (k, s.instance) in end.built
            && d.holder.None? && s.task !in d.wanted)
      && (s.Fails? || s.Cancel? ==>
            && d.instances == r.instances && d.built == r.built && d.returned == r.returned && s.task !in d.wanted
            && (d.holder.None? <==> r.holder.None? || r.holder == Some(s.task)))
  {
    hide Runs, Final, Keeps;
    NewKeeps();
    RunsSplit(NEW, before, [s] + later);
    RunKeeps(NEW, before);
    var r := Final(NEW, before);
    FirstStep(r, s, later);
    StepKeeps(r, s);
    OnlyGrows(After(r, s), later);
    HolderAsked(r);
    if s.Built? {
      var d := After(r, s);
      assert d.built[|r.built|] == (r.wanted[s.task], s.instance);
    }
  }

  lemma NewKeeps()
    ensures Keeps(NEW)
  {
  }

  lemma HolderAsked(r: Resolve)
    requires Keeps(r)
    ensures r.holder.Some? ==> r.holder.value in r.wanted
  {
  }

  lemma FirstStep(r: Resolve, s: Step, later: seq<Step>)
    requires Runs(r, [s] + later)
    ensures Enabled(r, s) && Runs(After(r, s), later) && Final(r, [s] + later) == Final(After(r, s), later)
  {
    assert ([s] + later)[1..] == later;
  }

  lemma Unroll(r: Resolve, steps: seq<Step>, k: nat)
    requires k < |steps| && Enabled(r, steps[k]) && Runs(After(r, steps[k]), steps[k + 1..])
    ensures Runs(r, steps[k..]) && Final(r, steps[k..]) == Final(After(r, steps[k]), steps[k + 1..])
  {
    assert steps[k..][1..] == steps[k + 1..];
  }

  /** Such runs exist: what one task builds another is given. */
  lemma OneBuildsForTwo()
    ensures var steps := [Ask(0, "k"), Acquire(0), Built(0, 7), Ask(1, "k"), Acquire(1)];
      Runs(NEW, steps) && Final(NEW, steps).returned == [("k", 7), ("k", 7)]
  {
    var steps := [Ask(0, "k"), Acquire(0), Built(0, 7), Ask(1, "k"), Acquire(1)];
    var r1 := After(NEW, steps[0]);
    var r2 := After(r1, steps[1]);
    var r3 := After(r2, steps[2]);
    var r4 := After(r3, steps[3]);
    assert steps[5..] == [] && steps[0..] == steps;
    Unroll(r4, steps, 4);
    Unroll(r3, steps, 3);
    Unroll(r2, steps, 2);
    Unroll(r1, steps, 1);
    Unroll(NEW, steps, 0);
  }
}
