/** The sliding-window limiter: it keeps a pruned list per key, and decides as if it
    had kept every attempt. */
module RateLimiter {
  import opened Basics

  datatype Config = Config(window: real, maxAttempts: int, block: real)

  /** What is kept for one key. */
  datatype Kept = Kept(attempts: seq<real>, until: Option<real>)

  datatype Outcome = Admitted | Over | Blocked

  /** The moments less than window before now. */
  function Recent(ms: seq<real>, now: real, window: real): seq<real> {
    if ms == [] then []
    else
      var front := Recent(ms[..|ms| - 1], now, window);
      if now - ms[|ms| - 1] < window then front + [ms[|ms| - 1]] else front
  }

  /** record_attempt for one key. */
  function Attempt(f: Config, k: Kept, now: real): (Kept, Outcome) {
    if k.until.Some? && k.until.value > now then (k, Blocked)
    else
      var attempts := Recent(k.attempts, now, f.window) + [now];
      if |attempts| > f.maxAttempts then (Kept(attempts, Some(now + f.block)), Over)
      else (Kept(attempts, k.until), Admitted)
  }

  /** The seconds to wait that the caller is told; None when admitted. */
  function Wait(f: Config, k: Kept, now: real): Option<int> {
    match Attempt(f, k, now).1
    case Blocked => Some((k.until.value - now).Floor + 1)
    case Over => Some(if f.block >= 0.0 then f.block.Floor else -((-f.block).Floor))
    case Admitted => None
  }

  // ---- the whole history of one key ----

  datatype Entry = Entry(at: real, outcome: Outcome)

  function Play(f: Config, times: seq<real>): (r: (Kept, seq<Entry>))
    ensures |r.1| == |times|
  {
    if times == [] then (Kept([], None), [])
    else
      var before := Play(f, times[..|times| - 1]);
      var now := times[|times| - 1];
      var after := Attempt(f, before.0, now);
      (after.0, before.1 + [Entry(now, after.1)])
  }

  /** The moments of all attempts that were not turned away by a block. */
  function Counted(log: seq<Entry>): seq<real> {
    if log == [] then []
    else
      var front := Counted(log[..|log| - 1]);
      if log[|log| - 1].outcome != Blocked then front + [log[|log| - 1].at] else front
  }

  /** The decision on the full history: no pruning, every past block remembered. */
  ghost function Decide(f: Config, log: seq<Entry>, now: real): Outcome {
    if exists i | 0 <= i < |log| :: log[i].outcome == Over && log[i].at + f.block > now then Blocked
    else if |Recent(Counted(log), now, f.window)| + 1 > f.maxAttempts then Over
    else Admitted
  }

  function AdmittedWithin(log: seq<Entry>, from: real, window: real): nat {
    if log == [] then 0
    else
      var last := log[|log| - 1];
      AdmittedWithin(log[..|log| - 1], from, window)
        + (if last.outcome == Admitted && from <= last.at < from + window then 1 else 0)
  }

  ghost predicate NonDecreasing(times: seq<real>) {
    forall i, j | 0 <= i < j < |times| :: times[i] <= times[j]
  }

  // ---- pruning loses nothing ----

  lemma {:induction false} RecentTwice(ms: seq<real>, a: real, b: real, window: real)
    requires a <= b
    ensures Recent(Recent(ms, a, window), b, window) == Recent(ms, b, window)
  {
    if ms != [] {
      var front, last := ms[..|ms| - 1], ms[|ms| - 1];
      RecentTwice(front, a, b, window);
      if a - last < window {
        assert Recent(ms, a, window) == Recent(front, a, window) + [last];
        RecentSnoc(Recent(front, a, window), last, b, window);
      }
    }
  }

  lemma RecentSnoc(ms: seq<real>, m: real, now: real, window: real)
    ensures Recent(ms + [m], now, window)
         == if now - m < window then Recent(ms, now, window) + [m] else Recent(ms, now, window)
  {
    assert (ms + [m])[..|ms|] == ms;
  }

  lemma CountedSnoc(log: seq<Entry>, e: Entry)
    ensures Counted(log + [e]) == if e.outcome != Blocked then Counted(log) + [e.at] else Counted(log)
  {
    assert (log + [e])[..|log|] == log;
  }

  /** What the kept state still knows, at any moment from now on. */
  ghost predicate Agrees(f: Config, k: Kept, log: seq<Entry>, now: real) {
    && (forall later | later >= now :: Recent(k.attempts, later, f.window) == Recent(Counted(log), later, f.window))
    && (forall i | 0 <= i < |log| && log[i].outcome == Over :: k.until.Some? && log[i].at + f.block <= k.until.value)
    && (k.until.Some? ==> exists i | 0 <= i < |log| :: log[i].outcome == Over && log[i].at + f.block == k.until.value)
    && (forall i | 0 <= i < |log| :: log[i].at <= now)
  }

  lemma AttemptAgrees(f: Config, k: Kept, log: seq<Entry>, before: real, now: real)
    requires before <= now && Agrees(f, k, log, before)
    ensures Attempt(f, k, now).1 == Decide(f, log, now)
    ensures var after := Attempt(f, k, now); Agrees(f, after.0, log + [Entry(now, after.1)], now)
  {
    var (k1, outcome) := Attempt(f, k, now);
    var log1 := log + [Entry(now, outcome)];
    CountedSnoc(log, Entry(now, outcome));
    assert |Recent(k.attempts, now, f.window)| == |Recent(Counted(log), now, f.window)|;
    forall later | later >= now ensures Recent(k1.attempts, later, f.window) == Recent(Counted(log1), later, f.window) {
      if outcome != Blocked {
        RecentTwice(k.attempts, now, later, f.window);
        RecentSnoc(Recent(k.attempts, now, f.window), now, later, f.window);
        RecentSnoc(Counted(log), now, later, f.window);
      }
    }
    if outcome == Over {
      assert log1[|log|].outcome == Over && log1[|log|].at + f.block == k1.until.value;
      OverKept(f, k, log, now);
    } else if k1.until.Some? {
      var i :| 0 <= i < |log| && log[i].outcome == Over && log[i].at + f.block == k.until.value;
      assert log1[i] == log[i];
    }
  }

  lemma OverKept(f: Config, k: Kept, log: seq<Entry>, now: real)
    requires Attempt(f, k, now).1 == Over
    requires forall i | 0 <= i < |log| && log[i].outcome == Over ::
      k.until.Some? && log[i].at + f.block <= k.until.value
    requires forall i | 0 <= i < |log| :: log[i].at <= now
    ensures forall i | 0 <= i < |log| && log[i].outcome == Over :: log[i].at + f.block <= now + f.block
  {
  }

  lemma {:induction false} PlayAgrees(f: Config, times: seq<real>, now: real)
    requires NonDecreasing(times) && (times != [] ==> times[|times| - 1] <= now)
    ensures Agrees(f, Play(f, times).0, Play(f, times).1, now)
    ensures forall i | 0 <= i < |times| :: Play(f, times).1[i].at == times[i]
  {
    hide Decide, Attempt;
    if times != [] {
      var front, last := times[..|times| - 1], times[|times| - 1];
      PlayAgrees(f, front, last);
      AttemptAgrees(f, Play(f, front).0, Play(f, front).1, last, last);
    }
  }

  /** The pruned list and the one remembered block decide like the full history. */
  lemma PrunedDecidesAsFull(f: Config, times: seq<real>, now: real)
    requires NonDecreasing(times) && (times != [] ==> times[|times| - 1] <= now)
    ensures Attempt(f, Play(f, times).0, now).1 == Decide(f, Play(f, times).1, now)
  {
    PlayAgrees(f, times, now);
    AttemptAgrees(f, Play(f, times).0, Play(f, times).1, now, now);
  }

  // ---- the decision, from the history alone ----

  /** The attempts of the last window that no block turned away, by their places in the log. */
  function Places(log: seq<Entry>, now: real, window: real): set<int> {
    set i | 0 <= i < |log| && log[i].outcome != Blocked && now - window < log[i].at
  }

  lemma {:induction false} PlacesCount(log: seq<Entry>, now: real, window: real)
    ensures |Recent(Counted(log), now, window)| == |Places(log, now, window)|
  {
    hide Recent, Counted, Places;
    if log == [] {
      NoPlaces(now, window);
    } else {
      var front, last := log[..|log| - 1], log[|log| - 1];
      assert log == front + [last];
      PlacesCount(front, now, window);
      PlacesSnoc(front, last, now, window);
      CountedSnoc(front, last);
      if last.outcome != Blocked {
        RecentSnoc(Counted(front), last.at, now, window);
      }
    }
  }

  lemma NoPlaces(now: real, window: real)
    ensures Places([], now, window) == {} && Recent(Counted([]), now, window) == []
  {
  }

  lemma PlacesSnoc(front: seq<Entry>, last: Entry, now: real, window: real)
    ensures |Places(front + [last], now, window)|
         == |Places(front, now, window)| + (if last.outcome != Blocked && now - last.at < window then 1 else 0)
  {
    var log := front + [last];
    assert forall i | 0 <= i < |front| :: log[i] == front[i];
    var more := if last.outcome != Blocked && now - last.at < window then {|front|} else {};
    assert Places(log, now, window) == Places(front, now, window) + more;
  }

  /** An attempt is turned away exactly while some earlier overrun still blocks; it overruns
      exactly if with it more than the limit fall into the window; else it is admitted. */
  lemma OutcomeExactly(f: Config, times: seq<real>, now: real)
    requires NonDecreasing(times) && (times != [] ==> times[|times| - 1] <= now)
    ensures var log, outcome := Play(f, times).1, Attempt(f, Play(f, times).0, now).1;
      && (outcome == Blocked <==> exists i | 0 <= i < |log| :: log[i].outcome == Over && now < log[i].at + f.block)
      && (outcome == Over <==> outcome != Blocked && |Places(log, now, f.window)| >= f.maxAttempts)
  {
    hide Play, Attempt, Places, Recent, Counted;
    PrunedDecidesAsFull(f, times, now);
    PlacesCount(Play(f, times).1, now, f.window);
  }

  /** The seconds to wait: while blocked, the first whole number past the rest of the block;
      on an overrun, the whole seconds of the block; and none if admitted. */
  lemma WaitExactly(f: Config, k: Kept, now: real)
    ensures var wait, outcome := Wait(f, k, now), Attempt(f, k, now).1;
      && (wait.None? <==> outcome == Admitted)
      && (outcome == Blocked ==>
            k.until.Some? && (wait.value - 1) as real <= k.until.value - now < wait.value as real)
      && (outcome == Over && f.block >= 0.0 ==> wait.value as real <= f.block < (wait.value + 1) as real)
      && (outcome == Over && f.block < 0.0 ==> (wait.value - 1) as real < f.block <= wait.value as real)
      && (outcome == Over ==> Attempt(f, k, now).0.until == Some(now + f.block))
  {
    hide Recent;
  }

  // ---- the limit ----

  lemma {:induction false} AdmittedAreRecent(log: seq<Entry>, from: real, window: real, t: real)
    requires t < from + window && forall i | 0 <= i < |log| :: log[i].at <= t
    ensures AdmittedWithin(log, from, window) <= |Recent(Counted(log), t, window)|
  {
    if log != [] {
      var front, last := log[..|log| - 1], log[|log| - 1];
      AdmittedAreRecent(front, from, window, t);
      assert log == front + [last];
      CountedSnoc(front, last);
      RecentSnoc(Counted(front), last.at, t, window);
    }
  }

  /** Any half-open interval of the window's length holds at most maxAttempts admitted
      calls of a key. */
  lemma {:induction false} AtMostMaxInAnyWindow(f: Config, times: seq<real>, from: real)
    requires NonDecreasing(times)
    ensures AdmittedWithin(Play(f, times).1, from, f.window) <= if f.maxAttempts > 0 then f.maxAttempts else 0
  {
    if times != [] {
      var front, now := times[..|times| - 1], times[|times| - 1];
      AtMostMaxInAnyWindow(f, front, from);
      var before, log := Play(f, front), Play(f, times).1;
      assert log[..|log| - 1] == before.1;
      var last := log[|log| - 1];
      if last.outcome == Admitted && from <= now < from + f.window {
        PlayAgrees(f, times, now);
        AdmittedAreRecent(log, from, f.window, now);
        RecentAll(Recent(before.0.attempts, now, f.window), before.0.attempts, now, f.window);
      }
    }
  }

  lemma {:induction false} RecentLength(ms: seq<real>, now: real, window: real)
    ensures |Recent(ms, now, window)| <= |ms|
  {
    if ms != [] { RecentLength(ms[..|ms| - 1], now, window); }
  }

  lemma RecentAll(recent: seq<real>, ms: seq<real>, now: real, window: real)
    requires recent == Recent(ms, now, window)
    ensures |Recent(recent + [now], now, window)| <= |recent| + 1
  {
    RecentLength(recent + [now], now, window);
  }

  /** Nothing is admitted, or even counted, while a block lasts. */
  lemma {:induction false} BlockHolds(f: Config, times: seq<real>, i: nat, j: nat)
    requires NonDecreasing(times) && i < j < |times|
    requires Play(f, times).1[i].outcome == Over && times[j] < times[i] + f.block
    ensures Play(f, times).1[j].outcome == Blocked
  {
    var front, now := times[..|times| - 1], times[|times| - 1];
    PlayAgrees(f, times, now);
    var before, log := Play(f, front), Play(f, times).1;
    assert log[..|times| - 1] == before.1;
    PlayAgrees(f, front, now);
    if j < |times| - 1 {
      BlockHolds(f, front, i, j);
    } else {
      AttemptAgrees(f, before.0, before.1, now, now);
      assert before.1[i] == log[i] && before.1[i].at == times[i];
    }
  }

  // ---- the limiter ----

  method Prune(moments: seq<real>, now: real, window: real) returns (recent: seq<real>)
    ensures recent == Recent(moments, now, window)
  {
    recent := [];
    for i := 0 to |moments|
      invariant recent == Recent(moments[..i], now, window)
    {
      assert moments[..i + 1] == moments[..i] + [moments[i]];
      RecentSnoc(moments[..i], moments[i], now, window);
      if now - moments[i] < window {
        recent := recent + [moments[i]];
      }
    }
    assert moments[..|moments|] == moments;
  }

  class Limiter {
    const config: Config
    var attempts: map<string, seq<real>>
    var blockedUntil: map<string, real>

    constructor (config: Config)
      ensures this.config == config && forall key :: StateOf(key) == Play(config, []).0
    {
      this.config := config;
      attempts, blockedUntil := map[], map[];
    }

    function StateOf(key: string): Kept
      reads this
    {
      Kept(if key in attempts then attempts[key] else [], if key in blockedUntil then Some(blockedUntil[key]) else None)
    }

    /** record_attempt; other keys are untouched. */
    method RecordAttempt(key: string, now: real) returns (wait: Option<int>)
      modifies this
      ensures StateOf(key) == Attempt(config, old(StateOf(key)), now).0
      ensures wait == Wait(config, old(StateOf(key)), now)
      ensures forall other | other != key :: StateOf(other) == old(StateOf(other))
    {
      hide Recent;
      if key in blockedUntil && blockedUntil[key] > now {
        return Some((blockedUntil[key] - now).Floor + 1);
      }
      var moments := if key in attempts then attempts[key] else [];
      var recent := Prune(moments, now, config.window);
      recent := recent + [now];
      attempts := attempts[key := recent];
      if |recent| > config.maxAttempts {
        blockedUntil := blockedUntil[key := now + config.block];
        return Some(if config.block >= 0.0 then config.block.Floor else -((-config.block).Floor));
      }
      wait := None;
    }
  }
}
