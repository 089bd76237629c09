/**
 The counter of publisher workers (publisher_service/mod.rs). The listener reads the counter and increments it
 in two separate atomic operations; workers decrement it concurrently when they finish.
 */
module WorkerPool {

  const MAX_WORKERS: nat := 50
  const START_WORKERS: nat := 50

  /** Where the listener's loop is. */
  datatype Listener = Waiting | SawRoom | MustSpawn

  /**
   `counter` is the atomic usize. `live` workers are running, `starting` ones of the initial batch are counted
   but not spawned yet, and `lost` ones panicked without reaching their decrement.
   */
  datatype Pool = Pool(counter: int, live: nat, starting: nat, lost: nat, listener: Listener) {
    function Reserved(): nat {
      starting + if listener.MustSpawn? then 1 else 0
    }
  }

  datatype Step =
    | SpawnInitial
    | LoadCounter
    | FetchAdd
    | SpawnWorker
    | Finish
    | Panic

  function Start(): Pool {
    Pool(START_WORKERS, 0, START_WORKERS, 0, Waiting)
  }

  predicate Enabled(p: Pool, step: Step) {
    match step
    case SpawnInitial => p.starting > 0
    // The loop over the initial batch is over before the listener starts.
    case LoadCounter => p.starting == 0 && p.listener.Waiting?
    case FetchAdd => p.listener.SawRoom?
    case SpawnWorker => p.listener.MustSpawn?
    case Finish => p.live > 0
    case Panic => p.live > 0
  }

  function Next(p: Pool, step: Step): Pool
    requires Enabled(p, step)
  {
    match step
    case SpawnInitial => p.(starting := p.starting - 1, live := p.live + 1)
    case LoadCounter => p.(listener := if p.counter < MAX_WORKERS then SawRoom else Waiting)
    case FetchAdd => p.(counter := p.counter + 1, listener := MustSpawn)
    case SpawnWorker => p.(live := p.live + 1, listener := Waiting)
    case Finish => p.(counter := p.counter - 1, live := p.live - 1)
    case Panic => p.(live := p.live - 1, lost := p.lost + 1)
  }

  predicate IsRun(p: Pool, steps: seq<Step>)
    decreases |steps|
  {
    steps != [] ==> Enabled(p, steps[0]) && IsRun(Next(p, steps[0]), steps[1..])
  }

  function After(p: Pool, steps: seq<Step>): Pool
    requires IsRun(p, steps)
    decreases |steps|
  {
    if steps == [] then p else After(Next(p, steps[0]), steps[1..])
  }

  function Panics(steps: seq<Step>): nat {
    if steps == [] then 0 else (if steps[0] == Panic then 1 else 0) + Panics(steps[1..])
  }

  /** Room seen by the listener stays: nobody else increments. */
  predicate Counted(p: Pool) {
    && p.counter == p.live + p.Reserved() + p.lost
    && p.counter <= MAX_WORKERS
    && (p.listener.SawRoom? ==> p.counter < MAX_WORKERS)
  }

  lemma {:induction false} RunCounted(p: Pool, steps: seq<Step>)
    requires Counted(p) && IsRun(p, steps)
    ensures Counted(After(p, steps)) && After(p, steps).lost == p.lost + Panics(steps)
    decreases |steps|
  {
    if steps != [] {
      RunCounted(Next(p, steps[0]), steps[1..]);
    }
  }

  ghost predicate Exact(p: Pool, panics: nat) {
    && p.counter == p.live + p.Reserved() + panics
    && 0 <= p.counter <= MAX_WORKERS
    && p.live + p.Reserved() <= MAX_WORKERS - panics
    && (Enabled(p, Finish) ==> p.counter > 0)
  }

  lemma CountedIsExact(p: Pool)
    requires Counted(p)
    ensures Exact(p, p.lost)
  {
  }

  /**
   In every interleaving the counter is the number of running, reserved and panicked workers, at most
   MAX_WORKERS workers run, and the decrement never wraps around. Without panics the counter is exact; each
   panic takes one worker slot away for good.
   */
  lemma {:induction false} CounterExact(steps: seq<Step>)
    requires IsRun(Start(), steps)
    ensures Exact(After(Start(), steps), Panics(steps))
  {
    RunCounted(Start(), steps);
    CountedIsExact(After(Start(), steps));
  }

  function Initials(n: nat): seq<Step> {
    seq(n, i => SpawnInitial)
  }

  lemma {:induction false} SpawnsInitials(p: Pool, n: nat)
    ensures IsRun(p, Initials(n)) <==> n <= p.starting
    ensures n <= p.starting ==> After(p, Initials(n)).live == p.live + n
    decreases n
  {
    if n > 0 {
      assert Initials(n)[0] == SpawnInitial && Initials(n)[1..] == Initials(n - 1);
      if p.starting > 0 {
        SpawnsInitials(Next(p, SpawnInitial), n - 1);
      }
    }
  }

  /** Exactly 50 workers are spawned at the start. */
  lemma StartsFifty(n: nat)
    ensures IsRun(Start(), Initials(n)) <==> n <= 50
    ensures n <= 50 ==> After(Start(), Initials(n)).live == n
  {
    SpawnsInitials(Start(), n);
  }

  // ----- The listener spawns when there is room -----

  predicate IsWorkerStep(step: Step) {
    step.Finish? || step.Panic?
  }

  lemma {:induction false} WorkersKeepListener(p: Pool, steps: seq<Step>)
    requires Counted(p) && IsRun(p, steps) && forall i :: 0 <= i < |steps| ==> IsWorkerStep(steps[i])
    ensures After(p, steps).listener == p.listener && Counted(After(p, steps))
    decreases |steps|
  {
    if steps != [] {
      WorkersKeepListener(Next(p, steps[0]), steps[1..]);
    }
  }

  predicate Spawns(p: Pool) {
    Enabled(p, SpawnWorker) && Next(p, SpawnWorker) == p.(live := p.live + 1, listener := Waiting)
  }

  /** The listener counts a worker now and spawns it after these steps. */
  predicate CountsAndSpawns(p: Pool, beforeSpawn: seq<Step>) {
    && Enabled(p, FetchAdd)
    && (IsRun(Next(p, FetchAdd), beforeSpawn) ==> Spawns(After(Next(p, FetchAdd), beforeSpawn)))
  }

  lemma RoomIsUsed(p: Pool, beforeSpawn: seq<Step>)
    requires Counted(p) && p.listener.SawRoom?
    requires forall i :: 0 <= i < |beforeSpawn| ==> IsWorkerStep(beforeSpawn[i])
    ensures CountsAndSpawns(p, beforeSpawn)
  {
    if IsRun(Next(p, FetchAdd), beforeSpawn) {
      WorkersKeepListener(Next(p, FetchAdd), beforeSpawn);
    }
  }

  lemma LoadSeesRoom(p: Pool, panics: nat)
    requires Counted(p) && p.lost == panics && Enabled(p, LoadCounter)
    ensures Next(p, LoadCounter) == if p.live + panics < 50 then p.(listener := SawRoom) else p
    ensures Counted(Next(p, LoadCounter))
  {
  }

  ghost predicate AnswersWakeUp(p: Pool, panics: nat, beforeCount: seq<Step>, beforeSpawn: seq<Step>)
    requires Enabled(p, LoadCounter)
  {
    var q := Next(p, LoadCounter);
    if p.live + panics < 50 then
      IsRun(q, beforeCount) ==> CountsAndSpawns(After(q, beforeCount), beforeSpawn)
    else
      q == p
  }

  lemma AnswersCounted(p: Pool, panics: nat, beforeCount: seq<Step>, beforeSpawn: seq<Step>)
    requires Counted(p) && p.lost == panics && Enabled(p, LoadCounter)
    requires forall i :: 0 <= i < |beforeCount| ==> IsWorkerStep(beforeCount[i])
    requires forall i :: 0 <= i < |beforeSpawn| ==> IsWorkerStep(beforeSpawn[i])
    ensures AnswersWakeUp(p, panics, beforeCount, beforeSpawn)
  {
    LoadSeesRoom(p, panics);
    var q := Next(p, LoadCounter);
    if p.live + panics < 50 && IsRun(q, beforeCount) {
      WorkersKeepListener(q, beforeCount);
      RoomIsUsed(After(q, beforeCount), beforeSpawn);
    }
  }

  /**
   A wake-up is not lost while there is room: when the listener reads the counter and fewer than 50 workers run or have
   panicked, it goes on to count and spawn a worker, whatever the workers do before each of the two. Otherwise it waits
   again.
   */
  lemma WakeUpSpawns(steps: seq<Step>, p: Pool, beforeCount: seq<Step>, beforeSpawn: seq<Step>)
    requires IsRun(Start(), steps) && After(Start(), steps) == p && Enabled(p, LoadCounter)
    requires forall i :: 0 <= i < |beforeCount| ==> IsWorkerStep(beforeCount[i])
    requires forall i :: 0 <= i < |beforeSpawn| ==> IsWorkerStep(beforeSpawn[i])
    ensures AnswersWakeUp(p, Panics(steps), beforeCount, beforeSpawn)
  {
    StartCounted(steps);
    AnswersCounted(p, Panics(steps), beforeCount, beforeSpawn);
  }

  lemma StartCounted(steps: seq<Step>)
    requires IsRun(Start(), steps)
    ensures Counted(After(Start(), steps)) && After(Start(), steps).lost == Panics(steps)
  {
    RunCounted(Start(), steps);
  }
}
