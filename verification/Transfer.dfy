/** Cancellable transfers: the polled retry state machine against the plain retry loop, and the
    throughput arithmetic behind the progress estimate. Times and rates are reals. */
module Transfer {
  import opened Paths
  import opened Drive

  // ---- Attempts ---------------------------------------------------------------------

  datatype Output = Output(stdout: string, stderr: string, success: bool)

  /** How one attempt to run the CLI goes. */
  datatype Attempt = NoSpawn | Finishes(out: Output) | Breaks

  datatype Event = Spawned(attempt: nat) | Slept(ms: nat) | Cancelled

  const RETRIES: nat := 3
  const RETRY_DELAY_MS: nat := 300

  predicate Contains(s: string, part: string) {
    part <= s || (s != "" && Contains(s[1..], part))
  }

  predicate Transient(out: Output) {
    && !out.success
    && (Contains(out.stdout, "database is locked") || Contains(out.stdout, "SQLITE_BUSY") ||
        Contains(out.stderr, "database is locked") || Contains(out.stderr, "SQLITE_BUSY"))
  }

  ghost predicate Mentions(s: string, part: string) {
    exists before, after :: s == before + part + after
  }

  ghost predicate MentionsLock(s: string) {
    Mentions(s, "database is locked") || Mentions(s, "SQLITE_BUSY")
  }

  /** A failed attempt that says, on either stream, that the CLI's own database was busy. */
  ghost predicate LockedOut(out: Output) {
    !out.success && (MentionsLock(out.stdout) || MentionsLock(out.stderr))
  }

  lemma {:induction false} ContainsIff(s: string, part: string)
    ensures Contains(s, part) <==> Mentions(s, part)
  {
    if part <= s {
      assert s == "" + part + s[|part|..];
    } else if s != "" {
      ContainsIff(s[1..], part);
      if before, after :| s[1..] == before + part + after {
        assert s == ([s[0]] + before) + part + after;
      }
      if before, after :| s == before + part + after {
        assert before == "" ==> s == part + after;
        assert s[1..] == before[1..] + part + after;
      }
    }
  }

  lemma {:induction false} TransientIff(out: Output)
    ensures Transient(out) <==> LockedOut(out)
  {
    ContainsIff(out.stdout, "database is locked");
    ContainsIff(out.stdout, "SQLITE_BUSY");
    ContainsIff(out.stderr, "database is locked");
    ContainsIff(out.stderr, "SQLITE_BUSY");
  }

  /** The reference: attempts from number `i` on, with what they return and what they do. */
  function Tries(script: nat -> Attempt, i: nat): (Result<Output>, seq<Event>)
    requires i < RETRIES
    decreases RETRIES - i
  {
    match script(i)
    case NoSpawn => (Err(Spawn), [])
    case Breaks => (Err(Spawn), [Spawned(i)])
    case Finishes(out) =>
      if Transient(out) && i + 1 < RETRIES then
        var (res, log) := Tries(script, i + 1);
        (res, [Spawned(i), Slept(RETRY_DELAY_MS * (i + 1))] + log)
      else (Ok(out), [Spawned(i)])
  }

  /** What comes before attempt `n` when those before it were locked out. */
  function Before(n: nat): seq<Event>
    requires n < 3
  {
    if n == 0 then []
    else if n == 1 then [Spawned(0), Slept(300)]
    else [Spawned(0), Slept(300), Spawned(1), Slept(600)]
  }

  ghost predicate EndsWith(script: nat -> Attempt, n: nat, result: Result<Output>, log: seq<Event>) {
    && n < 3
    && (forall i :: 0 <= i < n ==> script(i).Finishes? && LockedOut(script(i).out))
    && (script(n).Finishes? && LockedOut(script(n).out) ==> n == 2)
    && result == (if script(n).Finishes? then Ok(script(n).out) else Err(Spawn))
    && log == Before(n) + (if script(n).NoSpawn? then [] else [Spawned(n)])
  }

  /** The result is that of the first attempt that is not locked out, or of the third; 300 and then 600
      milliseconds pass before the later ones. */
  lemma {:induction false} TriesBackOff(script: nat -> Attempt)
    ensures exists n :: EndsWith(script, n, Tries(script, 0).0, Tries(script, 0).1)
  {
    if script(0).Finishes? { TransientIff(script(0).out); }
    if script(1).Finishes? { TransientIff(script(1).out); }
    if !(script(0).Finishes? && LockedOut(script(0).out)) {
      assert EndsWith(script, 0, Tries(script, 0).0, Tries(script, 0).1);
    } else if !(script(1).Finishes? && LockedOut(script(1).out)) {
      SecondTry(script);
      assert EndsWith(script, 1, Tries(script, 0).0, Tries(script, 0).1);
    } else {
      ThirdTry(script);
      assert EndsWith(script, 2, Tries(script, 0).0, Tries(script, 0).1);
    }
  }

  lemma {:induction false} SecondTry(script: nat -> Attempt)
    requires script(0).Finishes? && Transient(script(0).out) && !(script(1).Finishes? && Transient(script(1).out))
    ensures Tries(script, 0) == (if script(1).Finishes? then Ok(script(1).out) else Err(Spawn),
                                 Before(1) + (if script(1).NoSpawn? then [] else [Spawned(1)]))
  {
    assert Tries(script, 0).1 == [Spawned(0), Slept(300)] + Tries(script, 1).1;
  }

  lemma {:induction false} ThirdTry(script: nat -> Attempt)
    requires script(0).Finishes? && Transient(script(0).out) && script(1).Finishes? && Transient(script(1).out)
    ensures Tries(script, 0) == (if script(2).Finishes? then Ok(script(2).out) else Err(Spawn),
                                 Before(2) + (if script(2).NoSpawn? then [] else [Spawned(2)]))
  {
    var third := Tries(script, 2);
    assert third == (if script(2).Finishes? then Ok(script(2).out) else Err(Spawn),
                     if script(2).NoSpawn? then [] else [Spawned(2)]);
    assert Tries(script, 1) == (third.0, [Spawned(1), Slept(600)] + third.1);
    assert Tries(script, 0) == (third.0, [Spawned(0), Slept(300)] + ([Spawned(1), Slept(600)] + third.1));
    assert Before(2) + third.1 == [Spawned(0), Slept(300)] + ([Spawned(1), Slept(600)] + third.1);
  }

  method RunOnce(script: nat -> Attempt, i: nat) returns (result: Result<Output>, log: seq<Event>)
    ensures match script(i)
      case NoSpawn => result == Err(Spawn) && log == []
      case Breaks => result == Err(Spawn) && log == [Spawned(i)]
      case Finishes(out) => result == Ok(out) && log == [Spawned(i)]
  {
    match script(i) {
      case NoSpawn => return Err(Spawn), [];
      case Breaks => return Err(Spawn), [Spawned(i)];
      case Finishes(out) => return Ok(out), [Spawned(i)];
    }
  }

  /** `CommandRunner::run`: the blocking retry loop. */
  method Run(script: nat -> Attempt) returns (result: Result<Output>, log: seq<Event>)
    ensures (result, log) == Tries(script, 0)
    ensures exists n :: EndsWith(script, n, result, log)
  {
    TriesBackOff(script);
    result, log := RunOnce(script, 0);
    SpawnsFirst(script, 0);
    var attempt := 1;
    while attempt < RETRIES && result.Ok?
      invariant 1 <= attempt <= RETRIES
      invariant script(attempt - 1).NoSpawn? ==>
                  result == Err(Spawn) && log == Tries(script, 0).1 && Tries(script, 0).0 == Err(Spawn)
      invariant script(attempt - 1).Breaks? ==>
                  result == Err(Spawn) && log == Tries(script, 0).1 && Tries(script, 0).0 == Err(Spawn)
      invariant script(attempt - 1).Finishes? ==> result == Ok(script(attempt - 1).out)
      invariant script(attempt - 1).Finishes? ==>
                  Tries(script, 0) == (Tries(script, attempt - 1).0, log + Tries(script, attempt - 1).1[1..])
    {
      if !Transient(result.value) {
        assert log + [] == log;
        return;
      }
      ghost var logged := log;
      log := log + [Slept(RETRY_DELAY_MS * attempt)];
      var more;
      result, more := RunOnce(script, attempt);
      ghost var before := log;
      log := log + more;
      NextAttempt(script, attempt, before);
      SpawnsFirst(script, attempt);
      if script(attempt).Finishes? {
        ghost var tail := Tries(script, attempt).1[1..];
        assert logged + ([Slept(RETRY_DELAY_MS * attempt)] + ([Spawned(attempt)] + tail)) ==
               before + [Spawned(attempt)] + tail;
      }
      attempt := attempt + 1;
    }
    assert log + [] == log;
  }

  lemma {:induction false} SpawnsFirst(script: nat -> Attempt, i: nat)
    requires i < RETRIES
    ensures script(i).NoSpawn? || Tries(script, i).1 == [Spawned(i)] + Tries(script, i).1[1..]
  {
  }

  lemma {:induction false} NextAttempt(script: nat -> Attempt, i: nat, before: seq<Event>)
    requires 0 < i < RETRIES && script(i - 1).Finishes? && Transient(script(i - 1).out)
    ensures Tries(script, i - 1).0 == Tries(script, i).0
    ensures Tries(script, i - 1).1[1..] == [Slept(RETRY_DELAY_MS * i)] + Tries(script, i).1
    ensures before + Tries(script, i).1 ==
            before + (if script(i).NoSpawn? then [] else [Spawned(i)] + Tries(script, i).1[1..])
  {
  }

  // ---- The polled handle ------------------------------------------------------------

  datatype PollResult = Pending(estimate: int) | Done(result: Result<Output>)

  /** `live` holds the numbers of the children that are running, `counted` what a transfer that went through
      adds to the throughput. */
  datatype State = State(
    attemptsMade: nat,
    cancelled: bool,
    live: set<nat>,
    log: seq<Event>,
    startedAt: real,
    rate: real,
    totalBytes: nat,
    counted: Option<Sample>)

  /** Bytes moved in a number of seconds. */
  datatype Sample = Sample(bytes: nat, secs: real)

  function Scale(x: real, factor: real): real {
    x * factor
  }

  function Min(a: real, b: real): real {
    if a <= b then a else b
  }

  /** Elapsed time at the average rate, never more than 95 percent of the total. */
  function Estimate(h: State, now: real): int {
    var raw := Scale(now - h.startedAt, h.rate);
    var bounded := Min(raw, h.totalBytes as real * 0.95);
    (if bounded < 0.0 then 0.0 else bounded).Floor
  }

  function Begun(startedAt: real, rate: real, totalBytes: nat): State {
    State(1, false, {0}, [Spawned(0)], startedAt, rate, totalBytes, None)
  }

  /** One poll: `outcome` is the current attempt's end, if it has ended, and `respawn` whether
      another spawn would work. */
  function PollStep(h: State, outcome: Option<Attempt>, respawn: bool, now: real): (State, PollResult) {
    var ended := h.(live := {});
    match outcome
    case None => (h, Pending(Estimate(h, now)))
    case Some(Finishes(out)) =>
      if !h.cancelled && Transient(out) && h.attemptsMade < RETRIES then
        var slept := ended.(log := h.log + [Slept(RETRY_DELAY_MS * h.attemptsMade)]);
        if respawn then
          var again := slept.(attemptsMade := h.attemptsMade + 1, live := {h.attemptsMade},
                              log := slept.log + [Spawned(h.attemptsMade)]);
          (again, Pending(Estimate(again, now)))
        else (slept, Done(Err(Spawn)))
      else
        (ended.(counted := if out.success then Some(Sample(h.totalBytes, now - h.startedAt)) else h.counted),
         Done(Ok(out)))
    case Some(_) => (ended, Done(Err(Spawn)))
  }

  function CancelStep(h: State): State {
    h.(cancelled := true, log := h.log + [Cancelled])
  }

  class TransferHandle {
    var attemptsMade: nat
    var cancelled: bool
    var live: set<nat>
    var log: seq<Event>
    const startedAt: real
    const rate: real
    const totalBytes: nat
    var counted: Option<Sample>

    function Now(): State
      reads this
    {
      State(attemptsMade, cancelled, live, log, startedAt, rate, totalBytes, counted)
    }

    /** `start`, once the first spawn worked. */
    constructor (startedAt: real, rate: real, totalBytes: nat)
      ensures Now() == Begun(startedAt, rate, totalBytes)
    {
      this.startedAt, this.rate, this.totalBytes := startedAt, rate, totalBytes;
      attemptsMade, cancelled, live, log, counted := 1, false, {0}, [Spawned(0)], None;
    }

    method Poll(outcome: Option<Attempt>, respawn: bool, now: real) returns (poll: PollResult)
      modifies this
      ensures (Now(), poll) == PollStep(old(Now()), outcome, respawn, now)
    {
      if outcome.None? {
        return Pending(Estimate(Now(), now));
      }
      live := {};
      if !outcome.value.Finishes? {
        return Done(Err(Spawn));
      }
      var out := outcome.value.out;
      if cancelled || !Transient(out) || attemptsMade >= RETRIES {
        if out.success {
          counted := Some(Sample(totalBytes, now - startedAt));
        }
        return Done(Ok(out));
      }
      log := log + [Slept(RETRY_DELAY_MS * attemptsMade)];
      if !respawn {
        return Done(Err(Spawn));
      }
      live := {attemptsMade};
      log := log + [Spawned(attemptsMade)];
      attemptsMade := attemptsMade + 1;
      return Pending(Estimate(Now(), now));
    }

    method Cancel()
      modifies this
      ensures Now() == CancelStep(old(Now()))
    {
      cancelled := true;
      log := log + [Cancelled];
    }
  }

  /** A poll retries exactly when the attempt was locked out, nobody cancelled, and fewer than three were made:
      after 300 milliseconds for each attempt so far. Any other end of the attempt is the answer. */
  lemma {:induction false} RetriesIff(h: State, outcome: Option<Attempt>, respawn: bool, now: real)
    ensures var (h', poll) := PollStep(h, outcome, respawn, now);
      var retries := outcome.Some? && outcome.value.Finishes? && LockedOut(outcome.value.out) &&
                     !h.cancelled && h.attemptsMade < 3;
      && h'.log == h.log + (if retries then [Slept(300 * h.attemptsMade)] else []) +
                   (if retries && respawn then [Spawned(h.attemptsMade)] else [])
      && (poll.Pending? <==> outcome.None? || (retries && respawn))
      && (poll.Pending? ==> poll.estimate == Estimate(h, now))
      && (poll.Done? ==>
            && h'.live == {}
            && poll.result == if !retries && outcome.value.Finishes? then Ok(outcome.value.out) else Err(Spawn))
  {
    if outcome.Some? && outcome.value.Finishes? { TransientIff(outcome.value.out); }
  }

  // ---- Refinement -------------------------------------------------------------------

  /** Polls until done; `ready[k]` says whether the k-th poll finds the current attempt ended. */
  function PollAll(h: State, script: nat -> Attempt, ready: seq<bool>, now: real): (State, Option<Result<Output>>)
    requires 0 < h.attemptsMade
    decreases |ready|
  {
    if ready == [] then (h, None)
    else
      var outcome := if ready[0] then Some(script(h.attemptsMade - 1)) else None;
      var (h1, poll) := PollStep(h, outcome, !script(h.attemptsMade).NoSpawn?, now);
      match poll
      case Done(result) => (h1, Some(result))
      case Pending(_) => PollAll(h1, script, ready[1..], now)
  }

  lemma {:induction false} PollsFinishTheTries(h: State, script: nat -> Attempt, ready: seq<bool>, now: real)
    requires 0 < h.attemptsMade <= RETRIES && !h.cancelled && !script(h.attemptsMade - 1).NoSpawn?
    ensures var (h', result) := PollAll(h, script, ready, now);
      result.Some? ==> result.value == Tries(script, h.attemptsMade - 1).0 &&
                       h'.log == h.log + Tries(script, h.attemptsMade - 1).1[1..]
    decreases |ready|
  {
    if ready != [] {
      var i := h.attemptsMade - 1;
      var outcome := if ready[0] then Some(script(i)) else None;
      var (h1, poll) := PollStep(h, outcome, !script(h.attemptsMade).NoSpawn?, now);
      if poll.Pending? {
        PollsFinishTheTries(h1, script, ready[1..], now);
        if ready[0] {
          NextAttempt(script, h.attemptsMade, h.log);
          assert h.log + ([Slept(RETRY_DELAY_MS * h.attemptsMade)] + Tries(script, h.attemptsMade).1) ==
                 h.log + [Slept(RETRY_DELAY_MS * h.attemptsMade)] + [Spawned(h.attemptsMade)] +
                 Tries(script, h.attemptsMade).1[1..];
        }
      } else if ready[0] && h1.log != h.log {
        NextAttempt(script, h.attemptsMade, h.log);
      }
    }
  }

  /** However the polls fall, the handle returns what the blocking loop returns, after the same
      spawns and the same back-off delays. */
  lemma {:induction false} PollingRefinesRun(script: nat -> Attempt, ready: seq<bool>, startedAt: real, rate: real,
                                             total: nat, now: real)
    requires !script(0).NoSpawn?
    ensures var (h', result) := PollAll(Begun(startedAt, rate, total), script, ready, now);
      result.Some? ==> (result.value, h'.log) == Tries(script, 0)
  {
    PollsFinishTheTries(Begun(startedAt, rate, total), script, ready, now);
    assert Tries(script, 0).1 == [Spawned(0)] + Tries(script, 0).1[1..];
  }

  function Readies(ready: seq<bool>): nat {
    if ready == [] then 0 else (if ready[0] then 1 else 0) + Readies(ready[1..])
  }

  /** As many polls that find an attempt ended as there may be attempts bring the end. */
  lemma {:induction false} PollingEnds(h: State, script: nat -> Attempt, ready: seq<bool>, now: real)
    requires 0 < h.attemptsMade <= RETRIES && Readies(ready) > RETRIES - h.attemptsMade
    ensures PollAll(h, script, ready, now).1.Some?
    decreases |ready|
  {
    var outcome := if ready[0] then Some(script(h.attemptsMade - 1)) else None;
    var (h1, poll) := PollStep(h, outcome, !script(h.attemptsMade).NoSpawn?, now);
    if poll.Pending? {
      PollingEnds(h1, script, ready[1..], now);
    }
  }

  // ---- Every run --------------------------------------------------------------------

  datatype Input = PollInput(outcome: Option<Attempt>, respawn: bool, now: real) | CancelInput

  function Spawns(log: seq<Event>): nat {
    if log == [] then 0 else Spawns(log[..|log| - 1]) + (if log[|log| - 1].Spawned? then 1 else 0)
  }

  /** At most one live child, the latest; never a fourth spawn; none after a cancel; each delay
      is the one due after that many attempts. */
  predicate Orderly(h: State) {
    && 0 < h.attemptsMade <= RETRIES && Spawns(h.log) == h.attemptsMade
    && h.live <= {h.attemptsMade - 1}
    && (forall i, j :: 0 <= i < j < |h.log| && h.log[i].Cancelled? ==> !h.log[j].Spawned?)
    && ((exists i :: 0 <= i < |h.log| && h.log[i].Cancelled?) <==> h.cancelled)
    && (forall i :: 0 <= i < |h.log| && h.log[i].Slept? ==> h.log[i].ms == RETRY_DELAY_MS * Spawns(h.log[..i]))
  }

  function Apply(h: State, input: Input): (State, bool) {
    match input
    case PollInput(outcome, respawn, now) =>
      var (h', poll) := PollStep(h, outcome, respawn, now);
      (h', poll.Done?)
    case CancelInput => (CancelStep(h), false)
  }

  /** A run stops when a poll reports the end. */
  function After(h: State, inputs: seq<Input>): State
    decreases |inputs|
  {
    if inputs == [] then h
    else
      var (h1, done) := Apply(h, inputs[0]);
      if done then h1 else After(h1, inputs[1..])
  }

  lemma {:induction false} LogGrows(h: State, event: Event)
    requires Orderly(h) && (event.Spawned? ==> false) && (event.Slept? ==> event.ms == RETRY_DELAY_MS * h.attemptsMade)
    ensures Orderly(h.(log := h.log + [event], cancelled := h.cancelled || event.Cancelled?))
  {
    var log' := h.log + [event];
    assert log'[..|h.log|] == h.log;
    assert forall i :: 0 <= i < |h.log| ==> log'[..i] == h.log[..i];
    if h.cancelled {
      var i :| 0 <= i < |h.log| && h.log[i].Cancelled?;
      assert log'[i].Cancelled?;
    }
    assert log'[|h.log|] == event;
  }

  lemma {:induction false} SpawnGrows(h: State)
    requires Orderly(h) && !h.cancelled && h.attemptsMade < RETRIES
    ensures Orderly(h.(attemptsMade := h.attemptsMade + 1, live := {h.attemptsMade},
            log := h.log + [Spawned(h.attemptsMade)]))
  {
    var log' := h.log + [Spawned(h.attemptsMade)];
    assert log'[..|h.log|] == h.log;
    assert forall i :: 0 <= i < |h.log| ==> log'[..i] == h.log[..i];
    assert log'[|h.log|].Spawned?;
  }

  lemma {:induction false} PollKeepsOrder(h: State, outcome: Option<Attempt>, respawn: bool, now: real)
    requires Orderly(h)
    ensures Orderly(PollStep(h, outcome, respawn, now).0)
  {
    if outcome.Some? && outcome.value.Finishes? && !h.cancelled && Transient(outcome.value.out) &&
      h.attemptsMade < RETRIES {
      var ended := h.(live := {});
      LogGrows(ended, Slept(RETRY_DELAY_MS * h.attemptsMade));
      SpawnGrows(ended.(log := h.log + [Slept(RETRY_DELAY_MS * h.attemptsMade)]));
    }
  }

  /** Whatever the outcomes, polls and cancels, every run of a handle is orderly. */
  lemma {:induction false} AlwaysOrderly(h: State, inputs: seq<Input>)
    requires Orderly(h)
    ensures Orderly(After(h, inputs))
    decreases |inputs|
  {
    if inputs != [] {
      match inputs[0] {
        case PollInput(outcome, respawn, now) => PollKeepsOrder(h, outcome, respawn, now);
        case CancelInput => LogGrows(h, Cancelled);
      }
      if !Apply(h, inputs[0]).1 { AlwaysOrderly(Apply(h, inputs[0]).0, inputs[1..]); }
    }
  }

  lemma {:induction false} BegunIsOrderly(startedAt: real, rate: real, totalBytes: nat)
    ensures Orderly(Begun(startedAt, rate, totalBytes))
  {
    assert [Spawned(0)][..0] == [];
    assert Spawns([]) == 0;
  }

  /** The answer a run ends with, and when. */
  function Answer(h: State, inputs: seq<Input>): Option<(Result<Output>, real)>
    decreases |inputs|
  {
    if inputs == [] then None
    else
      match inputs[0]
      case CancelInput => Answer(CancelStep(h), inputs[1..])
      case PollInput(outcome, respawn, now) =>
        var (h1, poll) := PollStep(h, outcome, respawn, now);
        if poll.Done? then Some((poll.result, now)) else Answer(h1, inputs[1..])
  }

  /** A transfer counts towards the throughput exactly when it ends with a successful attempt: with all its
      bytes, over the time since the very first attempt. */
  lemma {:induction false} CountedIff(h: State, inputs: seq<Input>)
    requires h.counted.None?
    ensures var answer := Answer(h, inputs);
      After(h, inputs).counted ==
        if answer.Some? && answer.value.0.Ok? && answer.value.0.value.success
        then Some(Sample(h.totalBytes, answer.value.1 - h.startedAt)) else None
    decreases |inputs|
  {
    if inputs != [] && !Apply(h, inputs[0]).1 { CountedIff(Apply(h, inputs[0]).0, inputs[1..]); }
  }

  // ---- Progress ---------------------------------------------------------------------

  lemma {:induction false} ScaleMonotone(a: real, b: real, rate: real)
    requires a <= b && 0.0 <= rate
    ensures Scale(a, rate) <= Scale(b, rate)
  {
    assert (b - a) * rate >= 0.0;
  }

  lemma {:induction false} FloorMonotone(a: real, b: real)
    requires a <= b
    ensures a.Floor <= b.Floor
  {
  }

  /** Estimates of one transfer never go down and never pass the cap, retries included: a retry
      changes neither the start nor the rate. */
  lemma {:induction false} EstimatesClimb(h: State, inputs: seq<Input>, t1: real, t2: real)
    requires 0.0 <= h.rate && t1 <= t2
    ensures 0 <= Estimate(h, t1) <= Estimate(After(h, inputs), t2)
    ensures Estimate(After(h, inputs), t2) as real <= h.totalBytes as real * 0.95
    decreases |inputs|
  {
    SameClock(h, inputs);
    ScaleMonotone(t1 - h.startedAt, t2 - h.startedAt, h.rate);
    var cap := h.totalBytes as real * 0.95;
    var raw1, raw2 := Scale(t1 - h.startedAt, h.rate), Scale(t2 - h.startedAt, h.rate);
    var a, b := Min(raw1, cap), Min(raw2, cap);
    var c, d := if a < 0.0 then 0.0 else a, if b < 0.0 then 0.0 else b;
    assert raw1 <= raw2;
    assert a <= b;
    assert c <= d;
    FloorMonotone(c, d);
    FloorMonotone(0.0, c);
  }

  /** Below the cap the estimate is the elapsed time at the average rate, and then the cap, in whole bytes. */
  lemma {:induction false} EstimateTracks(h: State, now: real)
    requires 0.0 <= Scale(now - h.startedAt, h.rate)
    ensures var moved, cap := Scale(now - h.startedAt, h.rate), h.totalBytes as real * 0.95;
      var due := if moved <= cap then moved else cap;
      0.0 <= due - Estimate(h, now) as real < 1.0
  {
  }

  lemma {:induction false} SameClock(h: State, inputs: seq<Input>)
    ensures var h' := After(h, inputs);
      h'.startedAt == h.startedAt && h'.rate == h.rate && h'.totalBytes == h.totalBytes
    decreases |inputs|
  {
    if inputs != [] && !Apply(h, inputs[0]).1 { SameClock(Apply(h, inputs[0]).0, inputs[1..]); }
  }

  // ---- Throughput -------------------------------------------------------------------

  const DEFAULT_RATE: real := 3.0 * 1024.0 * 1024.0

  /** The totals after a series of samples; one without a positive duration is ignored. */
  function Total(samples: seq<Sample>): Sample
    decreases |samples|
  {
    if samples == [] then Sample(0, 0.0)
    else
      var before, last := Total(samples[..|samples| - 1]), samples[|samples| - 1];
      if last.secs > 0.0 then Sample(before.bytes + last.bytes, before.secs + last.secs) else before
  }

  function BytesPerSec(total: Sample): real {
    if total.secs <= 0.0 then DEFAULT_RATE else total.bytes as real / total.secs
  }

  class Throughput {
    var totalBytes: nat
    var totalSecs: real

    constructor ()
      ensures totalBytes == 0 && totalSecs == 0.0
    {
      totalBytes, totalSecs := 0, 0.0;
    }

    method Record(bytes: nat, secs: real, ghost samples: seq<Sample>)
      requires Sample(totalBytes, totalSecs) == Total(samples)
      modifies this
      ensures Sample(totalBytes, totalSecs) == Total(samples + [Sample(bytes, secs)])
    {
      assert (samples + [Sample(bytes, secs)])[..|samples|] == samples;
      if secs > 0.0 {
        totalBytes := totalBytes + bytes;
        totalSecs := totalSecs + secs;
      }
    }
  }

  /** All counted samples run at rates between `lo` and `hi`. */
  predicate Between(samples: seq<Sample>, lo: real, hi: real) {
    forall i :: 0 <= i < |samples| && samples[i].secs > 0.0 ==>
      lo <= samples[i].bytes as real / samples[i].secs <= hi
  }

  lemma {:induction false} RateTimesSecs(bytes: real, secs: real, lo: real, hi: real)
    requires secs > 0.0
    ensures lo <= bytes / secs <= hi <==> Scale(lo, secs) <= bytes <= Scale(hi, secs)
  {
    var rate := bytes / secs;
    assert Scale(rate, secs) == bytes;
    ScaleOrder(lo, rate, secs);
    ScaleOrder(rate, hi, secs);
  }

  lemma {:induction false} ScaleOrder(a: real, b: real, secs: real)
    requires secs > 0.0
    ensures a <= b <==> Scale(a, secs) <= Scale(b, secs)
  {
    if a <= b {
      assert (b - a) * secs >= 0.0;
    } else {
      assert (a - b) * secs > 0.0;
    }
  }

  lemma {:induction false} ScaleSum(rate: real, a: real, b: real)
    ensures Scale(rate, a + b) == Scale(rate, a) + Scale(rate, b)
  {
  }

  lemma {:induction false} TotalBetween(samples: seq<Sample>, lo: real, hi: real)
    requires Between(samples, lo, hi)
    ensures var total := Total(samples);
      0.0 <= total.secs && Scale(lo, total.secs) <= total.bytes as real <= Scale(hi, total.secs)
    decreases |samples|
  {
    if samples != [] {
      var before, last := samples[..|samples| - 1], samples[|samples| - 1];
      TotalBetween(before, lo, hi);
      var total := Total(before);
      if last.secs > 0.0 {
        RateTimesSecs(last.bytes as real, last.secs, lo, hi);
        ScaleSum(lo, total.secs, last.secs);
        ScaleSum(hi, total.secs, last.secs);
      }
    }
  }

  lemma {:induction false} TotalSecs(samples: seq<Sample>, k: nat)
    requires k < |samples| && samples[k].secs > 0.0
    ensures Total(samples).secs > 0.0
    decreases |samples|
  {
    var before := samples[..|samples| - 1];
    if k < |before| {
      assert before[k] == samples[k];
      TotalSecs(before, k);
    } else {
      TotalNotNegative(before);
    }
  }

  lemma {:induction false} TotalNotNegative(samples: seq<Sample>)
    ensures Total(samples).secs >= 0.0
    decreases |samples|
  {
    if samples != [] { TotalNotNegative(samples[..|samples| - 1]); }
  }

  /** The totals are sums: what two series add up to is added, and one sample counts if it took time. */
  lemma {:induction false} TotalSplits(a: seq<Sample>, b: seq<Sample>)
    ensures Total(a + b) == Sample(Total(a).bytes + Total(b).bytes, Total(a).secs + Total(b).secs)
    decreases |b|
  {
    if b == [] {
      assert a + b == a;
    } else {
      assert (a + b)[..|a + b| - 1] == a + b[..|b| - 1];
      TotalSplits(a, b[..|b| - 1]);
    }
  }

  lemma {:induction false} TotalOfOne(one: Sample)
    ensures Total([one]) == if one.secs > 0.0 then one else Sample(0, 0.0)
  {
    assert [one][..0] == [];
    assert Total([]) == Sample(0, 0.0);
  }

  /** The rate is all bytes over all seconds, or three mebibytes a second while nothing was counted. */
  lemma {:induction false} RateIs(samples: seq<Sample>)
    ensures var total := Total(samples);
      if exists k :: 0 <= k < |samples| && samples[k].secs > 0.0
      then total.secs > 0.0 && Scale(BytesPerSec(total), total.secs) == total.bytes as real
      else BytesPerSec(total) == 3145728.0
    decreases |samples|
  {
    if k :| 0 <= k < |samples| && samples[k].secs > 0.0 {
      TotalSecs(samples, k);
    } else if samples != [] {
      var before := samples[..|samples| - 1];
      assert forall k :: 0 <= k < |before| ==> before[k] == samples[k];
      RateIs(before);
    }
  }

  /** The running average lies between any bounds on the recorded rates, in particular between
      the slowest and the fastest. */
  lemma {:induction false} AverageIsBetween(samples: seq<Sample>, k: nat, lo: real, hi: real)
    requires k < |samples| && samples[k].secs > 0.0 && Between(samples, lo, hi)
    ensures lo <= BytesPerSec(Total(samples)) <= hi
  {
    TotalBetween(samples, lo, hi);
    TotalSecs(samples, k);
    RateTimesSecs(Total(samples).bytes as real, Total(samples).secs, lo, hi);
  }
}
