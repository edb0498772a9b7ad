/** The circuit breaker around a storage provider, its concurrent runs, and the failover router. */
module CircuitBreakers {
  import opened Common

  datatype State = CLOSED | OPEN | HALF_OPEN

  datatype Config = Config(failureThreshold: int, failureWindow: real, cooldown: real, successThreshold: int)

  /** The value of the breaker's fields. */
  datatype Breaker = Breaker(state: State, failures: seq<real>, openedAt: real, successes: int, canary: bool)

  const FRESH: Breaker := Breaker(CLOSED, [], 0.0, 0, false)

  datatype Admission = Rejected | Admitted(claimed: bool)

  // ---------- what each locked section does to the fields ----------

  function Entered(cfg: Config, b: Breaker, now: real): (Breaker, Admission) {
    if b.state == OPEN && now - b.openedAt < cfg.cooldown then (b, Rejected)
    else
      var b' := if b.state == OPEN then b.(state := HALF_OPEN, successes := 0, canary := false) else b;
      if b'.state != HALF_OPEN then (b', Admitted(false))
      else if b'.canary then (b', Rejected)
      else (b'.(canary := true), Admitted(true))
  }

  function Succeeded(cfg: Config, b: Breaker): Breaker {
    match b.state
    case HALF_OPEN =>
      if b.successes + 1 >= cfg.successThreshold
      then b.(canary := false, state := CLOSED, failures := [], successes := 0)
      else b.(canary := false, successes := b.successes + 1)
    case CLOSED => b.(failures := [])
    case OPEN => b
  }

  /** The deque after popping expired timestamps from its front. */
  function Purged(failures: seq<real>, cutoff: real): seq<real> {
    if failures != [] && failures[0] < cutoff then Purged(failures[1..], cutoff) else failures
  }

  function Failed(cfg: Config, b: Breaker, now: real): Breaker {
    match b.state
    case HALF_OPEN => b.(canary := false, state := OPEN, openedAt := now, successes := 0)
    case CLOSED =>
      var failures := Purged(b.failures, now - cfg.failureWindow) + [now];
      if |failures| >= cfg.failureThreshold
      then b.(failures := failures, state := OPEN, openedAt := now)
      else b.(failures := failures)
    case OPEN => b
  }

  /** The cleanup of a claimed call that ends without recording an outcome. */
  function Released(b: Breaker, now: real): Breaker {
    if b.state == HALF_OPEN && b.canary then b.(canary := false, state := OPEN, openedAt := now) else b
  }

  datatype Outcome = Returns | Raises | Cancelled

  /** The end of an admitted call. */
  function Ended(cfg: Config, b: Breaker, claimed: bool, outcome: Outcome, now: real): Breaker {
    match outcome
    case Returns => Succeeded(cfg, b)
    case Raises => Failed(cfg, b, now)
    case Cancelled => if claimed then Released(b, now) else b
  }

  /** A whole call that no other call interleaves with. */
  function Called(cfg: Config, b: Breaker, start: real, outcome: Outcome, end: real): (Breaker, Admission) {
    var (entered, a) := Entered(cfg, b, start);
    (if a.Admitted? then Ended(cfg, entered, a.claimed, outcome, end) else entered, a)
  }

  class CircuitBreaker {
    const config: Config
    var state: State
    var failureTimestamps: seq<real>
    var openedAt: real
    var consecutiveSuccesses: int
    var canaryInFlight: bool

    function View(): Breaker
      reads this
    {
      Breaker(state, failureTimestamps, openedAt, consecutiveSuccesses, canaryInFlight)
    }

    constructor (config: Config)
      ensures this.config == config && View() == FRESH
    {
      this.config := config;
      state, failureTimestamps, openedAt, consecutiveSuccesses, canaryInFlight := CLOSED, [], 0.0, 0, false;
    }

    /** The first locked section of `call`. */
    method Enter(now: real) returns (admission: Admission)
      modifies this
      ensures (View(), admission) == Entered(config, old(View()), now)
      ensures state == OPEN ==> admission == Rejected
      ensures state == HALF_OPEN ==> canaryInFlight
      ensures admission == Admitted(true) ==> state == HALF_OPEN && old(state == HALF_OPEN ==> !canaryInFlight)
    {
      if state == OPEN {
        if now - openedAt >= config.cooldown {
          state := HALF_OPEN;
          consecutiveSuccesses := 0;
          canaryInFlight := false;
        } else {
          return Rejected;
        }
      }
      if state == HALF_OPEN {
        if canaryInFlight {
          return Rejected;
        }
        canaryInFlight := true;
        return Admitted(true);
      }
      return Admitted(false);
    }

    method RecordSuccess()
      modifies this
      ensures View() == Succeeded(config, old(View()))
      ensures old(canaryInFlight ==> state == HALF_OPEN) ==> !canaryInFlight
      ensures state == CLOSED ==> failureTimestamps == []
    {
      if state == HALF_OPEN {
        canaryInFlight := false;
        consecutiveSuccesses := consecutiveSuccesses + 1;
        if consecutiveSuccesses >= config.successThreshold {
          state := CLOSED;
          failureTimestamps := [];
          consecutiveSuccesses := 0;
        }
      } else if state == CLOSED {
        failureTimestamps := [];
      }
    }

    method RecordFailure(now: real)
      modifies this
      ensures View() == Failed(config, old(View()), now)
      ensures old(canaryInFlight ==> state == HALF_OPEN) ==> !canaryInFlight
      ensures state != HALF_OPEN
      ensures old(state) != OPEN && state == OPEN ==> openedAt == now
    {
      if state == HALF_OPEN {
        canaryInFlight := false;
        state := OPEN;
        openedAt := now;
        consecutiveSuccesses := 0;
        return;
      }
      if state == CLOSED {
        var cutoff := now - config.failureWindow;
        while failureTimestamps != [] && failureTimestamps[0] < cutoff
          invariant View() == old(View()).(failures := failureTimestamps)
          invariant Purged(failureTimestamps, cutoff) == Purged(old(failureTimestamps), cutoff)
          decreases |failureTimestamps|
        {
          failureTimestamps := failureTimestamps[1..];
        }
        failureTimestamps := failureTimestamps + [now];
        if |failureTimestamps| >= config.failureThreshold {
          state := OPEN;
          openedAt := now;
        }
      }
    }

    /** The `finally` section, entered only with the claim still held. */
    method ReleaseCanary(now: real)
      modifies this
      ensures View() == Released(old(View()), now)
    {
      if state == HALF_OPEN && canaryInFlight {
        canaryInFlight := false;
        state := OPEN;
        openedAt := now;
      }
    }

    /** One whole call that no other call interleaves with; `outcome` is what the wrapped function does if invoked. */
    method Call(start: real, outcome: Outcome, end: real) returns (admission: Admission)
      modifies this
      ensures (View(), admission) == Called(config, old(View()), start, outcome, end)
    {
      admission := Enter(start);
      if admission.Admitted? {
        match outcome
        case Returns => RecordSuccess();
        case Raises => RecordFailure(end);
        case Cancelled =>
          if admission.claimed {
            ReleaseCanary(end);
          }
      }
    }
  }

  // ---------- concurrent runs ----------

  datatype Event =
    | Enter(id: nat, at: real)
    | End(id: nat, outcome: Outcome, at: real)

  /** A breaker with the calls now running (and whether each claimed the probe), plus its history: the failures
      recorded in CLOSED since the last reset, the times at which it opened, and the number of successes recorded since
      it last switched to HALF_OPEN. */
  datatype System = System(b: Breaker, clock: real, running: map<nat, bool>, log: seq<real>, openings: seq<real>,
                           won: nat)

  const START: System := System(FRESH, 0.0, map[], [], [], 0)

  /** Clocks do not run backwards; a call ends once. */
  predicate Legal(s: System, e: Event) {
    e.at >= s.clock && (e.End? <==> e.id in s.running)
  }

  function NewLog(s: System, e: Event, b': Breaker): seq<real> {
    if e.End? && e.outcome == Raises && s.b.state == CLOSED then s.log + [e.at]
    else if e.End? && e.outcome == Returns && b'.state == CLOSED then []
    else s.log
  }

  function NewWon(s: System, e: Event, b': Breaker): nat {
    if s.b.state != HALF_OPEN && b'.state == HALF_OPEN then 0
    else if e.End? && e.outcome == Returns then s.won + 1
    else s.won
  }

  function Next(cfg: Config, s: System, e: Event): System
    requires Legal(s, e)
  {
    var (b', running') := match e
      case Enter(id, at) =>
        var (b', a) := Entered(cfg, s.b, at);
        (b', if a.Admitted? then s.running[id := a.claimed] else s.running)
      case End(id, outcome, at) =>
        (Ended(cfg, s.b, s.running[id], outcome, at), s.running - {id});
    System(b', e.at, running', NewLog(s, e, b'),
           if s.b.state != OPEN && b'.state == OPEN then s.openings + [e.at] else s.openings, NewWon(s, e, b'))
  }

  predicate LegalRun(cfg: Config, s: System, run: seq<Event>)
    decreases |run|
  {
    run == [] || (Legal(s, run[0]) && LegalRun(cfg, Next(cfg, s, run[0]), run[1..]))
  }

  function After(cfg: Config, s: System, run: seq<Event>): System
    requires LegalRun(cfg, s, run)
    decreases |run|
  {
    if run == [] then s else After(cfg, Next(cfg, s, run[0]), run[1..])
  }

  // ---------- the sliding window ----------

  /** The entries of a log that are not older than the cutoff. */
  function Recent(log: seq<real>, cutoff: real): seq<real> {
    if log == [] then [] else (if log[0] >= cutoff then [log[0]] else []) + Recent(log[1..], cutoff)
  }

  ghost predicate Ordered(log: seq<real>, upTo: real) {
    (forall i, j | 0 <= i < j < |log| :: log[i] <= log[j]) && (forall i | 0 <= i < |log| :: log[i] <= upTo)
  }

  lemma {:induction false} RecentAll(log: seq<real>, cutoff: real)
    requires forall i | 0 <= i < |log| :: log[i] >= cutoff
    ensures Recent(log, cutoff) == log
  {
    if log != [] {
      RecentAll(log[1..], cutoff);
    }
  }

  /** Popping from the front of the recent part of an ordered log leaves the more recent part. */
  lemma {:induction false} PurgedIsRecent(log: seq<real>, upTo: real, before: real, cutoff: real)
    requires Ordered(log, upTo) && before <= cutoff
    ensures Purged(Recent(log, before), cutoff) == Recent(log, cutoff)
  {
    if log == [] {
    } else if log[0] >= cutoff {
      RecentAll(log, before);
      RecentAll(log, cutoff);
    } else {
      PurgedIsRecent(log[1..], upTo, before, cutoff);
      if log[0] >= before {
        var r := Recent(log, before);
        assert r[0] == log[0] && r[1..] == Recent(log[1..], before);
      } else {
        assert Recent(log, before) == Recent(log[1..], before);
      }
    }
  }

  lemma {:induction false} RecentSnoc(log: seq<real>, x: real, cutoff: real)
    ensures Recent(log + [x], cutoff) == Recent(log, cutoff) + if x >= cutoff then [x] else []
  {
    if log == [] {
      assert log + [x] == [x];
    } else {
      assert (log + [x])[1..] == log[1..] + [x];
      RecentSnoc(log[1..], x, cutoff);
      var head, tail := if log[0] >= cutoff then [log[0]] else [], if x >= cutoff then [x] else [];
      assert head + (Recent(log[1..], cutoff) + tail) == (head + Recent(log[1..], cutoff)) + tail;
    }
  }

  /** What holds in every reachable state. */
  ghost predicate WindowInv(cfg: Config, s: System) {
    && Ordered(s.log, s.clock)
    && s.b.failures == (if s.log == [] then [] else Recent(s.log, s.log[|s.log| - 1] - cfg.failureWindow))
    && |s.b.failures| <= cfg.failureThreshold
    && (s.b.state == CLOSED ==> |s.b.failures| < cfg.failureThreshold)
  }

  ghost predicate Sensible(cfg: Config) {
    cfg.failureThreshold >= 1 && cfg.failureWindow >= 0.0 && cfg.cooldown >= 0.0
  }

  /** The window is exact: a failure recorded in CLOSED leaves in the deque exactly the failures recorded in CLOSED
      since the last reset that are no older than the window, and trips the breaker iff they reach the threshold. */
  lemma TripsExactly(cfg: Config, s: System, id: nat, at: real)
    requires Sensible(cfg) && WindowInv(cfg, s) && s.b.state == CLOSED && Legal(s, End(id, Raises, at))
    ensures
      var s' := Next(cfg, s, End(id, Raises, at));
      var recent := Recent(s.log + [at], at - cfg.failureWindow);
      && s'.log == s.log + [at]
      && s'.b.failures == recent
      && |recent| <= cfg.failureThreshold
      && s'.b.state == (if |recent| == cfg.failureThreshold then OPEN else CLOSED)
  {
    var cutoff := at - cfg.failureWindow;
    RecentSnoc(s.log, at, cutoff);
    if s.log != [] {
      PurgedIsRecent(s.log, s.clock, s.log[|s.log| - 1] - cfg.failureWindow, cutoff);
    }
    PurgedShrinks(s.b.failures, cutoff);
  }

  lemma PurgedShrinks(failures: seq<real>, cutoff: real)
    ensures |Purged(failures, cutoff)| <= |failures|
  {
  }

  lemma WindowAfterFailure(cfg: Config, s: System, id: nat, at: real)
    requires Sensible(cfg) && WindowInv(cfg, s) && s.b.state == CLOSED && Legal(s, End(id, Raises, at))
    ensures WindowInv(cfg, Next(cfg, s, End(id, Raises, at)))
  {
    TripsExactly(cfg, s, id, at);
    var log := s.log + [at];
    assert log[|log| - 1] == at;
  }

  lemma WindowOtherwise(cfg: Config, s: System, e: Event)
    requires Sensible(cfg) && WindowInv(cfg, s) && Legal(s, e)
    requires !(e.End? && e.outcome == Raises && s.b.state == CLOSED)
    ensures WindowInv(cfg, Next(cfg, s, e))
  {
    var s' := Next(cfg, s, e);
    if e.End? && e.outcome == Returns && s'.b.state == CLOSED {
      assert s'.log == [] && s'.b.failures == [];
    } else {
      assert s'.log == s.log && s'.b.failures == s.b.failures;
      assert s'.b.state == CLOSED ==> s.b.state == CLOSED;
    }
  }

  lemma WindowStep(cfg: Config, s: System, e: Event)
    requires Sensible(cfg) && WindowInv(cfg, s) && Legal(s, e)
    ensures WindowInv(cfg, Next(cfg, s, e))
  {
    if e.End? && e.outcome == Raises && s.b.state == CLOSED {
      WindowAfterFailure(cfg, s, e.id, e.at);
    } else {
      WindowOtherwise(cfg, s, e);
    }
  }

  // ---------- the cooldown ----------

  ghost predicate CooldownInv(cfg: Config, s: System) {
    && Ordered(s.openings, s.clock)
    && (s.b.state == OPEN ==> s.openings != [] && s.b.openedAt == s.openings[|s.openings| - 1])
    && (s.b.state != OPEN ==> forall i | 0 <= i < |s.openings| :: s.openings[i] + cfg.cooldown <= s.clock)
  }

  /** After any opening at time t, no call is admitted before t + cooldown. */
  lemma NoCallDuringCooldown(cfg: Config, s: System, id: nat, at: real, i: nat)
    requires CooldownInv(cfg, s) && Legal(s, Enter(id, at)) && i < |s.openings|
    requires Entered(cfg, s.b, at).1.Admitted?
    ensures at >= s.openings[i] + cfg.cooldown
  {
    if s.b.state == OPEN {
      assert s.openings[i] <= s.openings[|s.openings| - 1];
    }
  }

  lemma CooldownStep(cfg: Config, s: System, e: Event)
    requires Sensible(cfg) && CooldownInv(cfg, s) && Legal(s, e)
    ensures CooldownInv(cfg, Next(cfg, s, e))
  {
    var s' := Next(cfg, s, e);
    if s.b.state == OPEN && s'.b.state != OPEN {
      forall i | 0 <= i < |s.openings| ensures s.openings[i] + cfg.cooldown <= e.at {
        assert s.openings[i] <= s.openings[|s.openings| - 1];
      }
    }
  }

  // ---------- the end of a probe ----------

  /** In HALF_OPEN the counter is the number of successes since the switch, and these were too few to close. */
  ghost predicate SuccessInv(cfg: Config, s: System) {
    s.b.state == HALF_OPEN ==> s.b.successes == s.won && (s.won == 0 || s.won < cfg.successThreshold)
  }

  lemma SuccessStep(cfg: Config, s: System, e: Event)
    requires SuccessInv(cfg, s) && Legal(s, e)
    ensures SuccessInv(cfg, Next(cfg, s, e))
  {
  }

  /** For every run of a new breaker: a success recorded in HALF_OPEN closes it iff it brings the number of successes
      since the switch to the threshold, and a breaker that closes has forgotten its failures. */
  lemma ClosesExactly(cfg: Config, run: seq<Event>, id: nat, at: real)
    requires Sensible(cfg) && LegalRun(cfg, START, run)
    requires After(cfg, START, run).b.state == HALF_OPEN && Legal(After(cfg, START, run), End(id, Returns, at))
    ensures
      var s := After(cfg, START, run);
      var s' := Next(cfg, s, End(id, Returns, at));
      && s'.won == s.won + 1
      && s'.b.state == (if s'.won >= cfg.successThreshold then CLOSED else HALF_OPEN)
      && (cfg.successThreshold >= 1 ==> s'.won <= cfg.successThreshold)
      && (s'.b.state == CLOSED ==> s'.b.failures == [] && s'.log == [])
  {
    EveryRun(cfg, run);
  }

  /** What ends HALF_OPEN the other way: exactly a failure, or a cancellation of the probe while its flag is up. Then
      no call is admitted before another cooldown is over. */
  lemma ReopensIff(cfg: Config, s: System, id: nat, outcome: Outcome, at: real, later: real)
    requires s.b.state == HALF_OPEN && Legal(s, End(id, outcome, at)) && outcome != Returns
    ensures
      var s' := Next(cfg, s, End(id, outcome, at));
      && s'.b.state == (if outcome == Raises || (s.running[id] && s.b.canary) then OPEN else HALF_OPEN)
      && (s'.b.state == OPEN ==>
            s'.openings == s.openings + [at] && (Entered(cfg, s'.b, later).1.Admitted? <==> later >= at + cfg.cooldown))
  {
  }

  // ---------- ownership of the probe ----------

  /** A raised flag means HALF_OPEN, and some running call holds a claim. */
  ghost predicate ProbeInv(s: System) {
    s.b.canary ==> s.b.state == HALF_OPEN && exists id :: id in s.running && s.running[id]
  }

  lemma ProbeStep(cfg: Config, s: System, e: Event)
    requires ProbeInv(s) && Legal(s, e)
    ensures ProbeInv(Next(cfg, s, e))
  {
    var s' := Next(cfg, s, e);
    if s'.b.canary {
      if e.Enter? {
        if s.b.canary && s.b.state == HALF_OPEN {
          var id :| id in s.running && s.running[id];
          assert id in s'.running && s'.running[id];
        } else {
          assert s'.running[e.id];
        }
      } else {
        var id :| id in s.running && s.running[id];
        assert id != e.id;
        assert id in s'.running && s'.running[id];
      }
    }
  }

  /** The flag is never lost: however a claimed call ends, the flag is down afterwards. */
  lemma ClaimEndsFlagDown(cfg: Config, s: System, id: nat, outcome: Outcome, at: real)
    requires ProbeInv(s) && Legal(s, End(id, outcome, at)) && s.running[id]
    ensures !Next(cfg, s, End(id, outcome, at)).b.canary
  {
  }

  /** And a breaker whose probe is gone admits the next call once the cooldown is over. */
  lemma NeverStuck(cfg: Config, s: System, id: nat, at: real)
    requires ProbeInv(s) && Legal(s, Enter(id, at))
    requires forall k | k in s.running :: !s.running[k]
    requires s.b.state == OPEN ==> at >= s.b.openedAt + cfg.cooldown
    ensures Entered(cfg, s.b, at).1.Admitted?
  {
  }

  // ---------- every run ----------

  ghost predicate Inv(cfg: Config, s: System) {
    WindowInv(cfg, s) && CooldownInv(cfg, s) && SuccessInv(cfg, s) && ProbeInv(s)
  }

  /** Every interleaving of enters, outcomes and cancellations keeps all four invariants. */
  lemma {:induction false} RunKeepsInv(cfg: Config, s: System, run: seq<Event>)
    requires Sensible(cfg) && Inv(cfg, s) && LegalRun(cfg, s, run)
    ensures Inv(cfg, After(cfg, s, run))
    decreases |run|
  {
    if run != [] {
      WindowStep(cfg, s, run[0]);
      CooldownStep(cfg, s, run[0]);
      SuccessStep(cfg, s, run[0]);
      ProbeStep(cfg, s, run[0]);
      RunKeepsInv(cfg, Next(cfg, s, run[0]), run[1..]);
    }
  }

  /** The invariants hold after every run of a new breaker. */
  lemma EveryRun(cfg: Config, run: seq<Event>)
    requires Sensible(cfg) && LegalRun(cfg, START, run)
    ensures Inv(cfg, After(cfg, START, run))
  {
    RunKeepsInv(cfg, START, run);
  }

  // ---------- one call at a time while HALF_OPEN ----------

  predicate SingleProbe(s: System) {
    s.b.state == HALF_OPEN ==> |s.running| <= 1
  }

  predicate SingleProbeThroughout(cfg: Config, s: System, run: seq<Event>)
    requires LegalRun(cfg, s, run)
    decreases |run|
  {
    SingleProbe(s) && (run != [] ==> SingleProbeThroughout(cfg, Next(cfg, s, run[0]), run[1..]))
  }

  /** Whenever the breaker goes from OPEN to HALF_OPEN, no earlier call is still running. */
  predicate CleanSwitches(cfg: Config, s: System, run: seq<Event>)
    requires LegalRun(cfg, s, run)
    decreases |run|
  {
    run != [] ==>
      var s' := Next(cfg, s, run[0]);
      (s.b.state == OPEN && s'.b.state == HALF_OPEN ==> s.running == map[]) && CleanSwitches(cfg, s', run[1..])
  }

  /** While HALF_OPEN, the running call (if any) is the one that holds the flag. */
  ghost predicate OneOwner(s: System) {
    s.b.state == HALF_OPEN ==>
      if s.b.canary then exists id :: s.running == map[id := true] else s.running == map[]
  }

  lemma OneOwnerStep(cfg: Config, s: System, e: Event)
    requires OneOwner(s) && Legal(s, e)
    requires s.b.state == OPEN && Next(cfg, s, e).b.state == HALF_OPEN ==> s.running == map[]
    ensures OneOwner(Next(cfg, s, e))
  {
    var s' := Next(cfg, s, e);
    if s'.b.state == HALF_OPEN {
      if e.Enter? && s'.running != s.running {
        assert s'.running == map[e.id := true];
      } else if e.End? {
        var id :| s.running == map[id := true];
        assert s'.running == map[];
      }
    }
  }

  /** At most one call runs while HALF_OPEN, throughout a run, exactly when no earlier call is running at any switch
      from OPEN to HALF_OPEN. */
  lemma {:induction false} SingleProbeIff(cfg: Config, s: System, run: seq<Event>)
    requires LegalRun(cfg, s, run) && OneOwner(s)
    ensures SingleProbeThroughout(cfg, s, run) <==> CleanSwitches(cfg, s, run)
    decreases |run|
  {
    OneOwnerIsSingle(s);
    if run != [] {
      var s' := Next(cfg, s, run[0]);
      if s.b.state == OPEN && s'.b.state == HALF_OPEN && s.running != map[] {
        var id :| id in s.running;
        assert {id, run[0].id} <= s'.running.Keys;
        SubsetSize({id, run[0].id}, s'.running.Keys);
        assert !SingleProbe(s');
        assert !SingleProbeThroughout(cfg, s', run[1..]);
      } else {
        OneOwnerStep(cfg, s, run[0]);
        SingleProbeIff(cfg, s', run[1..]);
      }
    }
  }

  /** The same for every run of a new breaker. */
  lemma SingleProbeFromStartIff(cfg: Config, run: seq<Event>)
    requires LegalRun(cfg, START, run)
    ensures SingleProbeThroughout(cfg, START, run) <==> CleanSwitches(cfg, START, run)
  {
    SingleProbeIff(cfg, START, run);
  }

  lemma OneOwnerIsSingle(s: System)
    requires OneOwner(s)
    ensures SingleProbe(s)
  {
  }

  const STALE_CONFIG := Config(1, 30.0, 60.0, 2)
  const THREE_CALLS := System(FRESH, 0.0, map[1 := false, 2 := false, 3 := false], [], [], 0)
  const TRIPPED := System(Breaker(OPEN, [1.0], 1.0, 0, false), 1.0, map[2 := false, 3 := false], [1.0], [1.0], 0)
  const TWO_PROBES :=
    System(Breaker(HALF_OPEN, [1.0], 1.0, 1, true), 63.0, map[3 := false, 4 := true, 5 := true], [1.0], [1.0], 1)

  const LATE_RUN := [Enter(4, 61.0)] + ([End(2, Returns, 62.0)] + [Enter(5, 63.0)])
  const STALE_RUN := [Enter(1, 0.0)] + ([Enter(2, 0.0)] + ([Enter(3, 0.0)] + ([End(1, Raises, 1.0)] + LATE_RUN)))

  ghost predicate LeadsTo(s: System, run: seq<Event>, end: System) {
    LegalRun(STALE_CONFIG, s, run) && After(STALE_CONFIG, s, run) == end
  }

  /** Putting one legal event in front of a run. */
  lemma OneEarlier(s: System, e: Event, next: System, run: seq<Event>, end: System)
    requires Legal(s, e) && Next(STALE_CONFIG, s, e) == next && LeadsTo(next, run, end)
    ensures LeadsTo(s, [e] + run, end)
  {
    assert ([e] + run)[1..] == run;
  }

  lemma NothingLeadsNowhere(s: System)
    ensures LeadsTo(s, [], s)
  {
  }

  lemma SecondProbeFollows()
    ensures LeadsTo(TRIPPED, LATE_RUN, TWO_PROBES)
  {
    var probe :=
      System(Breaker(HALF_OPEN, [1.0], 1.0, 0, true), 61.0, map[2 := false, 3 := false, 4 := true], [1.0], [1.0], 0);
    var stale := System(Breaker(HALF_OPEN, [1.0], 1.0, 1, false), 62.0, map[3 := false, 4 := true], [1.0], [1.0], 1);
    NothingLeadsNowhere(TWO_PROBES);
    OneEarlier(stale, Enter(5, 63.0), TWO_PROBES, [], TWO_PROBES);
    assert [Enter(5, 63.0)] + [] == [Enter(5, 63.0)];
    OneEarlier(probe, End(2, Returns, 62.0), stale, [Enter(5, 63.0)], TWO_PROBES);
    OneEarlier(TRIPPED, Enter(4, 61.0), probe, [End(2, Returns, 62.0)] + [Enter(5, 63.0)], TWO_PROBES);
  }

  lemma ThreeCallsStart(run: seq<Event>)
    requires LeadsTo(THREE_CALLS, run, TWO_PROBES)
    ensures LeadsTo(START, [Enter(1, 0.0)] + ([Enter(2, 0.0)] + ([Enter(3, 0.0)] + run)), TWO_PROBES)
  {
    var s1 := System(FRESH, 0.0, map[1 := false], [], [], 0);
    var s2 := System(FRESH, 0.0, map[1 := false, 2 := false], [], [], 0);
    OneEarlier(s2, Enter(3, 0.0), THREE_CALLS, run, TWO_PROBES);
    OneEarlier(s1, Enter(2, 0.0), s2, [Enter(3, 0.0)] + run, TWO_PROBES);
    OneEarlier(START, Enter(1, 0.0), s1, [Enter(2, 0.0)] + ([Enter(3, 0.0)] + run), TWO_PROBES);
  }

  /** A stale success really does let a second probe in: calls 1 to 3 start in CLOSED, call 1 opens the breaker,
      call 4 is the probe, call 2 succeeds late and lowers the flag, and call 5 becomes a second probe. */
  lemma StaleSuccessAdmitsSecondProbe()
    ensures LegalRun(STALE_CONFIG, START, STALE_RUN)
    ensures After(STALE_CONFIG, START, STALE_RUN).b.state == HALF_OPEN
    ensures After(STALE_CONFIG, START, STALE_RUN).running == map[3 := false, 4 := true, 5 := true]
  {
    SecondProbeFollows();
    OneEarlier(THREE_CALLS, End(1, Raises, 1.0), TRIPPED, LATE_RUN, TWO_PROBES);
    ThreeCallsStart([End(1, Raises, 1.0)] + LATE_RUN);
    assert LeadsTo(START, STALE_RUN, TWO_PROBES);
  }

  // ---------- the failover router ----------

  datatype Destination = PRIMARY | SECONDARY | OUTBOX

  /** Cascading failover over two breakers and the local outbox. */
  class MultiCloudStorageRouter {
    const primary: CircuitBreaker
    const secondary: CircuitBreaker

    constructor (primary: CircuitBreaker, secondary: CircuitBreaker)
      ensures this.primary == primary && this.secondary == secondary
    {
      this.primary, this.secondary := primary, secondary;
    }

    /** `first` and `second` are what the cloud uploaders do if invoked. The result names the destination that took
        the payload (None when a cancellation passes through), `tried` the uploaders that were invoked, in order; only
        the last of them can have accepted. The two breakers may be one and the same. */
    method UploadChunk(first: Outcome, second: Outcome, t0: real, t1: real, t2: real, t3: real)
      returns (destination: Option<Destination>, tried: seq<Destination>)
      modifies primary, secondary
      ensures
        var (p, a1) := Called(primary.config, old(primary.View()), t0, first, t1);
        var s0 := if secondary == primary then p else old(secondary.View());
        var (s, a2) := Called(secondary.config, s0, t2, second, t3);
        var fallback := a1 == Rejected || first == Raises;
        && (destination == Some(PRIMARY) <==> a1.Admitted? && first == Returns)
        && (destination == Some(SECONDARY) <==> fallback && a2.Admitted? && second == Returns)
        && (destination == Some(OUTBOX) <==> fallback && (a2 == Rejected || second == Raises))
        && tried == (if a1.Admitted? then [PRIMARY] else [])
                  + (if fallback && a2.Admitted? then [SECONDARY] else [])
                  + (if destination == Some(OUTBOX) then [OUTBOX] else [])
        && primary.View() == (if fallback && secondary == primary then s else p)
        && (secondary != primary ==> secondary.View() == if fallback then s else old(secondary.View()))
    {
      tried := [];
      var a := primary.Call(t0, first, t1);
      if a.Admitted? {
        tried := [PRIMARY];
        if first == Returns {
          return Some(PRIMARY), tried;
        }
        if first == Cancelled {
          return None, tried;
        }
      }
      a := secondary.Call(t2, second, t3);
      if a.Admitted? {
        tried := tried + [SECONDARY];
        if second == Returns {
          return Some(SECONDARY), tried;
        }
        if second == Cancelled {
          return None, tried;
        }
      }
      return Some(OUTBOX), tried + [OUTBOX];
    }
  }
}
