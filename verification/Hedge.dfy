/**
 * The hedged connection race: attempts that acquire a socket, queue for the
 * one handshake slot and publish a win; a coordinator that launches, joins
 * and ticks; a drain that reports what is left after the winner. Every
 * interleaving is a sequence of atomic steps. Loads and stores of `won` and
 * locks and unlocks of the slot are steps of their own, except that a join
 * includes the coordinator's own use of `won`: see `JoinSeesWin`.
 */
module Hedge {
  import opened Wrappers
  import ChainIdentity

  type Candidate = ChainIdentity.ProxyConfig

  datatype Outcome = Ok | Failed | Lost

  /** Where one attempt stands in `attempt`, between two atomic steps. */
  datatype Pc =
    | Acquiring                   // waiting for the pool's socket
    | FirstCheck                  // socket in hand, `won` not looked at yet
    | Waiting                     // queued for the handshake slot
    | SecondCheck                 // holds the slot, about to look at `won` again
    | Handshaking                 // talking to its upstream
    | Publishing                  // succeeded, about to store `won`
    | Releasing(outcome: Outcome) // about to give the slot back
    | Finished(result: Outcome)   // task complete, not joined yet
    | Joined(joined: Outcome)     // taken out of the join set and reported

  /** Who has the handshake slot: an attempt, or for a moment the coordinator's `try_lock`. */
  datatype Holder = Task(i: nat) | Probe

  /** The coordinator: at the top of its loop, inside `select!`, in the three stages of a tick, or returned. */
  datatype Coordinator =
    | Top
    | Selecting
    | Checking  // ticked, about to try the slot
    | Dropping  // got the slot, about to drop the guard
    | Launching // saw the slot free, about to launch
    | Won(winner: nat)
    | GaveUp

  datatype ReportedAs = ReportedWon | LateSuccess | ReportedLost | ReportedFailed

  datatype Report = Report(index: nat, outcome: ReportedAs, afterWin: bool)

  /** `hedging` is false for a zero delay. */
  datatype Options = Options(candidates: seq<Candidate>, hedging: bool)

  datatype State = State(
    pending: seq<Candidate>, // not launched yet
    launched: seq<Candidate>,
    attempts: seq<Pc>,       // one for each launched candidate
    won: bool,
    slot: Option<Holder>,    // who holds the handshake mutex
    coordinator: Coordinator,
    armed: bool,             // a hedge deadline is set
    last: Option<nat>,       // the attempt whose error was joined last
    reports: seq<Report>)

  datatype Step =
    | AcquireOk(i: nat) | AcquireFail(i: nat)
    | CheckFirst(i: nat) | TakeSlot(i: nat) | CheckSecond(i: nat)
    | HandshakeOk(i: nat) | HandshakeFail(i: nat)
    | Publish(i: nat) | Release(i: nat)
    | LaunchNext(representable: bool) | Select | GiveUp
    | Join(i: nat) | Drain(i: nat)
    | Tick(representable: bool) | TryLock | DropGuard | LaunchOnTick

  function Init(opts: Options): State {
    State(opts.candidates, [], [], false, None, Top, false, None, [])
  }

  // ---- The steps ----

  predicate Is(s: State, i: nat, pc: Pc) {
    i < |s.attempts| && s.attempts[i] == pc
  }

  predicate Running(pc: Pc) {
    !pc.Joined?
  }

  predicate NoneRunning(s: State) {
    forall i :: 0 <= i < |s.attempts| ==> s.attempts[i].Joined?
  }

  predicate Pending(s: State) {
    s.pending != []
  }

  predicate Enabled(s: State, opts: Options, step: Step) {
    match step
    case AcquireOk(i) => Is(s, i, Acquiring)
    case AcquireFail(i) => Is(s, i, Acquiring)
    case CheckFirst(i) => Is(s, i, FirstCheck)
    case TakeSlot(i) => Is(s, i, Waiting) && s.slot.None?
    case CheckSecond(i) => Is(s, i, SecondCheck)
    case HandshakeOk(i) => Is(s, i, Handshaking)
    case HandshakeFail(i) => Is(s, i, Handshaking)
    case Publish(i) => Is(s, i, Publishing)
    case Release(i) => i < |s.attempts| && s.attempts[i].Releasing?
    // Top of the loop: launch when nothing is running, give up when nothing is left.
    case LaunchNext(_) => s.coordinator == Top && NoneRunning(s) && Pending(s)
    case Select => s.coordinator == Top && !NoneRunning(s)
    case GiveUp => s.coordinator == Top && NoneRunning(s) && !Pending(s)
    case Join(i) => s.coordinator == Selecting && i < |s.attempts| && s.attempts[i].Finished?
    case Drain(i) => s.coordinator.Won? && i < |s.attempts| && s.attempts[i].Finished?
    case Tick(_) => s.coordinator == Selecting && opts.hedging && Pending(s) && s.armed
    case TryLock => s.coordinator == Checking
    case DropGuard => s.coordinator == Dropping
    case LaunchOnTick => s.coordinator == Launching
  }

  function Move(s: State, i: nat, pc: Pc): State
    requires i < |s.attempts|
  {
    s.(attempts := s.attempts[i := pc])
  }

  /** `pending.next()` and `launch`. */
  function Launched(s: State): State
    requires Pending(s)
  {
    s.(pending := s.pending[1..], launched := s.launched + [s.pending[0]], attempts := s.attempts + [Acquiring])
  }

  /** `hedge_deadline`: nothing is armed for a zero delay, an empty queue or an unrepresentable instant. */
  predicate Arms(s: State, opts: Options, representable: bool) {
    opts.hedging && Pending(s) && representable
  }

  function Apply(s: State, opts: Options, step: Step): State
    requires Enabled(s, opts, step)
  {
    match step
    case AcquireOk(i) => Move(s, i, FirstCheck)
    case AcquireFail(i) => Move(s, i, Finished(Failed))
    case CheckFirst(i) => Move(s, i, if s.won then Finished(Lost) else Waiting)
    case TakeSlot(i) => Move(s, i, SecondCheck).(slot := Some(Task(i)))
    case CheckSecond(i) => Move(s, i, if s.won then Releasing(Lost) else Handshaking)
    case HandshakeOk(i) => Move(s, i, Publishing)
    case HandshakeFail(i) => Move(s, i, Releasing(Failed))
    case Publish(i) => Move(s, i, Releasing(Ok)).(won := true)
    case Release(i) => Move(s, i, Finished(s.attempts[i].outcome)).(slot := None)
    case LaunchNext(representable) =>
      var s' := Launched(s);
      s'.(armed := Arms(s', opts, representable), coordinator := Selecting)
    case Select => s.(coordinator := Selecting)
    case GiveUp => s.(coordinator := GaveUp)
    case Join(i) =>
      var joined := Move(s, i, Joined(s.attempts[i].result));
      (match s.attempts[i].result
       case Ok => joined.(won := true, coordinator := Won(i),
                          reports := s.reports + [Report(i, ReportedWon, false)])
       case Failed => joined.(coordinator := Top, last := Some(i),
                              reports := s.reports + [Report(i, ReportedFailed, false)])
       case Lost => joined.(coordinator := Top,
                            reports := s.reports + [Report(i, ReportedLost, s.won)]))
    case Tick(representable) => s.(armed := Arms(s, opts, representable), coordinator := Checking)
    case TryLock => if s.slot.None? then s.(slot := Some(Probe), coordinator := Dropping) else s.(coordinator := Top)
    case DropGuard => s.(slot := None, coordinator := Launching)
    case LaunchOnTick => (if Pending(s) then Launched(s) else s).(coordinator := Top)
    case Drain(i) =>
      var outcome := match s.attempts[i].result
        case Ok => LateSuccess
        case Failed => ReportedFailed
        case Lost => ReportedLost;
      Move(s, i, Joined(s.attempts[i].result)).(reports := s.reports + [Report(i, outcome, true)])
  }

  // ---- The invariant ----

  predicate HoldsSlot(pc: Pc) {
    pc.SecondCheck? || pc.Handshaking? || pc.Publishing? || pc.Releasing?
  }

  /** The attempt has completed a successful handshake. */
  predicate Succeeded(pc: Pc) {
    pc == Publishing || pc == Releasing(Ok) || pc == Finished(Ok) || pc == Joined(Ok)
  }

  predicate Beaten(pc: Pc) {
    pc == Releasing(Lost) || pc == Finished(Lost) || pc == Joined(Lost)
  }

  /** How the one report about a joined attempt must read. */
  predicate ReportsTruly(r: Report, pc: Pc) {
    match pc
    case Joined(Ok) => r.outcome == ReportedWon && !r.afterWin
    case Joined(Failed) => r.outcome == ReportedFailed
    case Joined(Lost) => r.outcome == ReportedLost && r.afterWin
    case _ => false
  }

  /** The mutex: the slot names exactly the attempt, or the coordinator, between lock and drop. */
  ghost predicate Exclusive(s: State) {
    && (s.slot.Some? && s.slot.value.Task? ==> s.slot.value.i < |s.attempts|)
    && (forall i: nat :: i < |s.attempts| ==> (HoldsSlot(s.attempts[i]) <==> s.slot == Some(Task(i))))
    && (s.coordinator == Dropping <==> s.slot == Some(Probe))
  }

  /** A success is unique, is published before its slot is freed, and bars every later handshake. */
  ghost predicate OneWinner(s: State) {
    && (forall i, j :: Succeeds(s, i) && Succeeds(s, j) ==> i == j)
    && (s.won <==> exists i :: Succeeds(s, i) && s.attempts[i] != Publishing)
    && (forall i :: 0 <= i < |s.attempts| && (s.attempts[i] == Handshaking || s.attempts[i] == Publishing) ==> !s.won)
    && (forall i :: 0 <= i < |s.attempts| && Beaten(s.attempts[i]) ==> s.won)
  }

  predicate Succeeds(s: State, i: int) {
    0 <= i < |s.attempts| && Succeeded(s.attempts[i])
  }

  /** Every joined attempt is reported exactly once, truthfully, and nothing else is. */
  ghost predicate Accounted(s: State) {
    && (forall k :: 0 <= k < |s.reports| ==>
          s.reports[k].index < |s.attempts| && ReportsTruly(s.reports[k], s.attempts[s.reports[k].index]))
    && (forall k, m :: 0 <= k < m < |s.reports| ==> s.reports[k].index != s.reports[m].index)
    && (forall i :: 0 <= i < |s.attempts| && s.attempts[i].Joined? ==>
          exists k :: 0 <= k < |s.reports| && s.reports[k].index == i)
  }

  /** In one of the stages of a tick. */
  predicate Ticking(c: Coordinator) {
    c == Checking || c == Dropping || c == Launching
  }

  /** The launched candidates and those still pending are the input, in order. */
  ghost predicate Queued(s: State, opts: Options) {
    s.launched + s.pending == opts.candidates && |s.launched| == |s.attempts|
  }

  ghost predicate Coordinated(s: State, opts: Options) {
    && (forall i :: 0 <= i < |s.attempts| && s.attempts[i] == Joined(Ok) ==> s.coordinator == Won(i))
    && (s.coordinator.Won? ==> Is(s, s.coordinator.winner, Joined(Ok)))
    && (s.coordinator == Selecting || Ticking(s.coordinator) ==> !NoneRunning(s))
    && (Ticking(s.coordinator) ==> opts.hedging && Pending(s))
    && (s.coordinator == GaveUp ==> !Pending(s) && NoneRunning(s))
    && (s.last.Some? ==> Is(s, s.last.value, Joined(Failed)))
    && (s.last.None? && !s.coordinator.Won? ==> forall i :: 0 <= i < |s.attempts| ==> s.attempts[i] != Joined(Failed))
    && (!opts.hedging ==> forall i :: 0 <= i < |s.attempts| - 1 ==> s.attempts[i].Joined?)
  }

  ghost predicate Inv(s: State, opts: Options) {
    Exclusive(s) && OneWinner(s) && Accounted(s) && Queued(s, opts) && Coordinated(s, opts)
  }

  lemma InitInv(opts: Options)
    ensures Inv(Init(opts), opts)
  {
  }

  /** A step of some attempt, as opposed to one of the coordinator or the drain. */
  predicate ByAttempt(step: Step) {
    && !(step.LaunchNext? || step.Select? || step.GiveUp? || step.Join? || step.Drain?)
    && !(step.Tick? || step.TryLock? || step.DropGuard? || step.LaunchOnTick?)
  }

  lemma AttemptKeepsExclusive(s: State, opts: Options, step: Step)
    requires Exclusive(s) && Enabled(s, opts, step) && ByAttempt(step)
    ensures Exclusive(Apply(s, opts, step))
  {
    var s' := Apply(s, opts, step);
    forall j: nat | j < |s.attempts| && j != step.i ensures s'.attempts[j] == s.attempts[j] {}
  }

  /** A step changes one attempt, and only a finished handshake makes a success of it. */
  lemma AttemptSuccesses(s: State, opts: Options, step: Step, j: int)
    requires Enabled(s, opts, step) && ByAttempt(step)
    ensures Succeeds(Apply(s, opts, step), j) <==> Succeeds(s, j) || (step.HandshakeOk? && j == step.i)
  {
  }

  lemma AttemptKeepsWinner(s: State, opts: Options, step: Step)
    requires Exclusive(s) && OneWinner(s) && Enabled(s, opts, step) && ByAttempt(step)
    ensures OneWinner(Apply(s, opts, step))
  {
    var s' := Apply(s, opts, step);
    var i := step.i;
    forall j ensures Succeeds(s', j) <==> Succeeds(s, j) || (step.HandshakeOk? && j == i) {
      AttemptSuccesses(s, opts, step, j);
    }
    if step.HandshakeOk? {
      forall j ensures !Succeeds(s, j) {}
    }
    if s.won {
      var w :| Succeeds(s, w) && s.attempts[w] != Publishing;
      assert Succeeds(s', w) && s'.attempts[w] != Publishing;
    }
    if step.Publish? { assert Succeeds(s', i) && s'.attempts[i] != Publishing; }
  }

  /** Everything but the attempts, the flag and the slot is irrelevant to the race itself. */
  lemma JoinKeepsRace(s: State, s': State, i: nat)
    requires Exclusive(s) && OneWinner(s) && i < |s.attempts| && s.attempts[i].Finished?
    requires s'.attempts == s.attempts[i := Joined(s.attempts[i].result)] && s'.slot == s.slot
    requires s'.won == (s.won || s.attempts[i] == Finished(Ok))
    requires s.coordinator != Dropping && s'.coordinator != Dropping
    ensures Exclusive(s') && OneWinner(s')
  {
    forall j ensures Succeeds(s', j) <==> Succeeds(s, j) {}
    if s'.won {
      assert s.attempts[i] == Finished(Ok) ==> Succeeds(s, i);
      var w :| Succeeds(s, w) && s.attempts[w] != Publishing;
      assert Succeeds(s', w) && s'.attempts[w] != Publishing;
    }
  }

  lemma LaunchKeepsRace(s: State, s': State)
    requires Exclusive(s) && OneWinner(s)
    requires s'.attempts == s.attempts || s'.attempts == s.attempts + [Acquiring]
    requires s'.slot == s.slot && s'.won == s.won
    requires s.coordinator != Dropping && s'.coordinator != Dropping
    ensures Exclusive(s') && OneWinner(s')
  {
    forall j ensures Succeeds(s', j) <==> Succeeds(s, j) {}
    if s.won {
      var w :| Succeeds(s, w) && s.attempts[w] != Publishing;
      assert Succeeds(s', w) && s'.attempts[w] != Publishing;
    }
  }

  /** The coordinator's `try_lock` and its drop touch nothing but the slot. */
  lemma ProbeKeepsRace(s: State, s': State)
    requires Exclusive(s) && OneWinner(s)
    requires s'.attempts == s.attempts && s'.won == s.won
    requires (s.slot.None? && s'.slot == Some(Probe) && s'.coordinator == Dropping && s.coordinator != Dropping)
          || (s.slot == Some(Probe) && s'.slot.None? && s'.coordinator != Dropping)
    ensures Exclusive(s') && OneWinner(s')
  {
    forall j ensures Succeeds(s', j) <==> Succeeds(s, j) {}
  }

  lemma StepKeepsRace(s: State, opts: Options, step: Step)
    requires Exclusive(s) && OneWinner(s) && Enabled(s, opts, step)
    ensures var s' := Apply(s, opts, step); Exclusive(s') && OneWinner(s')
  {
    if ByAttempt(step) {
      AttemptKeepsExclusive(s, opts, step);
      AttemptKeepsWinner(s, opts, step);
    } else if step.DropGuard? || (step.TryLock? && s.slot.None?) {
      ProbeKeepsRace(s, Apply(s, opts, step));
    } else if step.Join? || step.Drain? {
      JoinKeepsRace(s, Apply(s, opts, step), step.i);
    } else {
      LaunchKeepsRace(s, Apply(s, opts, step));
    }
  }

  /** No join, no new report: the books are untouched. */
  lemma BooksUntouched(s: State, s': State)
    requires Accounted(s) && s'.reports == s.reports && |s.attempts| <= |s'.attempts|
    requires forall i :: 0 <= i < |s'.attempts| && (i >= |s.attempts| || s'.attempts[i] != s.attempts[i]) ==>
      !s'.attempts[i].Joined? && (i < |s.attempts| ==> !s.attempts[i].Joined?)
    ensures Accounted(s')
  {
    forall i | 0 <= i < |s'.attempts| && s'.attempts[i].Joined?
      ensures exists k :: 0 <= k < |s'.reports| && s'.reports[k].index == i
    {
      assert s.attempts[i].Joined?;
    }
  }

  /** A join and its report are booked together. */
  lemma JoinIsBooked(s: State, s': State, i: nat, r: Report)
    requires Accounted(s) && i < |s.attempts| && s.attempts[i].Finished?
    requires s'.attempts == s.attempts[i := Joined(s.attempts[i].result)] && s'.reports == s.reports + [r]
    requires r.index == i && ReportsTruly(r, s'.attempts[i])
    ensures Accounted(s')
  {
    forall j | 0 <= j < |s'.attempts| && s'.attempts[j].Joined?
      ensures exists k :: 0 <= k < |s'.reports| && s'.reports[k].index == j
    {
      if j == i {
        assert s'.reports[|s.reports|].index == j;
      } else {
        var k :| 0 <= k < |s.reports| && s.reports[k].index == j;
        assert s'.reports[k].index == j;
      }
    }
  }

  /** The drain never meets a success: that attempt was joined by the coordinator. */
  lemma DrainMeetsNoSuccess(s: State, opts: Options, i: nat)
    requires Inv(s, opts) && Enabled(s, opts, Drain(i))
    ensures s.attempts[i] != Finished(Ok)
  {
    if s.attempts[i] == Finished(Ok) {
      assert Succeeds(s, i) && Succeeds(s, s.coordinator.winner);
    }
  }

  /**
   * When the coordinator joins a success or a loser, `won` is already set, for
   * good: its own store changes nothing, and when it loads does not matter.
   */
  lemma JoinSeesWin(s: State, opts: Options, i: nat, step: Step)
    requires Inv(s, opts) && Enabled(s, opts, Join(i)) && s.attempts[i].result != Failed
    requires Enabled(s, opts, step)
    ensures s.won && Apply(s, opts, step).won
  {
    if s.attempts[i].result == Ok { assert Succeeds(s, i) && s.attempts[i] != Publishing; }
    else { assert Beaten(s.attempts[i]); }
  }

  lemma AttemptTouchesNoJoined(s: State, opts: Options, step: Step)
    requires Enabled(s, opts, step) && ByAttempt(step)
    ensures var s' := Apply(s, opts, step);
      && s'.reports == s.reports && s'.coordinator == s.coordinator && s'.last == s.last
      && |s'.attempts| == |s.attempts| && step.i < |s.attempts|
      && !s.attempts[step.i].Joined? && !s'.attempts[step.i].Joined?
      && forall j :: 0 <= j < |s.attempts| && j != step.i ==> s'.attempts[j] == s.attempts[j]
  {
  }

  lemma AttemptKeepsAccounted(s: State, opts: Options, step: Step)
    requires Accounted(s) && Enabled(s, opts, step) && ByAttempt(step)
    ensures Accounted(Apply(s, opts, step))
  {
    AttemptTouchesNoJoined(s, opts, step);
    BooksUntouched(s, Apply(s, opts, step));
  }

  lemma JoinKeepsAccounted(s: State, opts: Options, step: Step)
    requires Inv(s, opts) && Enabled(s, opts, step) && (step.Join? || step.Drain?)
    ensures Accounted(Apply(s, opts, step))
  {
    var s' := Apply(s, opts, step);
    if step.Drain? { DrainMeetsNoSuccess(s, opts, step.i); }
    JoinIsBooked(s, s', step.i, s'.reports[|s.reports|]);
  }

  lemma StepKeepsAccounted(s: State, opts: Options, step: Step)
    requires Inv(s, opts) && Enabled(s, opts, step)
    ensures Accounted(Apply(s, opts, step))
  {
    if ByAttempt(step) {
      AttemptKeepsAccounted(s, opts, step);
    } else if step.Join? || step.Drain? {
      JoinKeepsAccounted(s, opts, step);
    } else {
      BooksUntouched(s, Apply(s, opts, step));
    }
  }

  lemma AttemptKeepsCoordinated(s: State, opts: Options, step: Step)
    requires Inv(s, opts) && Enabled(s, opts, step) && ByAttempt(step)
    ensures Coordinated(Apply(s, opts, step), opts)
  {
    AttemptTouchesNoJoined(s, opts, step);
  }

  /** Where a joined result takes the coordinator. */
  lemma ResultKeepsCoordinated(s: State, s': State, opts: Options, i: nat, result: Outcome)
    requires Coordinated(s, opts) && s.coordinator == Selecting && i < |s.attempts| && s.attempts[i].Finished?
    requires s'.attempts == s.attempts[i := Joined(result)]
    requires s'.coordinator == (if result == Ok then Won(i) else Top)
    requires s'.last == if result == Failed then Some(i) else s.last
    ensures Coordinated(s', opts)
  {
    assert Is(s', i, Joined(result));
    forall j | 0 <= j < |s.attempts| && j != i ensures s'.attempts[j] == s.attempts[j] {}
  }

  lemma JoinKeepsCoordinated(s: State, opts: Options, step: Step)
    requires Inv(s, opts) && Enabled(s, opts, step) && step.Join?
    ensures Coordinated(Apply(s, opts, step), opts)
  {
    ResultKeepsCoordinated(s, Apply(s, opts, step), opts, step.i, s.attempts[step.i].result);
  }

  lemma DrainKeepsCoordinated(s: State, opts: Options, step: Step)
    requires Inv(s, opts) && Enabled(s, opts, step) && step.Drain?
    ensures Coordinated(Apply(s, opts, step), opts)
  {
    DrainMeetsNoSuccess(s, opts, step.i);
  }

  lemma LaunchKeepsCoordinated(s: State, opts: Options, step: Step)
    requires Inv(s, opts) && Enabled(s, opts, step) && !ByAttempt(step) && !step.Join? && !step.Drain?
    ensures Coordinated(Apply(s, opts, step), opts)
  {
    var s' := Apply(s, opts, step);
    assert |s'.attempts| > |s.attempts| ==> !s'.attempts[|s.attempts|].Joined?;
  }

  lemma StepKeepsQueued(s: State, opts: Options, step: Step)
    requires Queued(s, opts) && Coordinated(s, opts) && Enabled(s, opts, step)
    ensures Queued(Apply(s, opts, step), opts)
  {
    if step.LaunchNext? || step.LaunchOnTick? {
      assert s.launched + s.pending == s.launched + [s.pending[0]] + s.pending[1..];
    }
  }

  /** The invariant is inductive: every step of every party keeps it. */
  lemma StepKeepsInv(s: State, opts: Options, step: Step)
    requires Inv(s, opts) && Enabled(s, opts, step)
    ensures Inv(Apply(s, opts, step), opts)
  {
    StepKeepsRace(s, opts, step);
    StepKeepsAccounted(s, opts, step);
    StepKeepsQueued(s, opts, step);
    if ByAttempt(step) { AttemptKeepsCoordinated(s, opts, step); }
    else if step.Join? { JoinKeepsCoordinated(s, opts, step); }
    else if step.Drain? { DrainKeepsCoordinated(s, opts, step); }
    else { LaunchKeepsCoordinated(s, opts, step); }
  }

  // ---- Whole runs ----

  /** Where the steps lead from the start, if each can be taken in turn. */
  function Execute(opts: Options, steps: seq<Step>): Option<State> {
    if steps == [] then Some(Init(opts))
    else
      var before := Execute(opts, steps[..|steps| - 1]);
      var step := steps[|steps| - 1];
      if before.Some? && Enabled(before.value, opts, step) then Some(Apply(before.value, opts, step)) else None
  }

  predicate IsRun(opts: Options, steps: seq<Step>) {
    Execute(opts, steps).Some?
  }

  function After(opts: Options, steps: seq<Step>): State
    requires IsRun(opts, steps)
  {
    Execute(opts, steps).value
  }

  lemma {:induction false} RunKeepsInv(opts: Options, steps: seq<Step>)
    requires IsRun(opts, steps)
    ensures Inv(After(opts, steps), opts)
  {
    if steps == [] {
      InitInv(opts);
    } else {
      RunKeepsInv(opts, steps[..|steps| - 1]);
      StepKeepsInv(After(opts, steps[..|steps| - 1]), opts, steps[|steps| - 1]);
    }
  }

  /** On every run the launched candidates and those still pending are the input, one attempt for each launched. */
  lemma InputOrder(opts: Options, steps: seq<Step>)
    requires IsRun(opts, steps)
    ensures var s := After(opts, steps);
      s.launched + s.pending == opts.candidates && |s.attempts| == |s.launched|
  {
    RunKeepsInv(opts, steps);
  }

  /** At most one handshake at a time, at most one success, and no handshake once a success is published. */
  lemma ExclusiveHandshake(opts: Options, steps: seq<Step>, i: nat, j: nat)
    requires IsRun(opts, steps)
    ensures var s := After(opts, steps);
      && (Is(s, i, Handshaking) && Is(s, j, Handshaking) ==> i == j)
      && (Succeeds(s, i) && Succeeds(s, j) ==> i == j)
      && (Is(s, i, Handshaking) ==> !s.won && !Succeeds(s, j))
  {
    RunKeepsInv(opts, steps);
    var s := After(opts, steps);
  }

  lemma SuccessStays(s: State, opts: Options, step: Step, w: nat)
    requires Enabled(s, opts, step) && Succeeds(s, w)
    ensures Succeeds(Apply(s, opts, step), w)
  {
  }

  lemma SuccessBars(s: State, opts: Options, w: nat)
    requires Inv(s, opts) && Succeeds(s, w)
    ensures forall i :: 0 <= i < |s.attempts| ==> s.attempts[i] != Handshaking
  {
    if s.attempts[w] == Publishing { assert HoldsSlot(s.attempts[w]); }
  }

  /** From the first success on, no step starts another handshake. */
  lemma NoHandshakeAfterSuccess(opts: Options, steps: seq<Step>, w: nat, step: Step)
    requires IsRun(opts, steps) && IsRun(opts, steps + [step])
    requires Succeeds(After(opts, steps), w)
    ensures var s' := After(opts, steps + [step]);
      forall i :: 0 <= i < |s'.attempts| ==> s'.attempts[i] != Handshaking
  {
    assert (steps + [step])[..|steps|] == steps;
    SuccessStays(After(opts, steps), opts, step, w);
    RunKeepsInv(opts, steps + [step]);
    SuccessBars(After(opts, steps + [step]), opts, w);
  }

  /** Reports: one per joined attempt; `Lost` only after a win; never a late success; one `Won`, the winner's. */
  lemma ReportsAreTrue(opts: Options, steps: seq<Step>, k: nat)
    requires IsRun(opts, steps) && k < |After(opts, steps).reports|
    ensures var s := After(opts, steps); var r := s.reports[k];
      && r.index < |s.attempts| == |s.launched| && s.launched <= opts.candidates
      && r.outcome != LateSuccess
      && (r.outcome == ReportedLost ==> r.afterWin && exists w :: w != r.index && Succeeds(s, w))
      && (r.outcome == ReportedWon ==> !r.afterWin && s.coordinator == Won(r.index))
      && (forall m :: 0 <= m < |s.reports| && m != k ==> s.reports[m].index != r.index)
  {
    RunKeepsInv(opts, steps);
    var s := After(opts, steps);
    var r := s.reports[k];
    assert ReportsTruly(r, s.attempts[r.index]);
    if r.outcome == ReportedLost { var w := BeatenBySomebody(s, r.index); }
  }

  lemma BeatenBySomebody(s: State, i: nat) returns (w: nat)
    requires OneWinner(s) && i < |s.attempts| && Beaten(s.attempts[i])
    ensures w != i && Succeeds(s, w)
  {
    w :| Succeeds(s, w) && s.attempts[w] != Publishing;
  }

  /** The joins of a run, by the coordinator and by the drain, in order. */
  function JoinsOf(steps: seq<Step>): seq<Step> {
    if steps == [] then []
    else
      var last := steps[|steps| - 1];
      JoinsOf(steps[..|steps| - 1]) + if last.Join? || last.Drain? then [last] else []
  }

  ghost predicate ReportOf(r: Report, join: Step) {
    && (join.Join? || join.Drain?) && r.index == join.i
    && (r.outcome == ReportedFailed ==> (r.afterWin <==> join.Drain?))
  }

  /**
   * Each join makes one report, in order. A failure is marked as after the win
   * exactly if the drain joined it.
   */
  lemma {:induction false} ReportsFollowJoins(opts: Options, steps: seq<Step>)
    requires IsRun(opts, steps)
    ensures var reports := After(opts, steps).reports;
      |reports| == |JoinsOf(steps)| && forall k :: 0 <= k < |reports| ==> ReportOf(reports[k], JoinsOf(steps)[k])
  {
    if steps != [] {
      var n := |steps| - 1;
      ReportsFollowJoins(opts, steps[..n]);
      var s := After(opts, steps[..n]);
      JoinReports(s, opts, steps[n]);
    }
  }

  lemma JoinReports(s: State, opts: Options, step: Step)
    requires Enabled(s, opts, step)
    ensures var s' := Apply(s, opts, step);
      if step.Join? || step.Drain?
      then |s'.reports| == |s.reports| + 1 && s'.reports[..|s.reports|] == s.reports
        && ReportOf(s'.reports[|s.reports|], step)
      else s'.reports == s.reports
  {
  }

  /** The index of the last failure the coordinator reported. */
  function LastFailure(reports: seq<Report>): Option<nat> {
    if reports == [] then None
    else
      var r := reports[|reports| - 1];
      if r.outcome == ReportedFailed && !r.afterWin then Some(r.index) else LastFailure(reports[..|reports| - 1])
  }

  /** The error kept for the caller is that of the failure joined last. */
  lemma {:induction false} LastIsLatest(opts: Options, steps: seq<Step>)
    requires IsRun(opts, steps)
    ensures After(opts, steps).last == LastFailure(After(opts, steps).reports)
  {
    if steps != [] {
      var n := |steps| - 1;
      LastIsLatest(opts, steps[..n]);
      StepKeepsLast(After(opts, steps[..n]), opts, steps[n]);
    }
  }

  lemma StepKeepsLast(s: State, opts: Options, step: Step)
    requires Enabled(s, opts, step) && s.last == LastFailure(s.reports)
    ensures var s' := Apply(s, opts, step); s'.last == LastFailure(s'.reports)
  {
    var s' := Apply(s, opts, step);
    if step.Join? || step.Drain? {
      JoinReports(s, opts, step);
      assert s'.reports[..|s'.reports| - 1] == s.reports;
    }
  }

  /** Once the win is published, no attempt joins the queue for the slot. */
  lemma NoQueueAfterWin(s: State, opts: Options, step: Step, i: nat)
    requires Enabled(s, opts, step) && s.won && Is(Apply(s, opts, step), i, Waiting)
    ensures Is(s, i, Waiting)
  {
  }

  ghost predicate Quiet(s: State) {
    (s.coordinator.Won? || s.coordinator == GaveUp) && NoneRunning(s)
  }

  /** Once the call has returned and the drain is done, every launched attempt has exactly one report. */
  lemma AllReportedOnce(opts: Options, steps: seq<Step>, i: nat)
    requires IsRun(opts, steps) && Quiet(After(opts, steps)) && i < |After(opts, steps).attempts|
    ensures var s := After(opts, steps);
      && (exists k :: 0 <= k < |s.reports| && s.reports[k].index == i)
      && (forall k, m ::
            (0 <= k < |s.reports| && 0 <= m < |s.reports| && s.reports[k].index == i && s.reports[m].index == i)
            ==> k == m)
  {
    RunKeepsInv(opts, steps);
    assert After(opts, steps).attempts[i].Joined?;
  }

  /** An error means every candidate was launched and every one failed, the last error being one of theirs. */
  lemma ErrorMeansAllFailed(opts: Options, steps: seq<Step>)
    requires IsRun(opts, steps) && After(opts, steps).coordinator == GaveUp
    ensures var s := After(opts, steps);
      && s.launched == opts.candidates && |s.attempts| == |opts.candidates| && !s.won
      && (forall i :: 0 <= i < |s.attempts| ==> s.attempts[i] == Joined(Failed))
      && (s.last.Some? <==> opts.candidates != [])
  {
    RunKeepsInv(opts, steps);
    var s := After(opts, steps);
    forall w ensures !Succeeds(s, w) {
      assert 0 <= w < |s.attempts| ==> s.attempts[w].Joined?;
    }
    forall i | 0 <= i < |s.attempts| ensures s.attempts[i] == Joined(Failed) {
      assert !Beaten(s.attempts[i]) && s.attempts[i] != Joined(Ok);
    }
    if opts.candidates != [] { assert s.attempts[0] == Joined(Failed); }
  }

  /** A returned connection is the handshake that succeeded, launched from the input prefix. */
  lemma WinnerSucceeded(opts: Options, steps: seq<Step>)
    requires IsRun(opts, steps) && After(opts, steps).coordinator.Won?
    ensures var s := After(opts, steps); var w := s.coordinator.winner;
      && Is(s, w, Joined(Ok)) && s.won && w < |s.launched| && s.launched <= opts.candidates
      && exists k :: 0 <= k < |s.reports| && s.reports[k] == Report(w, ReportedWon, false)
  {
    RunKeepsInv(opts, steps);
    var s := After(opts, steps);
    var w := s.coordinator.winner;
    assert Succeeds(s, w);
    var k :| 0 <= k < |s.reports| && s.reports[k].index == w;
    assert ReportsTruly(s.reports[k], s.attempts[w]);
  }

  /** With a zero delay at most one attempt is ever running. */
  lemma {:induction false} SequentialWithoutDelay(opts: Options, steps: seq<Step>, i: nat, j: nat)
    requires IsRun(opts, steps) && !opts.hedging
    ensures var s := After(opts, steps);
      i < |s.attempts| && j < |s.attempts| && Running(s.attempts[i]) && Running(s.attempts[j]) ==> i == j
  {
    RunKeepsInv(opts, steps);
  }

  /** Some attempt, not the coordinator, holds the slot. */
  predicate TaskHolds(s: State) {
    s.slot.Some? && s.slot.value.Task?
  }

  lemma SlotCases(s: State)
    requires Exclusive(s)
    ensures s.slot == None || s.slot == Some(Probe)
         || exists i: nat {:trigger Task(i)} :: i < |s.attempts| && s.slot == Some(Task(i))
  {
    if TaskHolds(s) { assert s.slot == Some(Task(s.slot.value.i)); }
  }

  lemma IdleSlotIsFree(s: State)
    requires Exclusive(s) && NoneRunning(s) && s.coordinator == Top
    ensures s.slot.None?
  {
    SlotCases(s);
    forall i: nat {:trigger Task(i)} | i < |s.attempts| ensures s.slot != Some(Task(i)) {
      assert s.attempts[i].Joined?;
    }
  }

  /**
   * Attempts are launched one at a time, each of the next candidate of the
   * input: when nothing is running, or on a tick that found the slot free. In
   * the first case nobody holds the slot.
   */
  lemma {:induction false} LaunchesInOrder(s: State, opts: Options, step: Step)
    requires Inv(s, opts) && Enabled(s, opts, step)
    ensures var s' := Apply(s, opts, step);
      && s'.launched <= opts.candidates && s.launched <= s'.launched && |s'.launched| <= |s.launched| + 1
      && (|s'.launched| > |s.launched| <==> step.LaunchNext? || step.LaunchOnTick?)
      && (|s'.launched| > |s.launched| ==> s'.attempts == s.attempts + [Acquiring])
      && (step.LaunchNext? ==> NoneRunning(s) && s.slot.None?)
      && (step.LaunchOnTick? ==> opts.hedging && !NoneRunning(s))
  {
    if step.LaunchNext? { IdleSlotIsFree(s); }
    StepKeepsQueued(s, opts, step);
  }

  // ---- A launch on a tick, and the slot ----

  /** The coordinator's last step but for dropping the guard was a look at the slot, which was free. */
  predicate FoundFree(opts: Options, steps: seq<Step>) {
    steps != [] &&
    var n := |steps| - 1;
    if steps[n] == TryLock then IsRun(opts, steps[..n]) && After(opts, steps[..n]).slot.None?
    else (ByAttempt(steps[n]) || steps[n] == DropGuard) && FoundFree(opts, steps[..n])
  }

  predicate HasLooked(c: Coordinator) {
    c == Dropping || c == Launching
  }

  lemma LookingStep(s: State, opts: Options, step: Step)
    requires Enabled(s, opts, step) && HasLooked(Apply(s, opts, step).coordinator)
    ensures if step == TryLock then s.slot.None?
            else (ByAttempt(step) || step == DropGuard) && HasLooked(s.coordinator)
  {
  }

  lemma {:induction false} LookedMeansFree(opts: Options, steps: seq<Step>)
    requires IsRun(opts, steps) && HasLooked(After(opts, steps).coordinator)
    ensures FoundFree(opts, steps)
  {
    var n := |steps| - 1;
    LookingStep(After(opts, steps[..n]), opts, steps[n]);
    if steps[n] != TryLock { LookedMeansFree(opts, steps[..n]); }
  }

  /** A tick launches only if its look at the slot found it free; a busy slot puts the launch off to a later tick. */
  lemma BusyTickLaunchesNone(opts: Options, steps: seq<Step>)
    requires IsRun(opts, steps) && IsRun(opts, steps + [LaunchOnTick])
    ensures FoundFree(opts, steps)
  {
    LastStep(opts, steps, LaunchOnTick);
    LookedMeansFree(opts, steps);
  }

  predicate Arming(step: Step) {
    step.LaunchNext? || step.Tick?
  }

  /**
   * The last launch of an idle loop, or the last tick, left candidates, in a
   * hedging call, and its next instant can be represented.
   */
  predicate TimerSet(opts: Options, steps: seq<Step>)
    requires IsRun(opts, steps)
  {
    steps != [] &&
    var n := |steps| - 1;
    if Arming(steps[n]) then opts.hedging && steps[n].representable && After(opts, steps).pending != []
    else TimerSet(opts, steps[..n])
  }

  lemma ArmingStep(s: State, opts: Options, step: Step)
    requires Enabled(s, opts, step)
    ensures var s' := Apply(s, opts, step);
      s'.armed <==> if Arming(step) then opts.hedging && step.representable && s'.pending != [] else s.armed
  {
  }

  /** Then, and only then, another tick is due. */
  lemma {:induction false} ArmedExactly(opts: Options, steps: seq<Step>)
    requires IsRun(opts, steps)
    ensures After(opts, steps).armed <==> TimerSet(opts, steps)
  {
    if steps != [] {
      var n := |steps| - 1;
      ArmedExactly(opts, steps[..n]);
      ArmingStep(After(opts, steps[..n]), opts, steps[n]);
    }
  }

  /** An attempt took the slot after the last time anybody gave it back. */
  predicate TakenSince(steps: seq<Step>) {
    steps != [] &&
    var last := steps[|steps| - 1];
    last.TakeSlot? || (!last.Release? && !last.DropGuard? && TakenSince(steps[..|steps| - 1]))
  }

  lemma SlotStep(s: State, opts: Options, step: Step)
    requires Exclusive(s) && Enabled(s, opts, step)
    ensures TaskHolds(Apply(s, opts, step)) <==> step.TakeSlot? || (!step.Release? && !step.DropGuard? && TaskHolds(s))
  {
    if step.Release? { assert HoldsSlot(s.attempts[step.i]); }
  }

  lemma {:induction false} SlotHistory(opts: Options, steps: seq<Step>)
    requires IsRun(opts, steps)
    ensures TaskHolds(After(opts, steps)) <==> TakenSince(steps)
  {
    if steps != [] {
      var n := |steps| - 1;
      SlotHistory(opts, steps[..n]);
      RunKeepsInv(opts, steps[..n]);
      SlotStep(After(opts, steps[..n]), opts, steps[n]);
    }
  }

  /**
   * The slot was free when the tick checked it, but the guard of that check is
   * gone by the time of the launch. The launch is beside an attempt that holds
   * the slot exactly when one took it since and has not given it back.
   */
  lemma TickLaunchesBeside(opts: Options, steps: seq<Step>)
    requires IsRun(opts, steps) && IsRun(opts, steps + [LaunchOnTick])
    ensures var s := After(opts, steps);
      (exists i: nat :: i < |s.attempts| && HoldsSlot(s.attempts[i])) <==> TakenSince(steps)
  {
    var s := After(opts, steps);
    SlotHistory(opts, steps);
    RunKeepsInv(opts, steps);
    if TakenSince(steps) { assert HoldsSlot(s.attempts[s.slot.value.i]); }
  }

  /** One more step of a run. */
  lemma Extend(opts: Options, steps: seq<Step>, step: Step)
    requires IsRun(opts, steps) && Enabled(After(opts, steps), opts, step)
    ensures IsRun(opts, steps + [step])
    ensures After(opts, steps + [step]) == Apply(After(opts, steps), opts, step)
  {
    assert (steps + [step])[..|steps|] == steps;
  }

  /** The next step of a run launches while attempt `i` handshakes. */
  ghost predicate LaunchesBeside(opts: Options, steps: seq<Step>, i: nat) {
    && IsRun(opts, steps) && IsRun(opts, steps + [LaunchOnTick]) && Is(After(opts, steps), i, Handshaking)
    && |After(opts, steps + [LaunchOnTick]).launched| == |After(opts, steps).launched| + 1
  }

  /** The first attempt alone, and the rest of the candidates. */
  function Alone(opts: Options, pc: Pc, slot: Option<Holder>, c: Coordinator): State
    requires opts.candidates != []
  {
    State(opts.candidates[1..], opts.candidates[..1], [pc], false, slot, c, true, None, [])
  }

  /** Such a run: the waiting attempt handshakes before the tick that saw its slot free launches. */
  function RaceStep(k: nat): Step
    requires k < 8
  {
    [LaunchNext(true), AcquireOk(0), CheckFirst(0), Tick(true), TryLock, DropGuard, TakeSlot(0), CheckSecond(0)][k]
  }

  /** Where it is after `k` steps. */
  function RaceState(opts: Options, k: nat): State
    requires opts.candidates != [] && k <= 8
  {
    match k
    case 0 => Init(opts)
    case 1 => Alone(opts, Acquiring, None, Selecting)
    case 2 => Alone(opts, FirstCheck, None, Selecting)
    case 3 => Alone(opts, Waiting, None, Selecting)
    case 4 => Alone(opts, Waiting, None, Checking)
    case 5 => Alone(opts, Waiting, Some(Probe), Dropping)
    case 6 => Alone(opts, Waiting, None, Launching)
    case 7 => Alone(opts, SecondCheck, Some(Task(0)), Launching)
    case _ => Alone(opts, Handshaking, Some(Task(0)), Launching)
  }

  lemma RaceMoves(opts: Options, k: nat)
    requires opts.hedging && |opts.candidates| >= 2 && k < 8
    ensures Enabled(RaceState(opts, k), opts, RaceStep(k))
    ensures Apply(RaceState(opts, k), opts, RaceStep(k)) == RaceState(opts, k + 1)
  {
    match k {
      case 0 =>
      case 1 =>
      case 2 =>
      case 3 =>
      case 4 =>
      case 5 =>
      case 6 =>
      case _ =>
    }
  }

  lemma LaunchBesideHandshake(opts: Options) returns (steps: seq<Step>)
    requires opts.hedging && |opts.candidates| >= 2
    ensures LaunchesBeside(opts, steps, 0)
  {
    steps := [];
    for k := 0 to 8
      invariant IsRun(opts, steps) && After(opts, steps) == RaceState(opts, k)
    {
      RaceMoves(opts, k);
      Extend(opts, steps, RaceStep(k));
      steps := steps + [RaceStep(k)];
    }
    Extend(opts, steps, LaunchOnTick);
  }

  /** A call can launch beside a handshake exactly when it hedges between at least two candidates. */
  lemma LaunchesBesideExactly(opts: Options)
    ensures (exists steps, i: nat :: LaunchesBeside(opts, steps, i)) <==> opts.hedging && |opts.candidates| >= 2
  {
    if opts.hedging && |opts.candidates| >= 2 {
      var steps := LaunchBesideHandshake(opts);
    }
    if steps, i: nat :| LaunchesBeside(opts, steps, i) {
      var s := After(opts, steps);
      RunKeepsInv(opts, steps);
      LastStep(opts, steps, LaunchOnTick);
      LaunchesInOrder(s, opts, LaunchOnTick);
      assert s.attempts[i] == Handshaking;
    }
  }

  lemma LastStep(opts: Options, steps: seq<Step>, step: Step)
    requires IsRun(opts, steps) && IsRun(opts, steps + [step])
    ensures Enabled(After(opts, steps), opts, step)
    ensures After(opts, steps + [step]) == Apply(After(opts, steps), opts, step)
  {
    assert (steps + [step])[..|steps|] == steps;
  }

  // ---- Progress ----

  /** Steps an attempt can still take. */
  function Distance(pc: Pc): nat {
    match pc
    case Acquiring => 8
    case FirstCheck => 7
    case Waiting => 6
    case SecondCheck => 5
    case Handshaking => 4
    case Publishing => 3
    case Releasing(_) => 2
    case Finished(_) => 1
    case Joined(_) => 0
  }

  function TotalDistance(attempts: seq<Pc>): nat {
    if attempts == [] then 0 else Distance(attempts[0]) + TotalDistance(attempts[1..])
  }

  lemma {:induction false} MoveShortens(attempts: seq<Pc>, i: nat, pc: Pc)
    requires i < |attempts|
    ensures TotalDistance(attempts[i := pc]) == TotalDistance(attempts) - Distance(attempts[i]) + Distance(pc)
  {
    if i > 0 {
      MoveShortens(attempts[1..], i - 1, pc);
      assert attempts[i := pc][1..] == attempts[1..][i - 1 := pc];
    } else {
      assert attempts[i := pc][1..] == attempts[1..];
    }
  }

  lemma {:induction false} LaunchLengthens(attempts: seq<Pc>, pc: Pc)
    ensures TotalDistance(attempts + [pc]) == TotalDistance(attempts) + Distance(pc)
  {
    if attempts != [] {
      LaunchLengthens(attempts[1..], pc);
      assert (attempts + [pc])[1..] == attempts[1..] + [pc];
    }
  }

  /** What is left to do: launches, steps of launched attempts, and returning. */
  function Work(s: State): nat {
    9 * |s.pending| + TotalDistance(s.attempts)
      + if s.coordinator.Won? || s.coordinator == GaveUp then 0 else 1
  }

  /** The coordinator going round its loop: entering `select!`, a tick, and its look at the slot. */
  predicate Turns(step: Step) {
    step.Select? || step.Tick? || step.TryLock? || step.DropGuard?
  }

  lemma AttemptDoesWork(s: State, opts: Options, step: Step)
    requires Enabled(s, opts, step) && (ByAttempt(step) || step.Join? || step.Drain?)
    ensures Work(Apply(s, opts, step)) < Work(s)
  {
    var pc := Apply(s, opts, step).attempts[step.i];
    assert Apply(s, opts, step).attempts == s.attempts[step.i := pc];
    assert Distance(pc) < Distance(s.attempts[step.i]);
    MoveShortens(s.attempts, step.i, pc);
  }

  lemma LaunchDoesWork(s: State, opts: Options, step: Step)
    requires Coordinated(s, opts) && Enabled(s, opts, step) && (step.LaunchNext? || step.LaunchOnTick?)
    ensures Work(Apply(s, opts, step)) < Work(s)
  {
    LaunchLengthens(s.attempts, Acquiring);
    assert Apply(s, opts, step).attempts == s.attempts + [Acquiring];
  }

  /** Every step does work, except the coordinator's turns, which do none and undo none. */
  lemma {:induction false} StepsDoWork(s: State, opts: Options, step: Step)
    requires Inv(s, opts) && Enabled(s, opts, step)
    ensures if Turns(step) then Work(Apply(s, opts, step)) == Work(s)
            else Work(Apply(s, opts, step)) < Work(s)
  {
    if step.LaunchNext? || step.LaunchOnTick? {
      LaunchDoesWork(s, opts, step);
    } else if Turns(step) {
      TurnsDoNone(s, opts, step);
    } else if !step.GiveUp? {
      AttemptDoesWork(s, opts, step);
    }
  }

  lemma TurnsDoNone(s: State, opts: Options, step: Step)
    requires Enabled(s, opts, step) && Turns(step)
    ensures Work(Apply(s, opts, step)) == Work(s)
  {
  }

  /** Steps of a run that do work, and ticks of its timer. */
  function Working(steps: seq<Step>): nat {
    if steps == [] then 0
    else Working(steps[..|steps| - 1]) + if Turns(steps[|steps| - 1]) then 0 else 1
  }

  function Ticks(steps: seq<Step>): nat {
    if steps == [] then 0
    else Ticks(steps[..|steps| - 1]) + if steps[|steps| - 1].Tick? then 1 else 0
  }

  /** How far the coordinator is from `select!`. */
  function Stage(c: Coordinator): nat {
    match c
    case Checking => 3
    case Dropping => 2
    case Launching => 1
    case Top => 1
    case _ => 0
  }

  /** A turn brings the coordinator closer to `select!`; a tick takes it away by three, work by at most one. */
  lemma TurnsMove(s: State, opts: Options, step: Step)
    requires Enabled(s, opts, step)
    ensures var before, after := Stage(s.coordinator), Stage(Apply(s, opts, step).coordinator);
      if step.Tick? then after == before + 3 else if Turns(step) then after < before else after <= before + 1
  {
  }

  lemma {:induction false} RunIsPaidFor(opts: Options, steps: seq<Step>)
    requires IsRun(opts, steps)
    ensures var s := After(opts, steps);
      && Working(steps) + Work(s) <= 9 * |opts.candidates| + 1
      && |steps| + Stage(s.coordinator) <= 2 * Working(steps) + 4 * Ticks(steps) + 1
  {
    RunKeepsInv(opts, steps);
    if steps == [] {
    } else {
      var n := |steps| - 1;
      RunIsPaidFor(opts, steps[..n]);
      RunKeepsInv(opts, steps[..n]);
      var s := After(opts, steps[..n]);
      StepsDoWork(s, opts, steps[n]);
      TurnsMove(s, opts, steps[n]);
    }
  }

  /**
   * At most 9 * candidates + 1 steps of any run launch, move an attempt, join,
   * drain or return; and but for ticks of the timer, the coordinator's turns
   * are bounded too. Only ticks can keep a run going.
   */
  lemma EveryRunIsBounded(opts: Options, steps: seq<Step>)
    requires IsRun(opts, steps)
    ensures Working(steps) <= 9 * |opts.candidates| + 1
    ensures |steps| <= 18 * |opts.candidates| + 3 + 4 * Ticks(steps)
  {
    RunIsPaidFor(opts, steps);
  }

  /** And they can: while one attempt handshakes, a tick launches nothing and leads back to where it was. */
  lemma {:induction false} IdleTicksRecur(opts: Options, n: nat) returns (steps: seq<Step>)
    requires opts.hedging && |opts.candidates| >= 2
    ensures IsRun(opts, steps) && Ticks(steps) == n
    ensures After(opts, steps) == Alone(opts, Handshaking, Some(Task(0)), Selecting)
  {
    if n == 0 {
      steps := HandshakeStarts(opts);
    } else {
      steps := IdleTicksRecur(opts, n - 1);
      for k := 0 to 3
        invariant IsRun(opts, steps) && Ticks(steps) == if k == 0 then n - 1 else n
        invariant After(opts, steps)
               == Alone(opts, Handshaking, Some(Task(0)), [Selecting, Checking, Top, Selecting][k])
      {
        var step := [Tick(true), TryLock, Select][k];
        assert After(opts, steps).attempts[0] == Handshaking;
        Extend(opts, steps, step);
        assert (steps + [step])[..|steps|] == steps;
        steps := steps + [step];
      }
    }
  }

  lemma HandshakeStarts(opts: Options) returns (steps: seq<Step>)
    requires opts.hedging && |opts.candidates| >= 2
    ensures IsRun(opts, steps) && Ticks(steps) == 0
    ensures After(opts, steps) == Alone(opts, Handshaking, Some(Task(0)), Selecting)
  {
    steps := [];
    var first := [LaunchNext(true), AcquireOk(0), CheckFirst(0), TakeSlot(0), CheckSecond(0)];
    for k := 0 to 5
      invariant IsRun(opts, steps) && Ticks(steps) == 0
      invariant k == 0 ==> After(opts, steps) == Init(opts)
      invariant k > 0 ==> (After(opts, steps)
        == Alone(opts, [Acquiring, FirstCheck, Waiting, SecondCheck, Handshaking][k - 1],
                 if k >= 4 then Some(Task(0)) else None, Selecting))
    {
      Extend(opts, steps, first[k]);
      assert (steps + [first[k]])[..|steps|] == steps;
      steps := steps + [first[k]];
    }
  }

  /** No deadlock: unless the call has returned and the drain is done, some step other than a tick can be taken. */
  lemma {:induction false} NeverStuck(s: State, opts: Options) returns (step: Step)
    requires Inv(s, opts) && !Quiet(s)
    ensures Enabled(s, opts, step) && !step.Tick?
  {
    match s.coordinator {
      case Top => return if !NoneRunning(s) then Select else if Pending(s) then LaunchNext(false) else GiveUp;
      case Checking => return TryLock;
      case Dropping => return DropGuard;
      case Launching => return LaunchOnTick;
      case _ =>
    }
    var i: nat :| i < |s.attempts| && !s.attempts[i].Joined?;
    if s.attempts[i] == Waiting && s.slot.Some? { i := s.slot.value.i; }
    match s.attempts[i]
    case Acquiring => step := AcquireOk(i);
    case FirstCheck => step := CheckFirst(i);
    case Waiting => step := TakeSlot(i);
    case SecondCheck => step := CheckSecond(i);
    case Handshaking => step := HandshakeOk(i);
    case Publishing => step := Publish(i);
    case Releasing(_) => step := Release(i);
    case Finished(_) => step := if s.coordinator.Won? then Drain(i) else Join(i);
    case Joined(_) => assert false;
  }
}
