/**
 * The life of one analysis (Source, internal/engine/source.go; Engine,
 * internal/engine/engine.go): three phases, extended, reopened and restarted.
 * Every operation is one atomic step. Times are nanoseconds, 0 is the zero time.
 */
module Lifecycle {
  import opened DemandSlots

  const HOUR := 3600 * SECOND
  const MAX_AUTH_FAILS := 3
  const MIN_DURATION := 24 * HOUR
  const MAX_DURATION := 14 * 24 * HOUR
  const MAX_TOTAL := 30 * 24 * HOUR

  /** Idle is a source whose analysis has not begun. */
  datatype Phase = Idle | NeedPassword | Running | Done

  /** The part of the state that matters here; it is also what save() writes. */
  datatype State = State(phase: Phase, started: int, ends: int, finished: int, duration: int)

  const NEW_STATE := State(Idle, 0, 0, 0, 0)

  datatype Failure = Canceled | Auth | Other

  // ------------------------------------------------------------ operations on values

  /** A source in memory, with its login failures and the state last saved to disk. */
  datatype Machine = Machine(st: State, authFails: nat, disk: State) {
    function Saved(): Machine {
      this.(disk := st)
    }
  }

  function Allowed(extra: int): bool {
    MIN_DURATION <= extra <= MAX_DURATION
  }

  function Fits(st: State, ends: int): bool {
    ends - st.started <= MAX_TOTAL
  }

  function Begun(m: Machine, duration: int, now: int): Machine {
    if m.st.phase != Idle || !Allowed(duration) then m
    else m.(st := State(Running, now, now + duration, m.st.finished, duration)).Saved()
  }

  function Polled(m: Machine): Machine {
    if m.st.phase != Running then m else m.(authFails := 0).Saved()
  }

  function Failed(m: Machine, f: Failure): Machine {
    if m.st.phase != Running || f != Auth then m
    else if m.authFails + 1 < MAX_AUTH_FAILS then m.(authFails := m.authFails + 1)
    else m.(authFails := m.authFails + 1, st := m.st.(phase := NeedPassword)).Saved()
  }

  function Resumed(m: Machine): Machine {
    if m.st.phase != NeedPassword then m
    else m.(authFails := 0, st := m.st.(phase := Running))
  }

  /** Extend on a running or paused analysis. */
  function Extended(m: Machine, extra: int): Machine {
    var ends := m.st.ends + extra;
    if m.st.phase !in {Running, NeedPassword} || !Allowed(extra) || !Fits(m.st, ends) then m
    else m.(st := m.st.(ends := ends, duration := ends - m.st.started)).Saved()
  }

  /** Extend on a finished analysis: checked at one time, reopened at a later one, after logging in. */
  function Reopened(m: Machine, extra: int, checked: int, now: int): Machine {
    if m.st.phase != Done || !Allowed(extra) || !Fits(m.st, checked + extra) then m
    else
      var ends := now + extra;
      m.(authFails := 0, st := State(Running, m.st.started, ends, 0, ends - m.st.started)).Saved()
  }

  /** Finish, or the end of the window reached by the loop; the save may be lost when the PDF fails. */
  function Finalized(m: Machine, now: int, saved: bool): Machine {
    if m.st.phase !in {Running, NeedPassword} then m
    else
      var done := m.(st := m.st.(phase := Done, finished := now));
      if saved then done.Saved() else done
  }

  /** A restart reloads what was saved; a running analysis comes back paused. */
  function Restarted(m: Machine): Machine {
    Machine(if m.disk.phase == Running then m.disk.(phase := NeedPassword) else m.disk, 0, m.disk)
  }

  // ---------------------------------------------------------------- the object

  class Source {
    var st: State
    var authFails: nat
    var disk: State

    function Model(): Machine
      reads this
    {
      Machine(st, authFails, disk)
    }

    constructor ()
      ensures Model() == Machine(NEW_STATE, 0, NEW_STATE)
    {
      st, authFails, disk := NEW_STATE, 0, NEW_STATE;
    }

    method Save()
      modifies `disk
      ensures disk == st
    {
      disk := st;
    }

    /** Add followed by begin. */
    method Begin(duration: int, now: int) returns (ok: bool)
      requires st.phase == Idle
      modifies this
      ensures Model() == Begun(old(Model()), duration, now)
      ensures ok <==> 24 * HOUR <= duration <= 14 * 24 * HOUR
      ensures ok ==>
        && st.phase == Running && st.started == now && st.ends == now + duration && st.duration == duration
        && st.finished == old(st.finished) && authFails == old(authFails) && disk == st
      ensures !ok ==> Model() == old(Model())
    {
      if duration < MIN_DURATION || duration > MAX_DURATION {
        return false;
      }
      st := State(Running, now, now + duration, st.finished, duration);
      Save();
      return true;
    }

    method Poll()
      requires st.phase == Running
      modifies this
      ensures Model() == Polled(old(Model()))
      ensures authFails == 0 && st == old(st) && disk == st
    {
      authFails := 0;
      Save();
    }

    /** Reports whether the collection loop must stop. */
    method Fail(f: Failure) returns (stop: bool)
      requires st.phase == Running
      modifies this
      ensures Model() == Failed(old(Model()), f)
      ensures authFails == old(authFails) + if f == Auth then 1 else 0
      ensures
        if f == Auth && authFails >= 3 then st == old(st).(phase := NeedPassword) && disk == st
        else st == old(st) && disk == old(disk)
      ensures stop <==> f == Canceled || st.phase == NeedPassword
    {
      if f == Canceled {
        return true;
      }
      if f != Auth {
        return false;
      }
      authFails := authFails + 1;
      if authFails < MAX_AUTH_FAILS {
        return false;
      }
      st := st.(phase := NeedPassword);
      Save();
      return true;
    }

    method Resume() returns (ok: bool)
      modifies this
      ensures Model() == Resumed(old(Model()))
      ensures ok <==> old(st.phase) == NeedPassword
      ensures ok ==> st == old(st).(phase := Running) && authFails == 0 && disk == old(disk)
      ensures !ok ==> Model() == old(Model())
    {
      if st.phase != NeedPassword {
        return false;
      }
      st := st.(phase := Running);
      authFails := 0;
      return true;
    }

    /** Engine.Extend; `checked` and `now` are the clock before and after logging in to reopen. */
    method Extend(extra: int, checked: int, now: int) returns (ok: bool)
      requires st.phase != Idle
      modifies this
      ensures Model() == if old(st.phase) == Done then Reopened(old(Model()), extra, checked, now) else Extended(old(Model()), extra)
      ensures ok <==>
        && 24 * HOUR <= extra <= 14 * 24 * HOUR
        && (if old(st.phase) == Done then checked else old(st.ends)) + extra - old(st.started) <= 30 * 24 * HOUR
      ensures ok && old(st.phase) != Done ==>
        && st.ends == old(st.ends) + extra && st.duration == st.ends - st.started
        && st.phase == old(st.phase) && st.started == old(st.started) && st.finished == old(st.finished)
        && authFails == old(authFails) && disk == st
      ensures ok && old(st.phase) == Done ==>
        && st.phase == Running && st.ends == now + extra && st.duration == st.ends - st.started
        && st.started == old(st.started) && st.finished == 0 && authFails == 0 && disk == st
      ensures !ok ==> Model() == old(Model())
    {
      if extra < MIN_DURATION || extra > MAX_DURATION {
        return false;
      }
      if st.phase != Done {
        var ends := st.ends + extra;
        if ends - st.started > MAX_TOTAL {
          return false;
        }
        st := st.(ends := ends);
        st := st.(duration := st.ends - st.started);
        Save();
        return true;
      }
      if checked + extra - st.started > MAX_TOTAL {
        return false;
      }
      st := st.(phase := Running, ends := now + extra);
      st := st.(duration := st.ends - st.started, finished := 0);
      authFails := 0;
      Save();
      return true;
    }

    method Finalize(now: int, saved: bool)
      requires st.phase != Idle
      modifies this
      ensures Model() == Finalized(old(Model()), now, saved)
      ensures old(st.phase) == Done ==> Model() == old(Model())
      ensures old(st.phase) != Done ==>
        && st == old(st).(phase := Done, finished := now) && authFails == old(authFails)
        && disk == if saved then st else old(disk)
    {
      if st.phase == Done {
        return;
      }
      st := st.(phase := Done, finished := now);
      if saved {
        Save();
      }
    }

    method Restart()
      modifies this
      ensures Model() == Restarted(old(Model()))
      ensures st == if old(disk.phase) == Running then old(disk).(phase := NeedPassword) else old(disk)
      ensures authFails == 0 && disk == old(disk)
    {
      st, authFails := disk, 0;
      if st.phase == Running {
        st := st.(phase := NeedPassword);
      }
    }
  }

  // ------------------------------------------------------------------ all runs

  /**
   * One step of a run and the time it happens at. SaveAt is a save by one of the
   * background jobs: an import, a survey of the hardware or a scan for waste.
   */
  datatype Event =
    | BeginAt(duration: int, now: int)
    | PollAt(now: int)
    | FailAt(failure: Failure, now: int)
    | ResumeAt(now: int)
    | ExtendAt(extra: int, now: int)
    | ReopenAt(extra: int, checked: int, now: int)
    | FinishAt(saved: bool, now: int)
    | SaveAt(now: int)
    | RestartAt(now: int)

  function Next(m: Machine, e: Event): Machine {
    match e
    case BeginAt(duration, now) => Begun(m, duration, now)
    case PollAt(_) => Polled(m)
    case FailAt(f, _) => Failed(m, f)
    case ResumeAt(_) => Resumed(m)
    case ExtendAt(extra, _) => Extended(m, extra)
    case ReopenAt(extra, checked, now) => Reopened(m, extra, checked, now)
    case FinishAt(saved, now) => Finalized(m, now, saved)
    case SaveAt(_) => m.Saved()
    case RestartAt(_) => Restarted(m)
  }

  ghost function Run(es: seq<Event>): Machine {
    if es == [] then Machine(NEW_STATE, 0, NEW_STATE) else Next(Run(es[..|es| - 1]), es[|es| - 1])
  }

  ghost function Clock(es: seq<Event>): int {
    if es == [] then 1 else es[|es| - 1].now
  }

  /** The clock never runs back, and logging in to reopen takes at most `delay`. */
  ghost predicate Follows(e: Event, clock: int, delay: int) {
    clock <= e.now && (e.ReopenAt? ==> e.checked <= e.now <= e.checked + delay)
  }

  ghost predicate Sane(es: seq<Event>, delay: int) {
    es != [] ==> Sane(es[..|es| - 1], delay) && Follows(es[|es| - 1], Clock(es[..|es| - 1]), delay)
  }

  ghost predicate Safe(st: State, delay: int, clock: int) {
    && (st.phase == Done <==> st.finished != 0)
    && (st.phase != Idle ==>
      && 0 < st.started <= clock
      && st.duration == st.ends - st.started
      && MIN_DURATION <= st.ends - st.started <= MAX_TOTAL + delay)
  }

  /** What every reachable state satisfies, in memory and on disk. */
  ghost predicate Invariant(m: Machine, delay: int, clock: int) {
    && 0 < clock
    && Safe(m.st, delay, clock) && Safe(m.disk, delay, clock)
    && (m.st.phase in {Idle, Running} ==> m.authFails < MAX_AUTH_FAILS)
    && (m.st.phase != Idle ==> m.disk.phase != Idle && m.disk.started == m.st.started)
  }

  lemma NextKeepsInvariant(m: Machine, e: Event, delay: int, clock: int)
    requires delay >= 0 && Invariant(m, delay, clock) && Follows(e, clock, delay)
    ensures Invariant(Next(m, e), delay, e.now)
    ensures m.st.phase != Idle ==> Next(m, e).st.phase != Idle && Next(m, e).st.started == m.st.started
  {
  }

  /**
   * Over any run: Duration is Ends - Started, Finished is set exactly in Done, a
   * running analysis has fewer than three pending login failures, and its total
   * stays within 30 days plus the time a login takes.
   */
  lemma {:induction false} RunIsSafe(es: seq<Event>, delay: int)
    requires delay >= 0 && Sane(es, delay)
    ensures Invariant(Run(es), delay, Clock(es))
  {
    if es != [] {
      hide Invariant, Next, Follows;
      var init := es[..|es| - 1];
      RunIsSafe(init, delay);
      NextKeepsInvariant(Run(init), es[|es| - 1], delay, Clock(init));
    }
  }

  /** Whatever happens afterwards, an analysis keeps the start its demand slots are counted from. */
  lemma {:induction false} StartNeverMoves(es: seq<Event>, i: nat, delay: int)
    requires delay >= 0 && Sane(es, delay) && i <= |es|
    requires Run(es[..i]).st.phase != Idle
    ensures Run(es).st.phase != Idle && Run(es).st.started == Run(es[..i]).st.started
    decreases |es|
  {
    hide Invariant, Next, Follows;
    if i == |es| {
      assert es[..i] == es;
    } else {
      var init := es[..|es| - 1];
      assert init[..i] == es[..i];
      StartNeverMoves(init, i, delay);
      RunIsSafe(init, delay);
      NextKeepsInvariant(Run(init), es[|es| - 1], delay, Clock(init));
    }
  }

  /**
   * The bound is what makes the slot array large enough: with a login shorter
   * than a day and a half, every instant of the window has its demand slot.
   */
  lemma WindowHasSlots(m: Machine, delay: int, clock: int, t: int)
    requires Invariant(m, delay, clock) && m.st.phase != Idle && 0 <= delay <= 36 * HOUR
    requires m.st.started <= t <= m.st.ends
    ensures var anchor := Truncate(m.st.started);
      anchor <= t && 0 <= (t - anchor) / SLOT_LENGTH < MAX_SLOTS
  {
    TruncateAligned(m.st.started);
  }

  /**
   * MAX_TOTAL itself is not kept by reopening. When logging in takes at most d, a
   * reopened total is sure to fit if and only if it fits with d added at the check.
   */
  lemma ReopenFitsIff(m: Machine, extra: int, checked: int, d: int)
    requires m.st.phase == Done && Allowed(extra) && Fits(m.st, checked + extra) && d >= 0
    ensures
      (forall now :: checked <= now <= checked + d ==>
        Fits(Reopened(m, extra, checked, now).st, Reopened(m, extra, checked, now).st.ends))
      <==> checked + d + extra - m.st.started <= MAX_TOTAL
  {
    var latest := Reopened(m, extra, checked, checked + d).st;
    assert Fits(latest, latest.ends) <==> checked + d + extra - m.st.started <= MAX_TOTAL;
  }

  /** Every reopening leaves room for a login of up to `delay`. */
  ghost predicate LeavesRoom(es: seq<Event>, delay: int) {
    es != [] ==>
      && LeavesRoom(es[..|es| - 1], delay)
      && var e, st := es[|es| - 1], Run(es[..|es| - 1]).st;
         e.ReopenAt? && st.phase == Done ==> e.checked + delay + e.extra - st.started <= MAX_TOTAL
  }

  /** Then no run exceeds the limit at all. */
  lemma {:induction false} RunStaysWithinTotal(es: seq<Event>, delay: int)
    requires delay >= 0 && Sane(es, delay) && LeavesRoom(es, delay)
    ensures Invariant(Run(es), 0, Clock(es))
  {
    if es != [] {
      hide Invariant, Next;
      var init := es[..|es| - 1];
      RunStaysWithinTotal(init, delay);
      NextStaysWithinTotal(Run(init), es[|es| - 1], delay, Clock(init));
    }
  }

  lemma NextStaysWithinTotal(m: Machine, e: Event, delay: int, clock: int)
    requires Invariant(m, 0, clock) && Follows(e, clock, delay)
    requires e.ReopenAt? && m.st.phase == Done ==> e.checked + delay + e.extra - m.st.started <= MAX_TOTAL
    ensures Invariant(Next(m, e), 0, e.now)
  {
  }

  /** A finished analysis, reopened at the last moment the check allows, with a login of one second. */
  function LateReopening(start: int): seq<Event> {
    var checked := start + MAX_TOTAL - MIN_DURATION;
    [BeginAt(MIN_DURATION, start), FinishAt(true, start + MIN_DURATION), ReopenAt(MIN_DURATION, checked, checked + SECOND)]
  }

  /** ... is a run that ends beyond 30 days. */
  lemma ReopenMayExceedTotal(start: int)
    requires start > 0
    ensures Sane(LateReopening(start), SECOND)
    ensures var st := Run(LateReopening(start)).st;
      st.phase == Running && st.started == start && st.ends - st.started == MAX_TOTAL + SECOND
  {
    var es := LateReopening(start);
    assert es[..2][..1] == es[..1] && es[..1][..0] == [];
    assert Run(es[..1]).st == State(Running, start, start + MIN_DURATION, 0, MIN_DURATION);
    assert Run(es[..2]).st == State(Done, start, start + MIN_DURATION, start + MIN_DURATION, MIN_DURATION);
    assert Sane(es[..1], SECOND);
    assert Sane(es[..2], SECOND);
  }
}
