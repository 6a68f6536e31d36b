/**
 The polling loop of the supervisor and the kill decision that follows it.

 The wall clock and the child process are an environment: the child exits on
 its own at a fixed instant (or never) with a fixed code, and each bounded
 wait that times out is followed by a fresh clock sample that is no earlier
 than the instant the wait was due to end (`oversleep` says how much later).
 Instants and durations are microseconds.
 */
module Supervisor {
  import opened Wrappers
  import Schedule

  /** `Popen.returncode` of a child ended by signal N is -N; `kill()` sends SIGKILL, signal 9. */
  const KilledReturnCode: int := -9

  /** The spawned shell: when it would exit by itself, and with which code. */
  datatype Child = Child(exitsAt: Option<int>, code: int)

  /** The child plus the scheduler's lateness after a wait that ran out, as a function of the due instant. */
  datatype Env = Env(child: Child, oversleep: int -> nat)

  predicate ExitedBy(child: Child, t: int) {
    child.exitsAt.Some? && child.exitsAt.value <= t
  }

  /** What a bounded wait reports: an exit code, or `TimeoutExpired`. */
  datatype WaitResult = Exited(code: int) | TimedOut

  /** `child.wait(q)` begun at `now`. */
  function BoundedWait(child: Child, now: int, q: int): WaitResult {
    if ExitedBy(child, now + q) then Exited(child.code) else TimedOut
  }

  /** The next `datetime.utcnow()` after a wait that was due to end at `due`. */
  function WakeUp(env: Env, due: int): (t: int)
    ensures t >= due
  {
    due + env.oversleep(due)
  }

  /** One trip round the loop: the clock sample it started from and the quantum it waited. */
  datatype Poll = Poll(at: int, quantum: int)

  /** Why the loop ended: the bounded wait saw the child exit (`break`), or `now < killtime` failed (`else`). */
  datatype Stop = ChildExited | DeadlineReached

  /** The loop's trace, its reason for stopping and the last clock sample it held. */
  datatype Watch = Watch(polls: seq<Poll>, stop: Stop, stoppedAt: int)

  function WindowEnd(p: Poll): int {
    p.at + p.quantum
  }

  function Last(polls: seq<Poll>): Poll
    requires |polls| > 0
  {
    polls[|polls| - 1]
  }

  /**
   The polls begin at `start`; each happens before the deadline, waits more
   than nothing and at most one poll interval, never past the deadline, and a
   short wait ends exactly at the deadline; each later poll starts from a clock
   sample taken no earlier than the end of the previous wait.
   */
  predicate WellScheduled(polls: seq<Poll>, start: int, killtime: int) {
    && (|polls| > 0 ==> polls[0].at == start)
    && (forall i :: 0 <= i < |polls| ==>
          && polls[i].at < killtime
          && 0 < polls[i].quantum <= Schedule.PollInterval
          && WindowEnd(polls[i]) <= killtime
          && (polls[i].quantum == Schedule.PollInterval || WindowEnd(polls[i]) == killtime))
    && (forall i :: 0 <= i < |polls| - 1 ==> polls[i + 1].at >= WindowEnd(polls[i]))
  }

  /**
   Lines 70 to 89 from the clock sample `now`, as a reference definition.
   The deadline is a parameter that no step changes.
   */
  function Loop(env: Env, killtime: int, now: int): Watch
    decreases killtime - now
  {
    if now >= killtime then Watch([], DeadlineReached, now)
    else
      var q := Schedule.Quantum(killtime - now);
      match BoundedWait(env.child, now, q)
      case Exited(_) => Watch([Poll(now, q)], ChildExited, now)
      case TimedOut =>
        var rest := Loop(env, killtime, WakeUp(env, now + q));
        Watch([Poll(now, q)] + rest.polls, rest.stop, rest.stoppedAt)
  }

  /**
   What the loop guarantees: well-scheduled polls; no poll at all when the
   deadline is already due; it stops on the deadline exactly when its last
   clock sample has reached the deadline; it breaks out only when the last
   wait saw the child exit, and every other wait saw it still running.
   */
  lemma {:induction false} LoopShape(env: Env, killtime: int, now: int)
    ensures var w := Loop(env, killtime, now);
      && WellScheduled(w.polls, now, killtime)
      && (|w.polls| == 0 <==> now >= killtime)
      && w.stoppedAt >= now
      && (w.stop == DeadlineReached <==> w.stoppedAt >= killtime)
      && (forall i :: 0 <= i < |w.polls| - 1 ==> !ExitedBy(env.child, WindowEnd(w.polls[i])))
      && (w.stop == ChildExited ==>
            && |w.polls| > 0
            && w.stoppedAt == Last(w.polls).at
            && ExitedBy(env.child, WindowEnd(Last(w.polls))))
      && (w.stop == DeadlineReached ==>
            && (forall i :: 0 <= i < |w.polls| ==> !ExitedBy(env.child, WindowEnd(w.polls[i])))
            && (|w.polls| > 0 ==> w.stoppedAt >= WindowEnd(Last(w.polls))))
    decreases killtime - now
  {
    if now < killtime {
      var q := Schedule.Quantum(killtime - now);
      if BoundedWait(env.child, now, q).TimedOut? {
        LoopShape(env, killtime, WakeUp(env, now + q));
      }
    }
  }

  /**
   `child.kill()` when the deadline was reached, then the unbounded
   `child.wait()`. A kill reaching a child that has already exited changes
   nothing, so the child's own code survives it.
   */
  function Reap(child: Child, w: Watch): int {
    match w.stop
    case ChildExited => child.code
    case DeadlineReached => if ExitedBy(child, w.stoppedAt) then child.code else KilledReturnCode
  }

  function Extend(prefix: seq<Poll>, w: Watch): Watch {
    Watch(prefix + w.polls, w.stop, w.stoppedAt)
  }

  /**
   The supervision loop as the program runs it: poll, break on an exit, kill
   when the loop condition fails, then reap. A child that exits by the deadline
   always has its own code returned; a child still running when the loop gives
   up is killed and reports the kill.
   */
  method Supervise(env: Env, killtime: int, start: int) returns (w: Watch, code: int)
    ensures w == Loop(env, killtime, start)
    ensures code == Reap(env.child, w)
    ensures w.stop == DeadlineReached <==> w.stoppedAt >= killtime
    ensures forall i :: 0 <= i < |w.polls| ==> 0 < w.polls[i].quantum <= Schedule.PollInterval
    ensures ExitedBy(env.child, killtime) ==> code == env.child.code
    ensures !ExitedBy(env.child, killtime) ==> w.stop == DeadlineReached
    ensures w.stop == DeadlineReached && !ExitedBy(env.child, w.stoppedAt) ==> code == KilledReturnCode
  {
    var now := start;
    var polls: seq<Poll> := [];
    var stop := DeadlineReached;
    while now < killtime
      invariant Loop(env, killtime, start) == Extend(polls, Loop(env, killtime, now))
      invariant stop == DeadlineReached
      decreases killtime - now
    {
      var q := Schedule.Quantum(killtime - now);
      var result := BoundedWait(env.child, now, q);
      LoopStep(env, killtime, now);
      if result.Exited? {
        polls := polls + [Poll(now, q)];
        stop := ChildExited;
        break;
      }
      var next := WakeUp(env, now + q);
      ExtendTwice(polls, [Poll(now, q)], Loop(env, killtime, next));
      polls := polls + [Poll(now, q)];
      now := next;
    }
    w := Watch(polls, stop, now);
    if stop == DeadlineReached {
      // the kill: only a child still running at `now` is affected
      code := if ExitedBy(env.child, now) then env.child.code else KilledReturnCode;
    } else {
      code := env.child.code;
    }
    LoopShape(env, killtime, start);
    ReapOutcome(env, killtime, start);
  }

  /** One trip round the loop, unfolded. */
  lemma LoopStep(env: Env, killtime: int, now: int)
    requires now < killtime
    ensures var q := Schedule.Quantum(killtime - now);
            Loop(env, killtime, now)
            == if BoundedWait(env.child, now, q).Exited? then Watch([Poll(now, q)], ChildExited, now)
               else Extend([Poll(now, q)], Loop(env, killtime, WakeUp(env, now + q)))
  {
  }

  lemma ExtendTwice(a: seq<Poll>, b: seq<Poll>, w: Watch)
    ensures Extend(a, Extend(b, w)) == Extend(a + b, w)
  {
    assert a + (b + w.polls) == (a + b) + w.polls;
  }

  /** The code the final wait returns, in terms of when the child exits. */
  lemma ReapOutcome(env: Env, killtime: int, start: int)
    ensures var w := Loop(env, killtime, start);
            && (ExitedBy(env.child, killtime) ==> Reap(env.child, w) == env.child.code)
            && (!ExitedBy(env.child, killtime) ==> w.stop == DeadlineReached)
  {
    LoopShape(env, killtime, start);
  }

  /** The scheduler never wakes late: every clock sample is exactly the due instant. */
  ghost predicate Punctual(env: Env) {
    forall t :: env.oversleep(t) == 0
  }

  /**
   With a punctual clock the waits tile the whole run up to the deadline: the
   loop reaches the deadline exactly when the child has not exited by it, and
   then stops at the deadline itself, not later.
   */
  lemma {:induction false} PunctualDeadline(env: Env, killtime: int, now: int)
    requires Punctual(env)
    requires now < killtime
    ensures Loop(env, killtime, now).stop == DeadlineReached <==> !ExitedBy(env.child, killtime)
    ensures Loop(env, killtime, now).stop == DeadlineReached ==> Loop(env, killtime, now).stoppedAt == killtime
    decreases killtime - now
  {
    var q := Schedule.Quantum(killtime - now);
    var next := WakeUp(env, now + q);
    assert next == now + q;
    if BoundedWait(env.child, now, q).TimedOut? && next < killtime {
      PunctualDeadline(env, killtime, next);
    }
  }
}
