/**
 The repository's end-to-end examples against the model. Examples whose
 `--timeout` carries a unit suffix are replayed as written, for any start
 instant and any clock, and end before any child exists. `FastFailure`
 replays its example as written, for any clock. `SlowSuccess` is the slow
 example adapted to bare minutes, for any clock. `KilledAtDeadline` is not
 the kill example (that one runs `sleep 10` under `1s`): it runs a 90-second child under a one-minute timeout, on a clock
 that never wakes late.
 */
module Scenarios {
  import opened Wrappers
  import Timeout
  import Supervisor
  import Console
  import Numerals
  import Sherpa

  const Second: int := Timeout.MicrosPerSecond

  /** `--timeout=1 exit 1`: the child fails at once, and its code 1 is the program's. */
  lemma FastFailure(start: int, oversleep: int -> nat)
    requires 0 <= start <= Timeout.MaxInstant - 60 * Second
    ensures var o := Sherpa.Session(Sherpa.Args(["exit", "1"], Some("1")),
                                    Supervisor.Env(Supervisor.Child(Some(start), 1), oversleep), start);
            && o.Completed?
            && o.command == "exit 1"
            && !o.killed
            && o.code == 1
            && Sherpa.ExitStatus(o) == 1
            && Console.Line(o.log[|o.log| - 1]) == Some("Child has exited with: 1")
  {
    Timeout.ConfigurePrinted(1, start);
    assert Timeout.Configure("1", start).Ok?;
    var o := Sherpa.Session(Sherpa.Args(["exit", "1"], Some("1")),
                            Supervisor.Env(Supervisor.Child(Some(start), 1), oversleep), start);
    Sherpa.ExitLineLast(o.command, o.plan, o.watch.polls, o.killed, o.code);
    assert o.code == 1;
    assert Numerals.NatToString(1) == [Numerals.DigitChar(1)] == "1";
    assert Console.ExitText(1) == Console.ExitPrefix + "1" == "Child has exited with: 1";
  }

  /**
   The examples as written with `--timeout=1s`, `5s` and `2m`: `int()` refuses
   the option, so no child is started and the interpreter exits with status 1.
   */
  lemma UnitSuffixExamplesAbort(start: int, env: Supervisor.Env)
    requires Timeout.IsInstant(start)
    ensures Sherpa.Session(Sherpa.Args(["sleep", "10"], Some("1s")), env, start)
            == Sherpa.Aborted(Timeout.NotAnInteger("1s"))
    ensures Sherpa.Session(Sherpa.Args(["sleep", "3"], Some("5s")), env, start)
            == Sherpa.Aborted(Timeout.NotAnInteger("5s"))
    ensures Sherpa.Session(Sherpa.Args(["sleep", "90"], Some("2m")), env, start)
            == Sherpa.Aborted(Timeout.NotAnInteger("2m"))
    ensures Sherpa.ExitStatus(Sherpa.Session(Sherpa.Args(["sleep", "90"], Some("2m")), env, start)) == 1
  {
    Timeout.UnitSuffixesRefused(start);
  }

  /**
   `--timeout=2 sleep 90`, an adapted run of the slow example: the child outlives the first full wait and still
   exits in time, so 0 comes back whatever the clock does. (A clock that wakes
   late enough can still print the kill notice first.)
   */
  lemma SlowSuccess(start: int, oversleep: int -> nat)
    requires 0 <= start <= Timeout.MaxInstant - 120 * Second
    ensures var o := Sherpa.Session(Sherpa.Args(["sleep", "90"], Some("2")),
                                    Supervisor.Env(Supervisor.Child(Some(start + 90 * Second), 0), oversleep), start);
            && o.Completed?
            && o.code == 0
            && Sherpa.ExitStatus(o) == 0
  {
    Timeout.ConfigurePrinted(2, start);
    assert Timeout.Configure("2", start).Ok?;
  }

  /** `--timeout=1 sleep 90` on a punctual clock: the child is killed at the deadline and the run fails. */
  lemma KilledAtDeadline(start: int, env: Supervisor.Env)
    requires 0 <= start <= Timeout.MaxInstant - 60 * Second
    requires Supervisor.Punctual(env) && env.child == Supervisor.Child(Some(start + 90 * Second), 0)
    ensures var o := Sherpa.Session(Sherpa.Args(["sleep", "90"], Some("1")), env, start);
            && o.Completed?
            && o.killed
            && o.code == Supervisor.KilledReturnCode
            && Sherpa.ExitStatus(o) != 0
            && Console.KillingChild in o.log
            && (exists i :: 0 <= i < |o.log| && Console.Line(o.log[i]) == Some(Console.KillNotice))
  {
    var args := Sherpa.Args(["sleep", "90"], Some("1"));
    var plan := Timeout.Plan(60 * Second, start + 60 * Second);
    Timeout.ConfigurePrinted(1, start);
    assert Timeout.Configure("1", start) == Ok(plan);
    var o := Sherpa.Session(args, env, start);
    assert o.Completed? && o.plan == plan;
    Sherpa.PunctualSession(args, env, start);
    assert !Supervisor.ExitedBy(env.child, plan.deadline);
    Sherpa.KillNoticeOnce(o.command, o.plan, o.watch.polls, o.killed, o.code);
    Sherpa.KillNoticeReadable(o.command, o.plan, o.watch.polls, o.killed, o.code);
    Sherpa.ExitStatusFaithful(o);
  }
}
