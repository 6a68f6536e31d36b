/**
 The program's entry point: build the command line, fix the deadline, start
 the child, supervise it, and hand its exit code back as the program's own.
 */
module Sherpa {
  import opened Wrappers
  import Command
  import Timeout
  import Supervisor
  import opened Console

  /** What the argument parser hands over: the command tokens and the `--timeout` text, if given. */
  datatype Args = Args(command: seq<string>, timeout: Option<string>)

  function TimeoutSpec(args: Args): string {
    match args.timeout
    case None => Timeout.DefaultSpec
    case Some(spec) => spec
  }

  /**
   How a run ends: an exception raised while fixing the deadline, before any
   child exists and before anything is printed; or a supervised child, with the
   loop's trace, whether the kill was issued, the code `main()` returns, and
   the lines printed.
   */
  datatype Outcome =
    | Aborted(error: Timeout.TimeoutError)
    | Completed(command: string, plan: Timeout.Plan, watch: Supervisor.Watch,
                killed: bool, code: int, log: seq<Event>)

  /** The start-up lines. */
  function Header(command: string, plan: Timeout.Plan): seq<Event> {
    [Running(command), MaxRuntime(plan.timeout), WillKillAt(plan.deadline)]
  }

  /** One "remaining" line per trip round the loop, from that trip's clock sample. */
  function RemainingReports(polls: seq<Supervisor.Poll>, deadline: int): (log: seq<Event>)
    ensures |log| == |polls|
    ensures forall i :: 0 <= i < |polls| ==> log[i] == Remaining(deadline - polls[i].at)
  {
    seq(|polls|, i requires 0 <= i < |polls| => Remaining(deadline - polls[i].at))
  }

  /**
   `main()` given the parsed arguments, the environment and the instant
   `datetime.utcnow()` returns at start-up.
   */
  function Session(args: Args, env: Supervisor.Env, start: int): (o: Outcome)
    requires Timeout.IsInstant(start)
    ensures o.Aborted? <==> Timeout.Configure(TimeoutSpec(args), start).Err?
    ensures o.Aborted? ==> Timeout.Configure(TimeoutSpec(args), start) == Err(o.error)
    ensures o.Completed? ==> Timeout.Configure(TimeoutSpec(args), start) == Ok(o.plan)
    ensures o.Completed? ==>
      && o.watch == Supervisor.Loop(env, o.plan.deadline, start)
      && (o.killed <==> o.watch.stop == Supervisor.DeadlineReached)
      && o.log == Transcript(o.command, o.plan, o.watch.polls, o.killed, o.code)
    ensures o.Completed? ==>
      && o.command == Command.Join(args.command)
      && o.plan.deadline == start + o.plan.timeout
      && o.plan.timeout % Timeout.MicrosPerMinute == 0
      && (o.killed <==> o.watch.stoppedAt >= o.plan.deadline)
      && (Supervisor.ExitedBy(env.child, o.plan.deadline) ==> o.code == env.child.code)
      && (!Supervisor.ExitedBy(env.child, o.plan.deadline) ==> o.killed)
      && (o.killed && !Supervisor.ExitedBy(env.child, o.watch.stoppedAt) ==> o.code == Supervisor.KilledReturnCode)
      && (env.child.exitsAt.None? ==> o.killed && o.code == Supervisor.KilledReturnCode)
      && o.code == (if o.killed && !Supervisor.ExitedBy(env.child, o.watch.stoppedAt)
                    then Supervisor.KilledReturnCode else env.child.code)
  {
    match Timeout.Configure(TimeoutSpec(args), start)
    case Err(e) => Aborted(e)
    case Ok(plan) =>
      var command := Command.Join(args.command);
      var w := Supervisor.Loop(env, plan.deadline, start);
      var killed := w.stop == Supervisor.DeadlineReached;
      var code := Supervisor.Reap(env.child, w);
      var log := Transcript(command, plan, w.polls, killed, code);
      Supervisor.LoopShape(env, plan.deadline, start);
      Supervisor.ReapOutcome(env, plan.deadline, start);
      Completed(command, plan, w, killed, code, log)
  }

  /** Everything printed once the deadline is fixed, in order. */
  function Transcript(command: string, plan: Timeout.Plan, polls: seq<Supervisor.Poll>,
                      killed: bool, code: int): seq<Event>
  {
    Header(command, plan)
    + RemainingReports(polls, plan.deadline)
    + (if killed then [KillingChild] else [])
    + [ChildExitedWith(code)]
  }

  /**
   The transcript's shape: the three start-up lines, one "remaining" line per
   trip round the loop at WARNING, the kill notice at FAIL if the kill was
   issued, and last the exit line, at GOOD when the code is 0 and at FAIL
   otherwise.
   */
  lemma TranscriptShape(command: string, plan: Timeout.Plan, polls: seq<Supervisor.Poll>,
                        killed: bool, code: int)
    ensures var log := Transcript(command, plan, polls, killed, code);
      && |log| == 4 + |polls| + (if killed then 1 else 0)
      && log[..3] == Header(command, plan)
      && (forall i :: 0 <= i < |polls| ==>
            && log[3 + i] == Remaining(plan.deadline - polls[i].at)
            && SeverityOf(log[3 + i]) == Some(Warning))
      && (killed ==> log[|log| - 2] == KillingChild && SeverityOf(log[|log| - 2]) == Some(Fail))
      && log[|log| - 1] == ChildExitedWith(code)
      && SeverityOf(log[|log| - 1]) == Some(if code == 0 then Good else Fail)
  {
    var head := Header(command, plan) + RemainingReports(polls, plan.deadline);
    var log := Transcript(command, plan, polls, killed, code);
    assert log == head + (if killed then [KillingChild] else []) + [ChildExitedWith(code)];
    assert log[..3] == head[..3];
  }

  /** The kill notice is printed once if the kill was issued, and never otherwise. */
  lemma KillNoticeOnce(command: string, plan: Timeout.Plan, polls: seq<Supervisor.Poll>,
                       killed: bool, code: int)
    ensures var log := Transcript(command, plan, polls, killed, code);
      && (KillingChild in log <==> killed)
      && multiset(log)[KillingChild] == (if killed then 1 else 0)
  {
    var reports := RemainingReports(polls, plan.deadline);
    var notice := if killed then [KillingChild] else [];
    var log := Transcript(command, plan, polls, killed, code);
    assert KillingChild !in reports;
    assert multiset(log) == multiset(Header(command, plan)) + multiset(reports)
                            + multiset(notice) + multiset([ChildExitedWith(code)]);
  }

  /** Only the last line of the output is an exit line. */
  lemma ExitLineLast(command: string, plan: Timeout.Plan, polls: seq<Supervisor.Poll>,
                     killed: bool, code: int)
    ensures var log := Transcript(command, plan, polls, killed, code);
      && log[|log| - 1] == ChildExitedWith(code)
      && (forall i :: 0 <= i < |log| - 1 ==> !log[i].ChildExitedWith?)
  {
    var reports := RemainingReports(polls, plan.deadline);
    var notice := if killed then [KillingChild] else [];
    var log := Transcript(command, plan, polls, killed, code);
    var head := Header(command, plan) + reports + notice;
    assert log == head + [ChildExitedWith(code)];
    forall i | 0 <= i < |log| - 1
      ensures !log[i].ChildExitedWith?
    {
      assert log[i] == head[i];
      if 3 <= i < 3 + |polls| {
        assert head[i] == reports[i - 3];
      }
    }
  }

  /**
   The printed output read as text: the last line reads back as the code
   returned, and no earlier line reads as an exit line.
   */
  lemma TranscriptReadsBack(command: string, plan: Timeout.Plan, polls: seq<Supervisor.Poll>,
                            killed: bool, code: int)
    ensures var log := Transcript(command, plan, polls, killed, code);
      && Line(log[|log| - 1]).Some?
      && ReadExitCode(Line(log[|log| - 1]).value) == Some(code)
      && (forall i :: 0 <= i < |log| - 1 && Line(log[i]).Some? ==> ReadExitCode(Line(log[i]).value) == None)
  {
    var log := Transcript(command, plan, polls, killed, code);
    ExitLineLast(command, plan, polls, killed, code);
    LinesReadBack(log[|log| - 1]);
    forall i | 0 <= i < |log| - 1 && Line(log[i]).Some?
      ensures ReadExitCode(Line(log[i]).value) == None
    {
      LinesReadBack(log[i]);
    }
  }

  /** A reader finds the kill notice among the printed lines exactly when the kill was issued. */
  lemma KillNoticeReadable(command: string, plan: Timeout.Plan, polls: seq<Supervisor.Poll>,
                           killed: bool, code: int)
    ensures var log := Transcript(command, plan, polls, killed, code);
      killed <==> exists i :: 0 <= i < |log| && Line(log[i]) == Some(KillNotice)
  {
    var log := Transcript(command, plan, polls, killed, code);
    KillNoticeOnce(command, plan, polls, killed, code);
    forall i | 0 <= i < |log|
      ensures Line(log[i]) == Some(KillNotice) <==> log[i] == KillingChild
    {
      KillNoticeOnlyFromKill(log[i]);
    }
  }

  /**
   Every "remaining" line of a run reports a positive time left, sampled
   afresh at the top of its trip round the loop, and each reports less than
   the one before.
   */
  lemma RemainingShrinks(env: Supervisor.Env, plan: Timeout.Plan, start: int, command: string, code: int)
    ensures var w := Supervisor.Loop(env, plan.deadline, start);
            var log := Transcript(command, plan, w.polls, w.stop == Supervisor.DeadlineReached, code);
      && (forall i :: 0 <= i < |w.polls| ==>
            && log[3 + i] == Remaining(plan.deadline - w.polls[i].at)
            && plan.deadline - w.polls[i].at > 0)
      && (forall i :: 0 <= i < |w.polls| - 1 ==>
            plan.deadline - w.polls[i + 1].at < plan.deadline - w.polls[i].at)
  {
    var w := Supervisor.Loop(env, plan.deadline, start);
    Supervisor.LoopShape(env, plan.deadline, start);
    TranscriptShape(command, plan, w.polls, w.stop == Supervisor.DeadlineReached, code);
  }

  /** `sys.exit(main())` keeps the low eight bits of the code; an uncaught exception exits with 1. */
  function ExitStatus(o: Outcome): (status: int)
    ensures 0 <= status < 256
  {
    match o
    case Aborted(_) => 1
    case Completed(_, _, _, _, code, _) => code % 256
  }

  /** Codes `Popen` can report: an exit status 0..255, or -N for a signal N. */
  predicate IsReturnCode(code: int) {
    -255 <= code <= 255
  }

  /**
   The caller sees success exactly when the child succeeded; a refused
   timeout and a killed child both read as failure.
   */
  lemma ExitStatusFaithful(o: Outcome)
    requires o.Completed? ==> IsReturnCode(o.code)
    ensures o.Aborted? ==> ExitStatus(o) != 0
    ensures o.Completed? ==> (ExitStatus(o) == 0 <==> o.code == 0)
    ensures o.Completed? && o.code == Supervisor.KilledReturnCode ==> ExitStatus(o) == 247
  {
  }

  /**
   With a punctual clock and a positive timeout the kill is issued exactly
   when the child has not exited by the deadline, and then the killed code is
   what comes back; otherwise the child's own code does.
   */
  lemma PunctualSession(args: Args, env: Supervisor.Env, start: int)
    requires Timeout.IsInstant(start)
    requires Supervisor.Punctual(env)
    requires Session(args, env, start).Completed? && Session(args, env, start).plan.timeout > 0
    ensures var o := Session(args, env, start);
            && (o.killed <==> !Supervisor.ExitedBy(env.child, o.plan.deadline))
            && (o.killed ==> o.code == Supervisor.KilledReturnCode && o.watch.stoppedAt == o.plan.deadline)
            && (!o.killed ==> o.code == env.child.code)
  {
    var o := Session(args, env, start);
    Supervisor.PunctualDeadline(env, o.plan.deadline, start);
  }

  /** A timeout of zero or fewer minutes skips the loop: the kill is issued at once. */
  lemma NonPositiveTimeoutKillsAtOnce(args: Args, env: Supervisor.Env, start: int)
    requires Timeout.IsInstant(start)
    requires Session(args, env, start).Completed? && Session(args, env, start).plan.timeout <= 0
    ensures var o := Session(args, env, start);
            && o.killed
            && o.watch.polls == []
            && o.log == Header(o.command, o.plan) + [KillingChild, ChildExitedWith(o.code)]
  {
  }
}
