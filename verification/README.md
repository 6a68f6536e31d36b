# travis-wait-improved supervisor, modelled in Dafny

`travis_wait_improved` starts one shell command as a child process and watches
it. It prints a "time remaining" line at least once a minute, so that a CI
runner does not decide that a quiet job has stalled. If the child is still
running when the `--timeout` deadline arrives, the supervisor kills it. It then
returns the child's exit code as its own. This project models `main()` of
`src/travis_wait_improved/sherpa.py` and proves what it promises.

Time is an integer number of microseconds, the resolution of Python's
`timedelta`. An instant counts microseconds from `datetime.min`.

The wall clock and the child are replaced by an environment (`Supervisor.Env`):
- The child exits by itself at a fixed instant, or never, with a fixed code.
- After a bounded wait runs out, the next `utcnow()` sample is no earlier than
  the instant the wait was due to end. `oversleep` says how much later it is.

Modules, leaf first:
- `Wrappers`: `Option` and `Result`.
- `Numerals`: Python's `int(text)` and `str(n)`.
- `Command`: `" ".join(tokens)` and its inverse, `str.split(" ")`.
- `Timeout`: minutes to `timedelta`, the deadline, and the three exceptions
  that can occur before any child exists.
- `Schedule`: the wait quantum `min(60 s, remaining)`.
- `Supervisor`: the polling loop as a reference function (`Loop`), the
  imperative loop (`Supervise`), and the kill and reap step (`Reap`).
- `Console`: the printed lines as events with severities, and the final line's text.
- `Sherpa`: `main()` as a whole (`Session`) and the process exit status.
- `Scenarios`: the repository's end-to-end examples, as written where they
  fit this code and adapted to bare minutes where they do not.

Facts about the code that its tests do not match:
- The code reads `--timeout` with `int()` as bare minutes, with a default of
  `20` (sherpa.py lines 15-16 and 55). Unit suffixes are refused
  (`Timeout.UnitSuffixesRefused`). tests/test_sherpa.py lines 44, 55 and 67
  pass `1s`, `5s` and `2m`, so on this code those runs end before any child
  exists (`Scenarios.UnitSuffixExamplesAbort`).
- The code waits `min(60, remaining)` seconds on every trip round the loop,
  and uses `utcnow()` samples at microsecond resolution.
- A refused timeout raises `ValueError` or `OverflowError`, which nothing
  catches, so the interpreter exits with status 1. The bad-timeout test
  (tests/test_sherpa.py lines 98-103) expects `SystemExit`, which this code
  does not raise.
- The code calls `docopt` without `options_first=True` (sherpa.py line 53). An
  undeclared option-like token after the command, such as the `--something` of
  tests/test_sherpa.py lines 106-121, makes the parser stop with a usage
  error before the command line is built. The pass-through that
  `Command.SplitJoin` proves holds for the tokens the parser hands over.

## Model

| member | source | states |
|---|---|---|
| Numerals.ParsePrinted | src/travis_wait_improved/sherpa.py:55 | `int()` reads every integer that Python prints back as that same integer |
| Numerals.PrintParsed | src/travis_wait_improved/sherpa.py:55 | a decimal literal with no leading zero is exactly what `str` prints for its value |
| Numerals.NatToString | src/travis_wait_improved/sherpa.py:95-97 | `str(n)` is a non-empty run of digits whose value is `n`, with no leading zero unless `n` is 0 |
| Numerals.StripLeftShape | src/travis_wait_improved/sherpa.py:55 | the front strip keeps a suffix that starts with no white space and drops only white space |
| Numerals.StripRightShape | src/travis_wait_improved/sherpa.py:55 | the back strip keeps a prefix that ends with no white space and drops only white space |
| Numerals.SeparatorsNotStripped | src/travis_wait_improved/sherpa.py:55 | a literal next to an ASCII separator U+001C or U+001F is refused |
| Numerals.UnicodeSpaceStripped | src/travis_wait_improved/sherpa.py:55 | non-ASCII white space around a literal is ignored |
| Numerals.RejectsWord | src/travis_wait_improved/sherpa.py:55 | the non-numeric option text `yourmom` is refused |
| Command.SplitJoin | src/travis_wait_improved/sherpa.py:54 | tokens without spaces, as the parser hands them over, come back from the command line in order and unchanged, option-like ones included |
| Command.JoinSplit | src/travis_wait_improved/sherpa.py:54 | every line is the join of its single-space pieces: the joined form loses nothing |
| Command.JoinLength | src/travis_wait_improved/sherpa.py:54 | the command line is the tokens' characters plus exactly one separator between each neighbouring pair |
| Command.SpacedTokensMerge | src/travis_wait_improved/sherpa.py:54 | a token that contains a space gives the same line as two tokens, so the shell sees no boundary |
| Command.OptionLikeTokensVerbatim | src/travis_wait_improved/sherpa.py:54 | the tokens `echo`, `--something`, `more`, `complicated`, once handed over, become exactly the line `echo --something more complicated` |
| Timeout.Minutes | src/travis_wait_improved/sherpa.py:55 | `timedelta(minutes=n)` is `n` minutes exactly, accepted if and only if it lies between `timedelta.min` and `timedelta.max` |
| Timeout.Deadline | src/travis_wait_improved/sherpa.py:58-59 | the deadline is the start plus the timeout, accepted if and only if it is a representable `datetime` |
| Timeout.Configure | src/travis_wait_improved/sherpa.py:55-59 | the option is accepted if and only if it is an integer literal whose deadline is representable; then the timeout is a whole number of minutes and the deadline is start plus timeout; a non-integer fails as `ValueError` first |
| Timeout.ConfigurePrinted | src/travis_wait_improved/sherpa.py:55-59 | every integer `n`, written in decimal, gives a timeout of `60·n` seconds and a deadline `n` minutes after start |
| Timeout.ConfigureDefault | src/travis_wait_improved/sherpa.py:15-16 | with no option given, the deadline is 1200 seconds after start |
| Timeout.UnitSuffixesRefused | src/travis_wait_improved/sherpa.py:55 | `1s`, `5s` and `2m` are refused as not integers |
| Schedule.Quantum | src/travis_wait_improved/sherpa.py:76 | the quantum is the smaller of 60 s and the remaining time, and it is positive while time remains |
| Supervisor.LoopShape | src/travis_wait_improved/sherpa.py:70-89 | each poll happens before the deadline and waits between 0 and 60 s exclusive of 0, never past the deadline; each poll starts from a fresh sample no earlier than the previous wait's end; a deadline already due means no poll; the loop stops on the deadline if and only if its last sample has reached it; it breaks only when the last wait saw the exit, and every other wait saw the child running |
| Supervisor.Supervise | src/travis_wait_improved/sherpa.py:67-92 | the imperative loop computes the reference trace and the reaped code; it issues the kill if and only if its last sample reached the deadline; a child that exits by the deadline has its own code returned; a child still running at the kill gets the killed code |
| Supervisor.ReapOutcome | src/travis_wait_improved/sherpa.py:86-92 | a child that exits by the deadline keeps its own code whatever the clock does; a child that has not exited by the deadline is always sent the kill |
| Supervisor.PunctualDeadline | src/travis_wait_improved/sherpa.py:70-85 | with a clock that never wakes late, the loop reaches the deadline if and only if the child has not exited by it, and it then stops exactly at the deadline |
| Console.ExitTextNamesCode | src/travis_wait_improved/sherpa.py:94-97 | the final line is `Child has exited with: ` followed by text that `int()` reads back as the exit code |
| Console.ExitTextInjective | src/travis_wait_improved/sherpa.py:94-97 | two final lines that read the same report the same code |
| Console.LinesReadBack | src/travis_wait_improved/sherpa.py:61-97 | reading a printed line back as an exit line yields exactly the code of a final line, and nothing for any other line |
| Console.KillNoticeOnlyFromKill | src/travis_wait_improved/sherpa.py:61-97 | a printed line is the kill notice if and only if it is the kill event's line |
| Console.KillPhrase | src/travis_wait_improved/sherpa.py:88 | the kill line's text contains `killing child` |
| Console.ExitPhrase | src/travis_wait_improved/sherpa.py:94-97 | the final line's text contains `exited with: `, whatever the code |
| Sherpa.Session | src/travis_wait_improved/sherpa.py:51-100 | `main()` aborts before any child exists if and only if the timeout is refused, and the abort carries the exception that reading the option raised; otherwise the plan is the one read from the option (or from the default `20`), so the deadline is start plus `int(option)` minutes, the command is the joined tokens, the kill is issued if and only if the loop's last sample reached the deadline, the code returned is the killed code exactly when the kill was issued and the child had not exited by the loop's last sample, and the child's own code otherwise (so a child done by the deadline returns its own code, and a child that never exits returns the killed code), and the log is the loop's transcript |
| Sherpa.TranscriptShape | src/travis_wait_improved/sherpa.py:62-97 | the output is three start-up lines, one remaining-time line per poll at WARNING, the kill line at FAIL if the kill was issued, and last the exit line, at GOOD when the code is 0 and at FAIL otherwise |
| Sherpa.KillNoticeOnce | src/travis_wait_improved/sherpa.py:86-89 | the kill line appears exactly once if the kill was issued, and never otherwise |
| Sherpa.ExitLineLast | src/travis_wait_improved/sherpa.py:61-97 | the exit line is printed last, and no earlier line is an exit line |
| Sherpa.TranscriptReadsBack | src/travis_wait_improved/sherpa.py:61-97 | read as text, the output's last line gives back the code returned, and no earlier line reads as an exit line |
| Sherpa.KillNoticeReadable | src/travis_wait_improved/sherpa.py:86-89 | the kill notice's text is among the printed lines if and only if the kill was issued |
| Sherpa.RemainingShrinks | src/travis_wait_improved/sherpa.py:70-85 | every remaining-time line reports a positive time left, from a fresh sample, and less than the line before |
| Sherpa.ExitStatusFaithful | src/travis_wait_improved/sherpa.py:103-104 | the process exit status is 0 if and only if the child's code is 0; a refused timeout and a killed child both exit with a non-zero status |
| Sherpa.PunctualSession | src/travis_wait_improved/sherpa.py:70-100 | with a clock that never wakes late and a positive timeout, the kill is issued if and only if the child has not exited by the deadline; a kill returns the killed code at the deadline, and otherwise the child's own code comes back |
| Sherpa.NonPositiveTimeoutKillsAtOnce | src/travis_wait_improved/sherpa.py:70-89 | a timeout of zero minutes or fewer skips the loop: no remaining-time line is printed and the kill is issued at once |
| Scenarios.FastFailure | tests/test_sherpa.py:87-95 | `--timeout=1 exit 1` returns 1, exits with status 1, and prints `Child has exited with: 1` last |
| Scenarios.UnitSuffixExamplesAbort | tests/test_sherpa.py:42-73 | the examples as written, with `--timeout=1s`, `5s` and `2m`, end before any child exists, and the interpreter exits with status 1 |
| Scenarios.SlowSuccess | src/travis_wait_improved/sherpa.py:70-100 | an adapted run of the slow example with the timeout in bare minutes: `--timeout=2 sleep 90` returns 0 for any clock |
| Scenarios.KilledAtDeadline | src/travis_wait_improved/sherpa.py:86-100 | with a clock that never wakes late, a 90-second child under a one-minute timeout is killed, the kill notice's text is printed, and the status is non-zero |

## Left out

- Argument parsing (`docopt`), `--help` and `--version` come from a foreign library. `Sherpa.Args` is what the parser hands over.
- Colouring (`termcolor`), the `HEADER` prefix and the printing itself are left out. Each line is an event with its severity. The `timedelta` and `datetime` values in the start-up and remaining-time lines are kept as numbers, not rendered as text, so `Console.Line` gives text only for the `Running:`, kill and exit lines.
- Spawning through `subprocess.Popen(shell=True)` is left out, and so is the shell's reading of the command line. A spawn failure (`OSError`) is not modelled.
- The real `wait` and `kill` calls and `datetime.utcnow()` are OS I/O. They are replaced by the environment described above.
- The environment's clock never runs backwards. A wall clock that is set back is not modelled.
- `Popen.wait(timeout)` really polls every 50 ms or less. The model sees an exit as soon as it happens.
- `kill()` is treated as acting at the loop's last clock sample. A child that exits between that sample and the signal is counted as killed.
- Supervisor.BoundedWait: the wait is modelled as starting at the clock sample `now` and ending at `now + q`. In the code it starts later: after the remaining-time print on every trip, and on the first trip also after the start-up prints and the spawn. A child that exits in that gap, after `now + q`, is seen by the real wait, which breaks the loop without a kill line. The model instead reports a timeout, giving an extra trip or a kill line. These claims depend on it: `Supervisor.LoopShape`'s that a break means an exit by the end of the last window; `Supervisor.ReapOutcome`'s that a child that has not exited by the deadline is always sent the kill; `Supervisor.Supervise`'s that a child not exited by the deadline makes the loop stop on the deadline; `Sherpa.Session`'s that such a child is killed; and the if-and-only-if claims of `Supervisor.PunctualDeadline` and `Sherpa.PunctualSession`.
- `total_seconds()` works in floating point. Here the quantum is exact integer microseconds.
- `Numerals.ParseInt` accepts ASCII digits only. `int()` also accepts other Unicode decimal digits. The 4300-digit limit on `int()` in newer Python versions is not modelled.
- `src/travis_wait_improved/example.py` only sets up logging. `setup.py` is packaging metadata.
- The process exit status comes from `sys.exit(main())`, the code modulo 256. `Sherpa.ExitStatusFaithful` states this only for codes from -255 to 255, which covers every code `Popen` reports.
