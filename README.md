# lsm: outcome codes, reporting, command execution and Adler-32

A Dafny model of the core of `lsm.py`, the shared library of the Local Site
Mover. The mover is the copy tool a Pilot job calls to move files between a
worker node and storage. The model covers five parts:

- `mapLSMtoPilot`, the table from internal LSM outcome codes to the exit codes
  the Pilot understands, and `exitToPilot`, which looks a code up, logs an
  anomaly for an unmapped code, prints the optional message, logs the exit line
  and exits.
- `fail`, `error`, `warn` and `info`. Each builds one log line
  `<LEVEL> <code zero-filled to 3>[ <msg>]`. `log` writes that line to the log
  file and to syslog. `fail` also prints it and exits with the untranslated
  code.
- `RunCMD(cmd, timeout)`, modelled as a state machine over an abstract
  operating system. The class `Executor.Kernel` records each system call the
  code makes, in order: spawn, installing the handler, `alarm`, waiting, the
  SIGALRM, running `ps`, and `os.kill`. It answers each call from a fixed
  environment, `Executor.Env`.
- `ChildRunCMD(pid)`, which runs `ps` for one parent pid and parses its output
  with `split()` and `int()`.
- `adler32(fname)`: the file read in 4 MiB blocks, each folded in with
  `zlib.adler32` starting from 1. A negative result is corrected by adding
  2^32, and the value is returned as eight lower-case hex digits. The checksum
  is proved equal to the closed form of section 8.2 of RFC 1950.

Files:

- `wrappers.dfy`: the Option type.
- `pytext.dfy`: the Python 2 string and integer operations the code relies on.
  These are `str(int)`, `int(s)`, `zfill`, `split()`, `s[:-1]`, slicing,
  `lower()` and `hex()`.
- `messages.dfy`: log lines and the `log` record.
- `catalog.dfy`: the table and `exitToPilot`.
- `processtree.dfy`: the `ps` command and its parse.
- `executor.dfy`: `RunCMD` and `ChildRunCMD`.
- `adler32.dfy`: the checksum.

Where the comments in `lsm.py` and its code disagree, the model follows the
code:

- The header lists the warnings 56-59 and 61-63 (lsm.py:68-75), but the
  table has no entry for them. They exit with 255 and log an `ERROR 999`
  anomaly line (`Catalog.UntabledWarnings`).
- The header lists the Pilot codes 204, 207, 208 and 220 (lsm.py:22-32), and
  220 is the transient failure. No table entry produces any of them
  (`Catalog.TranslateRange`).
- The comments at lsm.py:350 ("the spawn of our spawn") and lsm.py:353
  ("Terminate all of the evil spawn") announce a kill of every pid in the
  list. As written, `return (-1, None)` sits inside the `for` body, so only
  `p.pid` is signalled (`Executor.OnlyFirstSignalled`,
  `Executor.SweepIsNotFull`). `ChildRunCMD` also looks only one generation
  down (`Executor.KillListOneGeneration`, `Executor.GrandchildMissed`).

`communicate()[0][:-1]` (lsm.py:338) drops the last character of the output
whether or not it is a newline. For output without a trailing newline that is
a real character: `echo -n hello` comes back as `hell`
(`Executor.EchoWithoutNewline`).

The timing model: a command that exits after `seconds` beats an alarm of
`timeout` seconds exactly when `seconds < timeout`. A `ValueError` raised by
`int()` inside `ChildRunCMD` propagates out of `RunCMD`. That case is
`Executor.Outcome.ValueErrorRaised`.

## Model

| member | source | states |
|---|---|---|
| `Catalog.BuildPilotMap` | lsm.py:128-170 | the module-level assignments, in source order, build exactly the table `PilotMap` |
| `Catalog.PilotMapByGroup` | lsm.py:128-170 | an internal code maps to exit code p if and only if it is in the documented group of p (both directions) |
| `Catalog.PilotMapDomain` | lsm.py:128-170 | the table maps exactly 0-2, 50-55, 60, 64-66, 200-219, 254, 255 and 999, each to an exit code of the table |
| `Catalog.PilotMap` | lsm.py:128-170 | every key of the table is a documented internal code and maps to an exit code of the table; 999 maps to 255 |
| `Catalog.Translate` | lsm.py:403-407 | the lookup gives the tabled value, or 255 for a code not in the table; the result is 0 exactly for 0-2, and 255 exactly for 999 or an unmapped code |
| `Catalog.TranslateRange` | lsm.py:128-170 | every exit code is 0, 200-213 or 255; 220, 204, 207 and 208 never occur |
| `Catalog.TranslateOnto` | lsm.py:128-170 | every exit code of the table is produced by some internal code |
| `Catalog.ErrorsAreFailures` | lsm.py:146-168 | every documented error code 200-219, 254, 255 is tabled and reported as a failure code 200-213 |
| `Catalog.UntabledWarnings` | lsm.py:133-144 | the warnings 56-59 and 61-63 are not tabled and exit with 255 |
| `Catalog.ExitToPilot` | lsm.py:401-417 | exit status is the translation; the message is printed when it is not None, even when empty; one log line, or two for an unmapped code; the last line is `ExitLine(p)`, that is `INFO  020 Exit to Pilot with code <p>`; an `ERROR 999` line appears exactly once for unmapped codes and never otherwise |
| `Catalog.UnmappedLine` | lsm.py:407 | the anomaly line is exactly `ERROR 999 Unmapped error code : <code>`, and it reads back as level Error, code 999 and that message |
| `Catalog.ExitLine` | lsm.py:415 | the exit line is exactly `INFO  020 Exit to Pilot with code <p>`, and it reads back as level Info, code 20 and that message |
| `Catalog.ExitToPilotDefault` | lsm.py:401 | the default call exits with 255 via the table entry for 999, with no anomaly line |
| `Catalog.ExitToPilotObserved` | lsm.py:417 | every status `exitToPilot` passes to `sys.exit` reaches the parent unchanged (it is below 256) |
| `Messages.Prefix` | lsm.py:220-267 | the level prefix is six characters ending in a space, so the code always starts in column 6 |
| `Messages.Pad3` | lsm.py:218 | `str(code).zfill(3)` has length max(3, width of the code), has no spaces and still parses to the code |
| `Messages.Pad3ZeroFill` | lsm.py:218 | the padding is zeros put in front of the digits, after the minus sign of a negative code |
| `Messages.Truthy` | lsm.py:220 | `if ( msg )`: None and the empty string are false, every other string is true |
| `Messages.Line` | lsm.py:218-223 | the line is the six-character level prefix, then the zero-filled code, then a space and the message exactly when the message is truthy |
| `Messages.LineRoundTrip` | lsm.py:216-267 | every line reads back as its level, its code and the message, which is kept only when truthy |
| `Messages.AfterPrefixRoundTrip` | lsm.py:220-224 | the code and message part of a line reads back as the code and the kept message |
| `Messages.ErrorLine` | lsm.py:232-242 | `error(code, msg)` logs a line that starts with `ERROR ` and the zero-filled code and reads back as level Error, the code and the kept message; defaults 999 and None |
| `Messages.WarnLine` | lsm.py:246-256 | `warn(code, msg)` logs a line that starts with `WARN  ` and the zero-filled code and reads back as level Warn; defaults 100 and None |
| `Messages.InfoLine` | lsm.py:260-270 | `info(code, msg)` logs a line that starts with `INFO  ` and the zero-filled code and reads back as level Info; defaults 0 and None |
| `Messages.InfoDefaultText` | lsm.py:260-270 | `info()` with its defaults logs exactly `INFO  000` |
| `Messages.Fail` | lsm.py:216-228 | `fail` prints and logs the same single line, which starts with `ERROR ` and the zero-filled code and reads back, and exits with the untranslated code |
| `Messages.ObservedStatus` | lsm.py:228 | the parent sees `sys.exit(n)` of a Python `int` as n mod 256, which equals n for 0-255 |
| `Messages.FailDefaultObservedStatus` | lsm.py:216-228 | `fail()` with its default 999 reaches the caller as status 231 |
| `Messages.LogRecord` | lsm.py:194-200 | the log-file record is the stamp, a space, the session id, a space and the line, then a newline; it is one line when its parts are |
| `Messages.SyslogRecord` | lsm.py:209 | the syslog record is the session id, a space and the line, then a newline; it is one line when its parts are |
| `PyText.IntToStringForm` | lsm.py:218 | `str(n)` has a minus sign exactly when n is negative, only digits after it, and no leading zero except in `0` |
| `PyText.ParseIntAccepts` | lsm.py:382 | for a token of `split()`, `int(s)` succeeds exactly on one or more digits with an optional sign, and a minus sign gives a value that is not positive |
| `PyText.Digits` | lsm.py:218 | the digits of a number are nonempty, all digits of the base, without a leading zero |
| `PyText.DigitsValue` | lsm.py:218 | the digits of n read back as n |
| `PyText.ParseIntOfString` | lsm.py:382 | `int(str(n)) == n` for every integer |
| `PyText.Zfill` | lsm.py:218 | `zfill(w)` pads to width w and never shortens; a string already w wide is unchanged |
| `PyText.ParseIntOfZfill` | lsm.py:218 | zero-filling the decimal form of any integer, negative ones included, does not change the integer it denotes |
| `PyText.Split` | lsm.py:382 | `split()` yields only nonempty tokens without whitespace, and none exactly when the text is all whitespace |
| `PyText.SplitWord` | lsm.py:382 | a token followed by whitespace or by nothing splits off as one token |
| `PyText.DropLast` | lsm.py:338 | `s[:-1]` is one character shorter and a prefix of s; empty stays empty |
| `PyText.DropLastOfAppend` | lsm.py:338 | `s[:-1]` undoes appending one character, whatever it is |
| `PyText.Slice` | lsm.py:448 | the length of `s[lo:hi]` under Python's clamping |
| `PyText.Lower` | lsm.py:448 | `lower()` keeps the length and lowers each character |
| `PyText.Hex` | lsm.py:448 | `hex(n)` is `0x` followed by hex digits that denote n |
| `PyText.ZfillDigits` | lsm.py:218 | `zfill` on a string of digits only puts zeros in front |
| `PyText.ZfillNegative` | lsm.py:218 | `zfill` on a minus sign and digits puts the zeros between the sign and the digits |
| `ProcessTree.PsCommandReadsBack` | lsm.py:372 | the command is `ps --no-headers -o pid --ppid ` followed by the pid in decimal, which reads back as the pid |
| `ProcessTree.ParseAll` | lsm.py:382 | `[int(p) for p in tokens]` succeeds exactly when every token is an integer, with one value per token, in order |
| `ProcessTree.ParsePids` | lsm.py:379-382 | the `ps` output parses exactly when all its whitespace-separated tokens are integers, giving their values in order |
| `ProcessTree.ParsePidsOfBlank` | lsm.py:382 | blank `ps` output (no children) gives the empty list |
| `ProcessTree.SplitPsLine` | lsm.py:371-382 | one right-aligned `ps` line splits to the pid's decimal form |
| `ProcessTree.ParsePsOutput` | lsm.py:368-382 | parsing what `ps --no-headers -o pid` prints for a list of pids gives back that list in order |
| `Executor.KillList` | lsm.py:347-351 | the kill list exists exactly when the `ps` output for the spawn parses, and it is the spawn's own pid followed by the parsed children |
| `Executor.KillListOfChildren` | lsm.py:347-382 | when `ps` lists some children for the spawn, the kill list is the spawn followed by those children, in order |
| `Executor.OutputIffCompleted` | lsm.py:317-364 | output comes back exactly when the spawn succeeds and the command exits before the deadline (or no deadline is set) |
| `Executor.SentinelResults` | lsm.py:317-361 | a result without output is (-2, None) for a failed spawn or (-1, None) for a timeout |
| `Executor.CompletedOutput` | lsm.py:338-364 | on completion the return code is the command's and exactly the last character of the output is dropped |
| `Executor.EchoWithoutNewline` | lsm.py:338 | `echo -n hello` comes back as `hell` |
| `Executor.TrueCommand` | lsm.py:338-364 | a command with no output comes back as (0, "") |
| `Executor.NoAlarmLeftPending` | lsm.py:329-341 | when `RunCMD` returns, no alarm is left pending |
| `Executor.PendingAfter` | lsm.py:331-341 | `alarm(n)` leaves n pending, the SIGALRM clears it, and any other call leaves it alone |
| `Executor.AlarmOnlyWithTimeout` | lsm.py:329-331 | an alarm is armed if and only if the spawn succeeds and timeout > 0, always with `timeout` seconds |
| `Executor.DisarmedBeforeOutput` | lsm.py:338-341 | with a timeout, a completed command is returned only after `alarm(0)` |
| `Executor.OnlyFirstSignalled` | lsm.py:353-361 | as written, only the first pid of the kill list (the spawn) is ever signalled; nothing is signalled on any other path |
| `Executor.SweepIsNotFull` | lsm.py:353-361 | any direct child in the kill list other than the spawn stays unsignalled |
| `Executor.KillListOneGeneration` | lsm.py:347-382 | what `ps` reports for any pid other than the spawn's has no effect on the kill list |
| `Executor.GrandchildMissed` | lsm.py:347-351 | for a spawn with a child that has a child of its own, the kill list holds the spawn and the child but not the grandchild |
| `Executor.CompletedCase` | lsm.py:338-364 | the result, the calls and the surviving processes of a completed run |
| `Executor.TimedOutCase` | lsm.py:344-361 | the result, the calls and the surviving processes of a timed-out run |
| `Executor.Kernel.Popen` | lsm.py:317-325 | the spawn call is recorded and fails as the environment says; on success the spawn is alive |
| `Executor.Kernel.InstallHandler` | lsm.py:330 | installing the SIGALRM handler is recorded and changes nothing else |
| `Executor.Kernel.SetAlarm` | lsm.py:331-341 | `alarm(n)` replaces the pending alarm with n and is recorded |
| `Executor.Kernel.Communicate` | lsm.py:338 | the wait ends with SIGALRM exactly when an alarm is pending and the command does not exit before it; otherwise the return code and output of the command, and the spawn is reaped |
| `Executor.Kernel.Ps` | lsm.py:371-379 | running `ps` for a parent pid returns the environment's output for it and is recorded |
| `Executor.Kernel.Kill` | lsm.py:355-359 | `os.kill` succeeds exactly when the pid is alive, removes it and is recorded |
| `Executor.ChildRunCMD` | lsm.py:368-382 | the result is the parse of `ps` for that pid, after exactly one `ps` call |
| `Executor.RunCMD` | lsm.py:306-364 | the result is `RunOutcome`, the calls made are `Syscalls`, the surviving processes are `AliveAfter`, and no alarm is left pending |
| `Executor.OnAlarm` | lsm.py:344-361 | after SIGALRM: one `ps` call, then (-1, None) with only the spawn signalled, or the `ValueError` with nothing signalled |
| `Adler32.Checksum` | lsm.py:425-448 | the RFC 1950 value fits in 32 bits |
| `Adler32.Step` | lsm.py:440 | one byte of zlib's update keeps both sums reduced below 65521 |
| `Adler32.FoldAppend` | lsm.py:437-440 | folding in two pieces equals folding the whole, which is what lets the file be read block by block |
| `Adler32.FoldIsChecksum` | lsm.py:434-440 | from s1 = 1 and s2 = 0, the running sums are those of section 8.2 of RFC 1950 reduced mod 65521 |
| `Adler32.UnpackPack` | lsm.py:440 | packing reduced sums into 32 bits and reading them back as a seed gives them back |
| `Adler32.ZlibAdler32` | lsm.py:440 | zlib's result is a signed 32-bit integer |
| `Adler32.ZlibIsChecksum` | lsm.py:434-440 | with seed 1, zlib's value read unsigned is the RFC 1950 checksum |
| `Adler32.HexField` | lsm.py:448 | the field is at least eight characters, and for a 32-bit value it is the hex digits of the value with zeros in front up to eight |
| `Adler32.HexFieldReadsBack` | lsm.py:448 | for every 32-bit value, `hex(c)[2:10].zfill(8).lower()` is eight lower-case hex digits that denote c |
| `Adler32.Adler32OfFile` | lsm.py:425-448 | the block loop with the 2^32 correction returns the hex field of the RFC 1950 checksum of the whole file |
| `Adler32.AdlerStep` | lsm.py:438-440 | one block keeps the running value equal to the checksum of what has been read |
| `Adler32.Unsigned32` | lsm.py:445 | for every value zlib can return, the corrected value is the unsigned 32-bit value congruent to it modulo 2^32 |
| `Adler32.Unsigned32Mod` | lsm.py:445 | adding 2^32 to a negative value is reduction mod 2^32 for everything zlib returns |

## Left out

- Process creation, signals, pipes, the file system, syslog and the clock are not executed. They are the calls recorded by `Executor.Kernel`, answered from `Executor.Env`. The file's contents are a parameter of `Adler32.Adler32OfFile`. The timestamp and the session id are parameters of `Messages.LogRecord` and `Messages.SyslogRecord`. The syslog ident, the program name computed at lsm.py:205 and passed to `openlog`, is not part of the record and is not modelled.
- `print` and `sys.exit` are returned values (`Messages.Termination`) rather than effects.
- The best-effort `try/except: pass` around the log file and syslog is not modelled: the record is what would be written.
- `Executor.RunCMD` requires that it returns at all. A command that never exits, with no timeout, makes `RunCMD` wait forever; that case is excluded, not modelled.
- `Executor.RunCMD` does not model a failing `Popen` of the `ps` command inside `ChildRunCMD`, nor `ps`'s stderr.
- `Executor.RunCMD`: does not model the `OverflowError` that `signal.alarm` (lsm.py:331) raises for a timeout of 2^31 or more. It would come after `Popen` has spawned the command, leave it running with no alarm set, and propagate out of `RunCMD`. The model instead records `Alarm(timeout)` for every positive timeout (`Executor.AlarmOnlyWithTimeout`). No timeout the mover passes comes near this limit.
- `Messages.ObservedStatus`: assumes `sys.exit` receives a Python `int`. For a `long`, Python 2 prints the value and exits with 1, and that is not modelled. No code the mover passes is a `long`.
- Float timeouts and the race between the alarm and the child's exit in the same second are not modelled. The rule is that the child wins exactly when `seconds < timeout`.
- Zombie processes and pid reuse are not modelled. A killed or reaped pid simply leaves the set of live processes.
- `Adler32.HexFieldReadsBack` does not model the `L` suffix that `hex()` adds to a long on 32-bit Python 2 builds. On 64-bit builds every 32-bit value is a plain int.
- `Adler32.ZlibAdler32`: models zlib's update only for seeds whose two halves are already below 65521. Every seed `adler32` passes is one of those. For other seeds zlib's one-byte path reduces only by a single subtraction, and that is not modelled.
- `sendToES`, `esPayload`, `esIndexBase`, `Timer`, `unitize`, `Capturing`, `md5sum` and the `lsmsite` constants are not part of this model. They are reporting, timing, formatting and site configuration outside the outcome-code core.
