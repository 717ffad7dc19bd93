/**
 * The log and console lines of `fail`, `error`, `warn` and `info`, the record
 * that `log` appends to the log file, and what `fail` leaves behind when it
 * ends the process.
 */
module Messages {
  import opened Wrappers
  import opened PyText

  datatype Level = Info | Warn | Error

  /**
   * The text in front of the code. `WARN` and `INFO` are followed by two
   * spaces, so the code starts in column 6 for every level.
   */
  function Prefix(level: Level): (p: string)
    ensures |p| == 6 && p[5] == ' '
  {
    match level
    case Info => "INFO  "
    case Warn => "WARN  "
    case Error => "ERROR "
  }

  /** The level a six-character prefix names, if any. */
  function LevelOf(p: string): (l: Option<Level>)
    ensures l.Some? ==> Prefix(l.value) == p
  {
    if p == "INFO  " then Some(Info)
    else if p == "WARN  " then Some(Warn)
    else if p == "ERROR " then Some(Error)
    else None
  }

  /** Python's truth value of the optional message: `None` and `""` are false. */
  function Truthy(msg: Option<string>): (b: bool)
    ensures b <==> msg.Some? && |msg.value| > 0
    ensures !b <==> msg == None || msg == Some("")
  {
    msg.Some? && msg.value != ""
  }

  /** The message a line keeps: a falsy message leaves no trace in it. */
  function Kept(msg: Option<string>): Option<string>
  {
    if Truthy(msg) then msg else None
  }

  /**
   * `str(code).zfill(3)`: at least three characters, longer codes are never
   * cut, and the padded text still denotes the code.
   */
  function Pad3(code: int): (s: string)
    ensures |s| == if |IntToString(code)| >= 3 then |IntToString(code)| else 3
    ensures ParseInt(s) == Some(code)
    ensures forall i :: 0 <= i < |s| ==> s[i] != ' '
  {
    ParseIntOfZfill(code, 3);
    var t := IntToString(code);
    var s := Zfill(t, 3);
    assert forall i :: 0 <= i < |t| ==> t[i] != ' ' by {
      var d := if code < 0 then Digits(-code, 10) else Digits(code, 10);
      assert forall i :: 0 <= i < |d| ==> IsDigitIn(d[i], 10);
    }
    s
  }

  /**
   * The padding of `Pad3` is zeros in front of the digits, after the sign
   * of a negative code.
   */
  lemma Pad3ZeroFill(code: int)
    ensures var s, t := Pad3(code), IntToString(code);
      && (code >= 0 ==> s == Zeros(|s| - |t|) + t)
      && (code < 0 ==> s == "-" + Zeros(|s| - |t|) + Digits(-code, 10))
  {
    var t := IntToString(code);
    if code >= 0 {
      ZfillDigits(t, 3, 10);
    } else {
      ZfillNegative(Digits(-code, 10), 3);
    }
  }

  /**
   * The line that `fail`, `error`, `warn` and `info` build:
   * `<LEVEL> <code>[ <msg>]`, the message only when it is truthy.
   */
  function Line(level: Level, code: int, msg: Option<string>): (line: string)
    ensures |line| >= 6 + |Pad3(code)|
    ensures line[..6] == Prefix(level) && line[6..6 + |Pad3(code)|] == Pad3(code)
    ensures line[6 + |Pad3(code)|..] == if Truthy(msg) then " " + msg.value else ""
  {
    Prefix(level) + Pad3(code) + (if Truthy(msg) then " " + msg.value else "")
  }

  /** A line with a nonempty message, written out. */
  lemma LineText(level: Level, code: int, m: string)
    requires m != ""
    ensures Line(level, code, Some(m)) == Prefix(level) + Pad3(code) + " " + m
  {
  }

  /** A log line read back into its level, code and message. */
  datatype Record = Record(level: Level, code: int, msg: Option<string>)

  /** Index of the first space in `s`, or `|s|` when there is none. */
  function SpaceAt(s: string): (k: nat)
    ensures k <= |s| && (k < |s| ==> s[k] == ' ')
    ensures forall i :: 0 <= i < k ==> s[i] != ' '
  {
    if s == [] || s[0] == ' ' then 0 else 1 + SpaceAt(s[1..])
  }

  /** Reads a line of the form `Line` produces; the inverse of `Line`. */
  function ParseLine(line: string): Option<Record>
  {
    if |line| < 6 then None
    else
      match LevelOf(line[..6])
      case None => None
      case Some(level) => ParseAfterPrefix(level, line[6..])
  }

  /** Reads `<code>[ <msg>]`: the code runs up to the first space. */
  function ParseAfterPrefix(level: Level, rest: string): Option<Record>
  {
    var k := SpaceAt(rest);
    match ParseInt(rest[..k])
    case None => None
    case Some(code) => Some(Record(level, code, if k == |rest| then None else Some(rest[k + 1..])))
  }

  lemma {:induction false} SpaceAtAfter(w: string, tail: string)
    requires forall i :: 0 <= i < |w| ==> w[i] != ' '
    requires tail == [] || tail[0] == ' '
    ensures SpaceAt(w + tail) == |w|
    decreases |w|
  {
    if w != [] {
      SpaceAtAfter(w[1..], tail);
      assert (w + tail)[1..] == w[1..] + tail;
    }
  }

  lemma LevelOfPrefix(level: Level)
    ensures LevelOf(Prefix(level)) == Some(level)
  {
  }

  /** Every line reads back as its level, its code and the message it kept. */
  lemma LineRoundTrip(level: Level, code: int, msg: Option<string>)
    ensures ParseLine(Line(level, code, msg)) == Some(Record(level, code, Kept(msg)))
  {
    var p := Pad3(code);
    var tail := if Truthy(msg) then " " + msg.value else "";
    var line := Line(level, code, msg);
    assert |line| >= 6 && line[..6] == Prefix(level) && line[6..] == p + tail by {
      assert line[6..] == line[6..6 + |p|] + line[6 + |p|..];
    }
    LevelOfPrefix(level);
    AfterPrefixRoundTrip(level, code, msg);
  }

  lemma AfterPrefixRoundTrip(level: Level, code: int, msg: Option<string>)
    ensures ParseAfterPrefix(level, Pad3(code) + (if Truthy(msg) then " " + msg.value else ""))
         == Some(Record(level, code, Kept(msg)))
  {
    var p := Pad3(code);
    if Truthy(msg) {
      var tail := " " + msg.value;
      ReadCodeAndTail(level, p, tail);
      assert tail[1..] == msg.value;
    } else {
      ReadCodeAndTail(level, p, "");
      assert p + "" == p;
    }
  }

  /** A code without spaces followed by nothing or by a space-led tail reads back as both. */
  lemma ReadCodeAndTail(level: Level, p: string, tail: string)
    requires forall i :: 0 <= i < |p| ==> p[i] != ' '
    requires tail == [] || tail[0] == ' '
    ensures ParseAfterPrefix(level, p + tail)
         == match ParseInt(p)
            case None => None
            case Some(code) => Some(Record(level, code, if tail == [] then None else Some(tail[1..])))
  {
    var rest := p + tail;
    SpaceAtAfter(p, tail);
    assert rest[..|p|] == p;
    assert tail != [] ==> rest[|p| + 1..] == tail[1..];
  }

  /** `error(errorcode=999, msg=None)`: the line it logs. */
  function ErrorLine(errorcode: int := 999, msg: Option<string> := None): (line: string)
    ensures |line| >= 6 + |Pad3(errorcode)|
    ensures line[..6] == "ERROR " && line[6..6 + |Pad3(errorcode)|] == Pad3(errorcode)
    ensures line[6 + |Pad3(errorcode)|..] == if Truthy(msg) then " " + msg.value else ""
    ensures ParseLine(line) == Some(Record(Error, errorcode, Kept(msg)))
  {
    LineRoundTrip(Error, errorcode, msg);
    Line(Error, errorcode, msg)
  }

  /** `warn(errorcode=100, msg=None)`: the line it logs. */
  function WarnLine(errorcode: int := 100, msg: Option<string> := None): (line: string)
    ensures |line| >= 6 + |Pad3(errorcode)|
    ensures line[..6] == "WARN  " && line[6..6 + |Pad3(errorcode)|] == Pad3(errorcode)
    ensures line[6 + |Pad3(errorcode)|..] == if Truthy(msg) then " " + msg.value else ""
    ensures ParseLine(line) == Some(Record(Warn, errorcode, Kept(msg)))
  {
    LineRoundTrip(Warn, errorcode, msg);
    Line(Warn, errorcode, msg)
  }

  /** `info(errorcode=0, msg=None)`: the line it logs. */
  function InfoLine(errorcode: int := 0, msg: Option<string> := None): (line: string)
    ensures |line| >= 6 + |Pad3(errorcode)|
    ensures line[..6] == "INFO  " && line[6..6 + |Pad3(errorcode)|] == Pad3(errorcode)
    ensures line[6 + |Pad3(errorcode)|..] == if Truthy(msg) then " " + msg.value else ""
    ensures ParseLine(line) == Some(Record(Info, errorcode, Kept(msg)))
  {
    LineRoundTrip(Info, errorcode, msg);
    Line(Info, errorcode, msg)
  }

  /** `info()` with its defaults logs exactly `INFO  000`: the code 0 is padded to three zeros and nothing follows. */
  lemma InfoDefaultText()
    ensures InfoLine() == "INFO  000"
  {
    var line := InfoLine();
    Pad3ZeroFill(0);
    assert Digits(0, 10) == "0";
    assert Pad3(0) == "000" by {
      assert Zeros(2) == "00";
    }
    assert line == line[..6] + line[6..9] + line[9..];
  }

  /**
   * How a reporting call ends: the lines printed to standard output, the
   * lines logged, and the status given to `sys.exit`.
   */
  datatype Termination = Termination(stdout: seq<string>, log: seq<string>, status: int)

  /**
   * `fail(errorcode=999, msg=None)`: prints and logs one ERROR line and exits
   * with the internal code itself, untranslated.
   */
  function Fail(errorcode: int := 999, msg: Option<string> := None): (t: Termination)
    ensures t.stdout == t.log && |t.log| == 1
    ensures |t.log[0]| >= 6 + |Pad3(errorcode)|
    ensures t.log[0][..6] == "ERROR " && t.log[0][6..6 + |Pad3(errorcode)|] == Pad3(errorcode)
    ensures t.log[0][6 + |Pad3(errorcode)|..] == if Truthy(msg) then " " + msg.value else ""
    ensures ParseLine(t.log[0]) == Some(Record(Error, errorcode, Kept(msg)))
    ensures t.status == errorcode
  {
    var line := ErrorLine(errorcode, msg);
    Termination([line], [line], errorcode)
  }

  /** The status a POSIX parent sees for `sys.exit(n)`: the low eight bits. */
  function ObservedStatus(n: int): (s: int)
    ensures 0 <= s < 256
    ensures 0 <= n < 256 ==> s == n
  {
    n % 256
  }

  /** `fail()` with its default code 999 is seen by the caller as status 231. */
  lemma FailDefaultObservedStatus()
    ensures ObservedStatus(Fail().status) == 231
  {
    assert Fail().status == 999;
  }

  predicate NoNewline(s: string)
  {
    forall i :: 0 <= i < |s| ==> s[i] != '\n'
  }

  /**
   * The record `log` appends to the log file: timestamp, session id and the
   * line, separated by spaces and ended by a newline.
   */
  function LogRecord(stamp: string, sessid: string, msg: string): (r: string)
    ensures |r| > 0 && r[|r| - 1] == '\n'
    ensures NoNewline(stamp) && NoNewline(sessid) && NoNewline(msg) ==> NoNewline(r[..|r| - 1])
    ensures |r| == |stamp| + |sessid| + |msg| + 3
    ensures r[..|stamp|] == stamp && r[|r| - 1 - |msg|..|r| - 1] == msg
    ensures r[|stamp|..|stamp| + |sessid| + 2] == " " + sessid + " "
  {
    stamp + " " + sessid + " " + msg + "\n"
  }

  /** The mirror that `log` sends to syslog: session id and the line. */
  function SyslogRecord(sessid: string, msg: string): (r: string)
    ensures |r| > 0 && r[|r| - 1] == '\n'
    ensures NoNewline(sessid) && NoNewline(msg) ==> NoNewline(r[..|r| - 1])
    ensures |r| == |sessid| + |msg| + 2
    ensures r[..|sessid|] == sessid && r[|r| - 1 - |msg|..|r| - 1] == msg
    ensures r[|sessid|] == ' '
  {
    sessid + " " + msg + "\n"
  }
}
