/**
 * The translation of internal LSM outcome codes into the exit codes the
 * Pilot understands (`mapLSMtoPilot`), and `exitToPilot`, which looks a code
 * up, logs, prints the optional message and exits with the translated code.
 */
module Catalog {
  import opened Wrappers
  import opened PyText
  import opened Messages

  /** The code `exitToPilot` logs an unmapped internal code under. */
  const Unmapped := 999

  /** The exit code for an internal code missing from the table. */
  const Fallback := 255

  /**
   * The table as a dictionary display: each internal code with the exit code
   * the Pilot receives for it.
   */
  function PilotMap(): (m: map<int, int>)
    ensures forall c :: c in m ==> IsInternalCode(c) && IsExitCode(m[c])
    ensures Unmapped in m && m[Unmapped] == Fallback
  {
    map[0 := 0, 1 := 0, 2 := 0,
        50 := 201, 51 := 201, 52 := 206, 53 := 209, 54 := 205, 55 := 210,
        60 := 200,
        64 := 211, 65 := 211, 66 := 212,
        200 := 200, 201 := 202, 202 := 202, 203 := 203, 204 := 211, 205 := 211, 206 := 212,
        207 := 206, 208 := 205, 209 := 205, 210 := 202, 211 := 202, 212 := 202, 213 := 202,
        214 := 202, 215 := 200, 216 := 209, 217 := 210, 218 := 213, 219 := 202,
        254 := 200, 255 := 201,
        999 := 255]
  }

  /**
   * Module initialisation of `mapLSMtoPilot`: an empty dictionary filled by
   * one assignment per internal code, in the order of the source.
   */
  method BuildPilotMap() returns (m: map<int, int>)
    ensures m == PilotMap()
  {
    m := map[];
    m := m[0 := 0];
    m := m[1 := 0];
    m := m[2 := 0];

    m := m[50 := 201];
    m := m[51 := 201];
    m := m[52 := 206];
    m := m[53 := 209];
    m := m[54 := 205];
    m := m[55 := 210];

    m := m[60 := 200];

    m := m[64 := 211];
    m := m[65 := 211];
    m := m[66 := 212];

    m := m[200 := 200];
    m := m[201 := 202];
    m := m[202 := 202];
    m := m[203 := 203];
    m := m[204 := 211];
    m := m[205 := 211];
    m := m[206 := 212];
    m := m[207 := 206];
    m := m[208 := 205];
    m := m[209 := 205];
    m := m[210 := 202];
    m := m[211 := 202];
    m := m[212 := 202];
    m := m[213 := 202];
    m := m[214 := 202];
    m := m[215 := 200];
    m := m[216 := 209];
    m := m[217 := 210];
    m := m[218 := 213];
    m := m[219 := 202];

    m := m[254 := 200];
    m := m[255 := 201];

    m := m[999 := 255];
  }

  /**
   * The internal codes reported with exit code `p`, grouped by the documented
   * meaning of `p`; no internal code is in the group of any other `p`.
   */
  predicate InGroup(c: int, p: int)
  {
    if p == 0 then 0 <= c <= 2                                            // transfer was successful
    else if p == 200 then c == 60 || c == 200 || c == 215 || c == 254     // generic failure
    else if p == 201 then c == 50 || c == 51 || c == 255                  // copy command failed
    else if p == 202 then c == 201 || c == 202 || 210 <= c <= 214 || c == 219  // unsupported command
    else if p == 203 then c == 203                                        // unsupported option
    else if p == 205 then c == 54 || c == 208 || c == 209                 // checksum comparison failed
    else if p == 206 then c == 52 || c == 207                             // destination not writable
    else if p == 209 then c == 53 || c == 216                             // size differs from the source
    else if p == 210 then c == 55 || c == 217                             // checksum differs from the source
    else if p == 211 then c == 64 || c == 65 || c == 204 || c == 205      // exists and is different
    else if p == 212 then c == 66 || c == 206                             // exists and is the same
    else if p == 213 then c == 218                                        // destination full
    else if p == 255 then c == 999                                        // the unmapped-code sentinel
    else false
  }

  /** The internal codes the table maps: 0-2, the warnings 50-55, 60, 64-66, the errors 200-219, 254, 255 and 999. */
  predicate IsInternalCode(c: int)
  {
    0 <= c <= 2 || 50 <= c <= 55 || c == 60 || 64 <= c <= 66 || 200 <= c <= 219 || c == 254 || c == 255 || c == 999
  }

  /** The exit codes the table produces. */
  predicate IsExitCode(p: int)
  {
    p == 0 || 200 <= p <= 203 || 205 <= p <= 206 || 209 <= p <= 213 || p == 255
  }

  /** The table agrees, entry by entry, with the documented grouping by exit code. */
  lemma PilotMapByGroup(c: int, p: int)
    ensures (c in PilotMap() && PilotMap()[c] == p) <==> InGroup(c, p)
  {
  }

  /** The table maps exactly the documented internal codes, each to an exit code of the table. */
  lemma PilotMapDomain(c: int)
    ensures c in PilotMap() <==> IsInternalCode(c)
    ensures c in PilotMap() ==> IsExitCode(PilotMap()[c])
  {
  }

  /**
   * The lookup in `exitToPilot`: the tabled exit code, or 255 when the code
   * is not in the table.
   */
  function Translate(code: int): (p: int)
    ensures IsExitCode(p)
    ensures code in PilotMap() ==> p == PilotMap()[code]
    ensures p == 0 <==> InGroup(code, 0)
    ensures p == Fallback <==> (code == Unmapped || !IsInternalCode(code))
  {
    if code in PilotMap() then PilotMap()[code] else Fallback
  }

  /**
   * Every exit code lies in the Pilot's contract (0 or 200-213) or is the
   * fallback 255; 220, the transient failure, and 204, 207, 208 are never produced.
   */
  lemma TranslateRange(code: int)
    ensures var p := Translate(code); p == 0 || 200 <= p <= 213 || p == Fallback
    ensures var p := Translate(code); p != 220 && p != 204 && p != 207 && p != 208
  {
  }

  /** Each exit code of the table is produced by some internal code. */
  lemma TranslateOnto(p: int)
    requires IsExitCode(p)
    ensures exists c :: Translate(c) == p
  {
    if p <= 205 {
      OntoLow(p);
    } else {
      OntoHigh(p);
    }
  }

  lemma OntoLow(p: int)
    requires IsExitCode(p) && p <= 205
    ensures exists c :: Translate(c) == p
  {
    if p == 0 { assert Translate(0) == p; }
    else if p == 200 { assert Translate(200) == p; }
    else if p == 201 { assert Translate(50) == p; }
    else if p == 202 { assert Translate(202) == p; }
    else if p == 203 { assert Translate(203) == p; }
    else { assert Translate(54) == p; }
  }

  lemma OntoHigh(p: int)
    requires IsExitCode(p) && p > 205
    ensures exists c :: Translate(c) == p
  {
    if p == 206 { assert Translate(52) == p; }
    else if p == 209 { assert Translate(53) == p; }
    else if p == 210 { assert Translate(55) == p; }
    else if p == 211 { assert Translate(64) == p; }
    else if p == 212 { assert Translate(66) == p; }
    else if p == 213 { assert Translate(218) == p; }
    else { assert Translate(999) == p; }
  }



  /** Every documented error (200-219, 254, 255) is reported as a failure, never as success. */
  lemma ErrorsAreFailures(code: int)
    requires 200 <= code <= 219 || code == 254 || code == 255
    ensures code in PilotMap() && 200 <= Translate(code) <= 213
  {
  }

  /** The warnings 56-59 and 61-63 are not in the table, so they exit with 255. */
  lemma UntabledWarnings(code: int)
    requires 56 <= code <= 63 && code != 60
    ensures code !in PilotMap() && Translate(code) == Fallback
  {
  }

  /** The anomaly line logged for an unmapped code. */
  function UnmappedLine(code: int): (line: string)
    ensures line == "ERROR 999 Unmapped error code : " + IntToString(code)
    ensures ParseLine(line) == Some(Record(Error, Unmapped, Some("Unmapped error code : " + IntToString(code))))
  {
    var msg := "Unmapped error code : " + IntToString(code);
    var line := ErrorLine(Unmapped, Some(msg));
    assert line == "ERROR " + "999" + " " + msg by {
      Pad3OfUnmapped();
      LineText(Error, Unmapped, msg);
    }
    UnmappedText(IntToString(code));
    line
  }

  /** The line logged just before exiting: the code 20 is written `020`. */
  function ExitLine(p: int): (line: string)
    ensures line == "INFO  020 Exit to Pilot with code " + IntToString(p)
    ensures ParseLine(line) == Some(Record(Info, 20, Some("Exit to Pilot with code " + IntToString(p))))
  {
    var msg := "Exit to Pilot with code " + IntToString(p);
    var line := InfoLine(20, Some(msg));
    assert line == "INFO  " + "020" + " " + msg by {
      Pad3OfExit();
      LineText(Info, 20, msg);
    }
    ExitText(IntToString(p));
    line
  }

  lemma UnmappedText(x: string)
    ensures "ERROR " + "999" + " " + ("Unmapped error code : " + x) == "ERROR 999 Unmapped error code : " + x
  {
    var a := "ERROR " + "999" + " " + "Unmapped error code : ";
    assert forall i :: 0 <= i < 32 ==> a[i] == "ERROR 999 Unmapped error code : "[i];
    assert a == "ERROR 999 Unmapped error code : ";
  }

  lemma ExitText(x: string)
    ensures "INFO  " + "020" + " " + ("Exit to Pilot with code " + x) == "INFO  020 Exit to Pilot with code " + x
  {
    var a := "INFO  " + "020" + " " + "Exit to Pilot with code ";
    assert forall i :: 0 <= i < 34 ==> a[i] == "INFO  020 Exit to Pilot with code "[i];
    assert a == "INFO  020 Exit to Pilot with code ";
  }

  lemma Pad3OfUnmapped()
    ensures Pad3(Unmapped) == "999"
  {
    Pad3ZeroFill(Unmapped);
    assert Digits(9, 10) == "9";
    assert Digits(99, 10) == "99";
    assert Digits(999, 10) == "999";
    assert Zeros(0) == "";
  }

  lemma Pad3OfExit()
    ensures Pad3(20) == "020"
  {
    Pad3ZeroFill(20);
    assert Digits(2, 10) == "2";
    assert Digits(20, 10) == "20";
    assert Zeros(1) == "0";
  }

  /** The number of lines of `log` that read as a line of `level` with `code`. */
  function CountLines(log: seq<string>, level: Level, code: int): nat
  {
    if log == [] then 0
    else
      CountLines(log[..|log| - 1], level, code) + Matches(log[|log| - 1], level, code)
  }

  /**
   * `exitToPilot(errorCode=999, errorMessage=None)`: translate the code; for
   * an unmapped code log the `ERROR 999` anomaly; print the message unless it
   * is `None` (an empty message is printed too); log `INFO 020`; exit with the
   * translated code.
   */
  function ExitToPilot(errorCode: int := 999, errorMessage: Option<string> := None): (t: Termination)
    ensures t.status == Translate(errorCode)
    ensures t.stdout == if errorMessage.Some? then [errorMessage.value] else []
    ensures |t.log| == if IsInternalCode(errorCode) then 1 else 2
    ensures t.log[|t.log| - 1] == ExitLine(t.status)
    ensures CountLines(t.log, Error, Unmapped) == if IsInternalCode(errorCode) then 0 else 1
    ensures !IsInternalCode(errorCode) ==> t.log[0] == UnmappedLine(errorCode)
  {
    PilotMapDomain(errorCode);
    var p := Translate(errorCode);
    var log := ExitLog(errorCode, p);
    Termination(if errorMessage.Some? then [errorMessage.value] else [], log, p)
  }

  /** The lines `exitToPilot` logs: the anomaly for an unmapped code, then the exit line. */
  function ExitLog(code: int, p: int): (log: seq<string>)
    ensures |log| == if IsInternalCode(code) then 1 else 2
    ensures log[|log| - 1] == ExitLine(p)
    ensures CountLines(log, Error, Unmapped) == if IsInternalCode(code) then 0 else 1
    ensures !IsInternalCode(code) ==> log[0] == UnmappedLine(code)
  {
    if IsInternalCode(code) then
      CountPair(ExitLine(p), ExitLine(p), Error, Unmapped);
      [ExitLine(p)]
    else
      CountPair(UnmappedLine(code), ExitLine(p), Error, Unmapped);
      [UnmappedLine(code), ExitLine(p)]
  }

  /** 1 when `line` reads as a line of `level` with `code`, else 0. */
  function Matches(line: string, level: Level, code: int): nat
  {
    var r := ParseLine(line);
    if r.Some? && r.value.level == level && r.value.code == code then 1 else 0
  }

  /** Counting over one line and over two. */
  lemma CountPair(a: string, b: string, level: Level, code: int)
    ensures CountLines([a], level, code) == Matches(a, level, code)
    ensures CountLines([a, b], level, code) == Matches(a, level, code) + Matches(b, level, code)
  {
    assert [a, b][..1] == [a];
    assert [a][..0] == [];
  }

  /** The default call `exitToPilot()` exits with 255 through the table entry for 999, logging no anomaly. */
  lemma ExitToPilotDefault()
    ensures ExitToPilot().status == Fallback && |ExitToPilot().log| == 1
  {
  }

  /** Every status `exitToPilot` gives `sys.exit` reaches the Pilot unchanged. */
  lemma ExitToPilotObserved(code: int, msg: Option<string>)
    ensures ObservedStatus(ExitToPilot(code, msg).status) == ExitToPilot(code, msg).status
  {
  }
}
