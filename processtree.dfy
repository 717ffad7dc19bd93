/**
 * The pid-list side of `ChildRunCMD`: the `ps` command it runs and the parse
 * of that command's output into integers.
 */
module ProcessTree {
  import opened Wrappers
  import opened PyText

  /** `'ps --no-headers -o pid --ppid %d' % pid`: lists the direct children of `pid` only. */
  function PsCommand(pid: int): string
  {
    "ps --no-headers -o pid --ppid " + IntToString(pid)
  }

  /** The command is the fixed `ps` invocation followed by the pid in decimal, which reads back as the pid. */
  lemma PsCommandReadsBack(pid: int)
    ensures var c := PsCommand(pid);
      |c| > 30 && c[..30] == "ps --no-headers -o pid --ppid " && ParseInt(c[30..]) == Some(pid)
  {
    ParseIntOfString(pid);
    assert PsCommand(pid)[30..] == IntToString(pid);
  }

  /** Every token is a decimal integer `int()` accepts. */
  predicate AllInts(tokens: seq<string>)
  {
    forall i :: 0 <= i < |tokens| ==> ParseInt(tokens[i]).Some?
  }

  /**
   * `[int(p) for p in tokens]`: `None` when some token is not a decimal
   * integer, where Python raises `ValueError`.
   */
  function ParseAll(tokens: seq<string>): (r: Option<seq<int>>)
    ensures r.Some? <==> AllInts(tokens)
    ensures r.Some? ==> |r.value| == |tokens|
    ensures r.Some? ==> forall i :: 0 <= i < |tokens| ==> ParseInt(tokens[i]) == Some(r.value[i])
  {
    if tokens == [] then Some([])
    else
      match (ParseInt(tokens[0]), ParseAll(tokens[1..]))
      case (Some(v), Some(vs)) => Some([v] + vs)
      case _ => None
  }

  /**
   * The parse in `ChildRunCMD`: the whitespace-separated tokens of the `ps`
   * output, each converted with `int()`, in order.
   */
  function ParsePids(out: string): (r: Option<seq<int>>)
    ensures var tokens := Split(out);
      && (r.Some? <==> AllInts(tokens))
      && (r.Some? ==> |r.value| == |tokens|)
      && (r.Some? ==> forall i :: 0 <= i < |tokens| ==> ParseInt(tokens[i]) == Some(r.value[i]))
  {
    ParseAll(Split(out))
  }

  /** Output without any token, the empty output among them, is the empty pid list. */
  lemma ParsePidsOfBlank(out: string)
    requires forall i :: 0 <= i < |out| ==> IsSpace(out[i])
    ensures ParsePids(out) == Some([])
  {
  }

  function Spaces(n: nat): string
  {
    Repeat(' ', n)
  }

  /**
   * One line of `ps --no-headers -o pid`: the pid right-aligned, here in five
   * columns. The column width depends on the `ps` build; the parse does not,
   * since `split()` skips any amount of leading space (`SplitAfterSpaces`).
   */
  function PsLine(pid: nat): string
  {
    var d := IntToString(pid);
    (if |d| < 5 then Spaces(5 - |d|) else "") + d + "\n"
  }

  /** What `ps --no-headers -o pid` prints for the processes `pids`, one line each. */
  function PsOutput(pids: seq<nat>): string
  {
    if pids == [] then "" else PsLine(pids[0]) + PsOutput(pids[1..])
  }

  lemma {:induction false} SplitAfterSpaces(n: nat, s: string)
    ensures Split(Spaces(n) + s) == Split(s)
  {
    var t := Spaces(n) + s;
    if n == 0 {
      assert t == s;
    } else {
      assert t[0] == ' ' && t[1..] == Spaces(n - 1) + s;
      SplitAfterSpaces(n - 1, s);
    }
  }

  lemma SplitPsLine(pid: nat, rest: string)
    ensures Split(PsLine(pid) + rest) == [IntToString(pid)] + Split(rest)
  {
    var d := IntToString(pid);
    var pad := if |d| < 5 then 5 - |d| else 0;
    var t := d + ("\n" + rest);
    assert PsLine(pid) + rest == Spaces(pad) + t by {
      assert Spaces(pad) == (if |d| < 5 then Spaces(5 - |d|) else "");
    }
    SplitAfterSpaces(pad, t);
    assert Split(t) == [d] + Split(rest) by {
      DecimalIsWord(pid);
      SplitWord(d, "\n" + rest);
      assert Split("\n" + rest) == Split(rest) by {
        assert ("\n" + rest)[1..] == rest;
      }
    }
  }


  /** A decimal numeral is one token of `split()`. */
  lemma DecimalIsWord(pid: nat)
    ensures IsWord(IntToString(pid))
  {
    var d := IntToString(pid);
    assert forall i :: 0 <= i < |d| ==> IsDigitIn(d[i], 10);
  }


  /** Reading back what `ps` prints for a list of processes gives exactly that list, in order. */
  lemma {:induction false} ParsePsOutput(pids: seq<nat>)
    ensures ParsePids(PsOutput(pids)) == Some(pids)
  {
    if pids != [] {
      SplitPsLine(pids[0], PsOutput(pids[1..]));
      ParseIntOfString(pids[0]);
      ParsePsOutput(pids[1..]);
      var toks := [IntToString(pids[0])] + Split(PsOutput(pids[1..]));
      assert toks[0] == IntToString(pids[0]) && toks[1..] == Split(PsOutput(pids[1..]));
      assert ParseAll(toks) == Some([pids[0] as int] + pids[1..]);
      assert [pids[0]] + pids[1..] == pids;
    }
  }
}
