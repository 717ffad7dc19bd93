/**
 * The Python 2 string and integer conversions that the LSM helpers rely on:
 * `str(int)`, `int(str)`, `str.zfill`, `str.split()`, `str.lower`, `hex`,
 * and slicing. Each is written out explicitly, with the lemma that says what
 * it means (mostly an inverse).
 */
module PyText {
  import opened Wrappers

  // ---------------------------------------------------------------------------
  // Digits in bases 2 to 16

  /** The character of digit value `d`, lower case as Python prints it. */
  function DigitChar(d: nat): char
    requires d < 16
  {
    if d < 10 then ('0' as int + d) as char else ('a' as int + d - 10) as char
  }

  /** The value of a digit character `0`-`9` or `a`-`f`, and -1 for any other. */
  function DigitValue(c: char): int
  {
    if '0' <= c <= '9' then c as int - '0' as int
    else if 'a' <= c <= 'f' then c as int - 'a' as int + 10
    else -1
  }

  predicate IsDigitIn(c: char, base: nat)
  {
    0 <= DigitValue(c) < base
  }

  predicate AllDigitsIn(s: string, base: nat)
  {
    forall i :: 0 <= i < |s| ==> IsDigitIn(s[i], base)
  }

  /** Euclidean division facts for a base, stated once for the proofs below. */
  lemma DivModBase(n: nat, base: nat)
    requires 2 <= base && n >= base
    ensures 0 < n / base < n && n % base < base
    ensures n == (n / base) * base + n % base
  {
  }

  /** The digits of `n` in `base`, most significant first, without leading zeros. */
  function Digits(n: nat, base: nat): (s: string)
    requires 2 <= base <= 16
    ensures 1 <= |s| && AllDigitsIn(s, base)
    ensures n > 0 ==> s[0] != '0'
    decreases n
  {
    if n < base then [DigitChar(n)]
    else
      DivModBase(n, base);
      Digits(n / base, base) + [DigitChar(n % base)]
  }

  /** The number a string of digits denotes (leading zeros allowed). */
  function ValueIn(s: string, base: nat): nat
    requires AllDigitsIn(s, base)
  {
    if s == [] then 0 else ValueIn(s[..|s| - 1], base) * base + DigitValue(s[|s| - 1])
  }

  /** Reading back the digits of `n` gives `n`. */
  lemma {:induction false} DigitsValue(n: nat, base: nat)
    requires 2 <= base <= 16
    ensures ValueIn(Digits(n, base), base) == n
    decreases n
  {
    if n >= base {
      DivModBase(n, base);
      var d := Digits(n / base, base);
      DigitsValue(n / base, base);
      assert (d + [DigitChar(n % base)])[..|d|] == d;
    }
  }

  /** `c * n` in Python: `n` copies of the character `c`. */
  function Repeat(c: char, n: nat): (s: string)
    ensures |s| == n && forall i :: 0 <= i < n ==> s[i] == c
  {
    seq(n, _ => c)
  }

  /** The padding `zfill` inserts. */
  function Zeros(n: nat): string
  {
    Repeat('0', n)
  }

  lemma {:induction false} ZerosValue(n: nat, base: nat)
    requires 2 <= base <= 16
    ensures AllDigitsIn(Zeros(n), base) && ValueIn(Zeros(n), base) == 0
  {
    if n > 0 {
      ZerosValue(n - 1, base);
      assert Zeros(n)[..n - 1] == Zeros(n - 1);
    }
  }

  /** Leading zeros do not change the value of a digit string. */
  lemma {:induction false} LeadingZerosValue(k: nat, s: string, base: nat)
    requires 2 <= base <= 16 && AllDigitsIn(s, base)
    ensures AllDigitsIn(Zeros(k) + s, base)
    ensures ValueIn(Zeros(k) + s, base) == ValueIn(s, base)
    decreases |s|
  {
    ZerosValue(k, base);
    var zs := Zeros(k) + s;
    if s == [] {
      assert zs == Zeros(k);
    } else {
      var init := s[..|s| - 1];
      LeadingZerosValue(k, init, base);
      assert zs[..|zs| - 1] == Zeros(k) + init;
    }
  }

  // ---------------------------------------------------------------------------
  // str(int), int(str), str.zfill

  /** Python's `str(n)` (and `'%s' % n`, `'%d' % n`) for an integer. */
  function IntToString(n: int): string
  {
    if n < 0 then "-" + Digits(-n, 10) else Digits(n, 10)
  }

  /**
   * `str(n)` is the canonical decimal form: a minus sign exactly for a
   * negative number, digits only after it, and no leading zero except in `0`.
   */
  lemma IntToStringForm(n: int)
    ensures var s := IntToString(n);
      && |s| >= 1 && (s[0] == '-' <==> n < 0)
      && (n >= 0 ==> AllDigitsIn(s, 10))
      && (n < 0 ==> |s| >= 2 && AllDigitsIn(s[1..], 10) && s[1] != '0')
      && (s[0] == '0' ==> s == "0" && n == 0)
  {
    if n < 0 {
      assert IntToString(n)[1..] == Digits(-n, 10);
    }
  }

  /**
   * Python 2's `int(s)` for a token without surrounding whitespace: an
   * optional sign, then one or more decimal digits. `None` is the
   * `ValueError` that `int` raises on anything else.
   */
  function ParseInt(s: string): Option<int>
  {
    if |s| >= 2 && (s[0] == '-' || s[0] == '+') && AllDigitsIn(s[1..], 10) then
      var v: int := ValueIn(s[1..], 10);
      Some(if s[0] == '-' then -v else v)
    else if |s| >= 1 && AllDigitsIn(s, 10) then
      Some(ValueIn(s, 10))
    else
      None
  }

  /**
   * `int(s)` accepts exactly one or more digits with an optional sign in
   * front, and the sign decides the sign of the value.
   */
  lemma ParseIntAccepts(s: string)
    ensures ParseInt(s).Some? <==>
              || (|s| >= 1 && AllDigitsIn(s, 10))
              || (|s| >= 2 && (s[0] == '-' || s[0] == '+') && AllDigitsIn(s[1..], 10))
    ensures ParseInt(s).Some? && s[0] != '-' ==> ParseInt(s).value >= 0
    ensures ParseInt(s).Some? && s[0] == '-' ==> ParseInt(s).value <= 0
  {
  }

  /** `int(str(n)) == n`. */
  lemma ParseIntOfString(n: int)
    ensures ParseInt(IntToString(n)) == Some(n)
  {
    if n < 0 {
      DigitsValue(-n, 10);
      assert IntToString(n) == "-" + Digits(-n, 10);
      ParseNegative(Digits(-n, 10));
    } else {
      DigitsValue(n, 10);
    }
  }

  /**
   * Python's `s.zfill(width)`: pad with `0` on the left up to `width`
   * characters, inserting the padding after a leading sign; a string that is
   * already `width` long or longer is returned unchanged.
   */
  function Zfill(s: string, width: int): (r: string)
    ensures |r| == if |s| >= width then |s| else width
    ensures |s| >= width ==> r == s
  {
    if |s| >= width then s
    else if |s| > 0 && (s[0] == '+' || s[0] == '-') then [s[0]] + Zeros(width - |s|) + s[1..]
    else Zeros(width - |s|) + s
  }

  /** `zfill` on a string of digits only puts zeros in front. */
  lemma ZfillDigits(d: string, width: int, base: nat)
    requires 1 <= |d| && AllDigitsIn(d, base)
    ensures Zfill(d, width) == Zeros(if |d| >= width then 0 else width - |d|) + d
  {
    assert IsDigitIn(d[0], base);
    assert Zeros(0) + d == d;
  }

  /** `zfill` on a minus sign and digits puts the zeros after the sign. */
  lemma ZfillNegative(d: string, width: int)
    requires 1 <= |d|
    ensures var s := "-" + d;
      Zfill(s, width) == "-" + Zeros(if |s| >= width then 0 else width - |s|) + d
  {
    var s := "-" + d;
    assert s[0] == '-' && s[1..] == d;
    assert "-" + Zeros(0) + d == s;
  }

  /** Zero-padding an integer's decimal form never changes the integer it denotes. */
  lemma ParseIntOfZfill(n: int, width: int)
    ensures ParseInt(Zfill(IntToString(n), width)) == Some(n)
  {
    var s := IntToString(n);
    if |s| >= width {
      ParseIntOfString(n);
    } else if n < 0 {
      var d := Digits(-n, 10);
      assert s == "-" + d && s[0] == '-' && s[1..] == d;
      PaddedNegative(-n, width - |s|);
      assert Zfill(s, width) == "-" + Zeros(width - |s|) + d;
    } else {
      var d := Digits(n, 10);
      assert s == d && IsDigitIn(s[0], 10);
      PaddedNatural(n, width - |s|);
      assert Zfill(s, width) == Zeros(width - |s|) + d;
    }
  }

  lemma PaddedNatural(n: nat, k: nat)
    ensures ParseInt(Zeros(k) + Digits(n, 10)) == Some(n)
  {
    var d := Digits(n, 10);
    LeadingZerosValue(k, d, 10);
    DigitsValue(n, 10);
    var t := Zeros(k) + d;
    assert t[0] == '0' || t[0] == d[0];
    assert IsDigitIn(t[0], 10);
  }

  lemma PaddedNegative(m: nat, k: nat)
    ensures ParseInt("-" + Zeros(k) + Digits(m, 10)) == Some(-(m as int))
  {
    var d := Digits(m, 10);
    LeadingZerosValue(k, d, 10);
    DigitsValue(m, 10);
    assert "-" + Zeros(k) + d == "-" + (Zeros(k) + d);
    ParseNegative(Zeros(k) + d);
  }

  /** A minus sign in front of digits negates their value. */
  lemma ParseNegative(u: string)
    requires 1 <= |u| && AllDigitsIn(u, 10)
    ensures ParseInt("-" + u) == Some(-(ValueIn(u, 10) as int))
  {
    assert ("-" + u)[1..] == u;
  }

  // ---------------------------------------------------------------------------
  // str.split() with no argument

  /** The characters Python 2's `str.split()` treats as whitespace. */
  predicate IsSpace(c: char)
  {
    c == ' ' || c == '\t' || c == '\n' || c == '\r' || c as int == 11 || c as int == 12
  }

  predicate IsWord(w: string)
  {
    |w| > 0 && forall i :: 0 <= i < |w| ==> !IsSpace(w[i])
  }

  /** Length of the run of non-whitespace characters at the start of `s`. */
  function WordLen(s: string): (k: nat)
    ensures k <= |s|
    ensures forall i :: 0 <= i < k ==> !IsSpace(s[i])
    ensures k == |s| || IsSpace(s[k])
  {
    if s == [] || IsSpace(s[0]) then 0 else 1 + WordLen(s[1..])
  }

  /**
   * Python's `s.split()`: the maximal runs of non-whitespace characters, in
   * order; whitespace runs of any length separate them and none is empty.
   */
  function Split(s: string): (words: seq<string>)
    ensures forall i :: 0 <= i < |words| ==> IsWord(words[i])
    ensures words == [] <==> forall i :: 0 <= i < |s| ==> IsSpace(s[i])
    decreases |s|
  {
    if s == [] then []
    else if IsSpace(s[0]) then Split(s[1..])
    else
      var k := WordLen(s);
      [s[..k]] + Split(s[k..])
  }

  /** A word followed by whitespace (or nothing) splits off as one token. */
  lemma {:induction false} SplitWord(w: string, rest: string)
    requires IsWord(w)
    requires rest == [] || IsSpace(rest[0])
    ensures Split(w + rest) == [w] + Split(rest)
  {
    WordLenOfWord(w, rest);
    assert (w + rest)[..|w|] == w;
    assert (w + rest)[|w|..] == rest;
  }

  lemma {:induction false} WordLenOfWord(w: string, rest: string)
    requires forall i :: 0 <= i < |w| ==> !IsSpace(w[i])
    requires rest == [] || IsSpace(rest[0])
    ensures WordLen(w + rest) == |w|
    decreases |w|
  {
    if w != [] {
      WordLenOfWord(w[1..], rest);
      assert (w + rest)[1..] == w[1..] + rest;
    }
  }

  // ---------------------------------------------------------------------------
  // Slicing, lower, hex

  /** Python's `s[:-1]`: everything but the last character; `""` stays `""`. */
  function DropLast(s: string): (r: string)
    ensures |r| == if s == [] then 0 else |s| - 1
    ensures r <= s
  {
    if s == [] then [] else s[..|s| - 1]
  }

  /** `DropLast` undoes appending one character, whatever that character is. */
  lemma DropLastOfAppend(s: string, c: char)
    ensures DropLast(s + [c]) == s
  {
    assert (s + [c])[..|s|] == s;
  }

  /** Python's `s[lo:hi]` for non-negative bounds. */
  function Slice(s: string, lo: nat, hi: nat): (r: string)
    ensures |r| == if lo >= |s| || hi <= lo then 0 else (if hi < |s| then hi else |s|) - lo
  {
    if lo >= |s| || hi <= lo then [] else s[lo..if hi < |s| then hi else |s|]
  }

  function LowerChar(c: char): char
  {
    if 'A' <= c <= 'Z' then (c as int - 'A' as int + 'a' as int) as char else c
  }

  /** Python 2's `str.lower()` on an ASCII string. */
  function Lower(s: string): (r: string)
    ensures |r| == |s|
    ensures forall i :: 0 <= i < |s| ==> r[i] == LowerChar(s[i])
  {
    seq(|s|, i requires 0 <= i < |s| => LowerChar(s[i]))
  }

  /** Python's `hex(n)` for a non-negative integer: `0x` and lower-case digits. */
  function Hex(n: nat): (h: string)
    ensures |h| >= 3 && h[..2] == "0x"
    ensures AllDigitsIn(h[2..], 16) && ValueIn(h[2..], 16) == n
  {
    DigitsValue(n, 16);
    var h := "0x" + Digits(n, 16);
    assert h[2..] == Digits(n, 16);
    h
  }
}
