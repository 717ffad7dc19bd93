/**
 * `adler32(fname)`: the Adler-32 checksum of section 8.2 of RFC 1950,
 * computed by `zlib.adler32` over the file block by block, corrected for
 * Python 2's signed result and printed as eight lower-case hex digits.
 */
module Adler32 {
  import opened PyText

  newtype byte = b: int | 0 <= b < 256

  /** The largest prime below 2^16, the modulus of both Adler-32 sums. */
  const BASE := 65521

  /** `4096 * 1024`: the number of bytes each `f.read` asks for. */
  const BLOCKSIZE := 4096 * 1024

  const TWO32 := 0x1_0000_0000

  // ---------------------------------------------------------------------------
  // The definition of RFC 1950, section 8.2

  function Sum(data: seq<byte>): nat
  {
    if data == [] then 0 else Sum(data[..|data| - 1]) + data[|data| - 1] as int
  }

  /** s1 before reduction: 1 plus all the bytes. */
  function S1(data: seq<byte>): nat
  {
    1 + Sum(data)
  }

  /** s2 before reduction: the sum of the s1 values after each byte. */
  function S2(data: seq<byte>): nat
  {
    if data == [] then 0 else S2(data[..|data| - 1]) + S1(data)
  }

  /** The Adler-32 checksum of `data`: s2 in the high 16 bits, s1 in the low 16, both modulo 65521. */
  function Checksum(data: seq<byte>): (c: nat)
    ensures c < TWO32
  {
    (S2(data) % BASE) * 65536 + S1(data) % BASE
  }

  // ---------------------------------------------------------------------------
  // The running computation of zlib

  /** The two running sums, each already reduced. */
  datatype Sums = Sums(s1: nat, s2: nat)

  predicate Reduced(s: Sums)
  {
    s.s1 < BASE && s.s2 < BASE
  }

  /** One byte of the update loop. */
  function Step(s: Sums, b: byte): (t: Sums)
    ensures Reduced(t)
  {
    var s1 := (s.s1 + b as int) % BASE;
    Sums(s1, (s.s2 + s1) % BASE)
  }

  /** The sums after all of `data`, starting from `s`. */
  function Fold(s: Sums, data: seq<byte>): (t: Sums)
    ensures data != [] ==> Reduced(t)
  {
    if data == [] then s else Step(Fold(s, data[..|data| - 1]), data[|data| - 1])
  }

  function Pack(s: Sums): int
  {
    s.s2 * 65536 + s.s1
  }

  /** The running value zlib takes as its seed: low 16 bits s1, high 16 bits s2. */
  function Unpack(v: nat): Sums
  {
    Sums(v % 65536, v / 65536)
  }

  /** Folding in two pieces is folding the whole: this is what lets `adler32` work block by block. */
  lemma {:induction false} FoldAppend(s: Sums, a: seq<byte>, b: seq<byte>)
    ensures Fold(s, a + b) == Fold(Fold(s, a), b)
    decreases |b|
  {
    if b == [] {
      assert a + b == a;
    } else {
      var b' := b[..|b| - 1];
      FoldAppend(s, a, b');
      assert (a + b)[..|a + b| - 1] == a + b';
    }
  }

  /** Reducing a summand first does not change the sum modulo 65521. */
  lemma ModAdd(x: int, y: int)
    ensures (x % BASE + y) % BASE == (x + y) % BASE
  {
  }

  /** One step on reduced sums is the reduction of the step on the unreduced ones. */
  lemma StepReduced(x1: nat, x2: nat, b: byte)
    ensures Step(Sums(x1 % BASE, x2 % BASE), b) == Sums((x1 + b as int) % BASE, (x2 + x1 + b as int) % BASE)
  {
    var s1 := (x1 % BASE + b as int) % BASE;
    ModAdd(x1, b as int);
    ModAdd(x2, s1);
    ModAdd(x1 + b as int, x2);
  }

  /** Starting from s1 = 1 and s2 = 0, the running sums are those of RFC 1950, reduced. */
  lemma {:induction false} FoldIsChecksum(data: seq<byte>)
    ensures Fold(Sums(1, 0), data) == Sums(S1(data) % BASE, S2(data) % BASE)
  {
    if data != [] {
      var init := data[..|data| - 1];
      FoldIsChecksum(init);
      StepReduced(S1(init), S2(init), data[|data| - 1]);
    }
  }

  /** Packing reduced sums and unpacking them again gives them back. */
  lemma UnpackPack(s: Sums)
    requires Reduced(s)
    ensures 0 <= Pack(s) < TWO32 && Unpack(Pack(s)) == s
  {
  }

  // ---------------------------------------------------------------------------
  // Python 2's zlib.adler32 and the fold of `adler32`

  /** A 32-bit value as the signed integer Python 2's `zlib.adler32` returns. */
  function Signed32(v: int): int
  {
    if v >= 0x8000_0000 then v - TWO32 else v
  }

  /**
   * `zlib.adler32(data, value)` for a seed whose two halves are already
   * reduced below 65521, as every seed `adler32` passes is: the seed is read
   * as an unsigned 32-bit value (low 16 bits s1, high 16 bits s2), `data` is
   * folded in, and the result comes back as a signed 32-bit integer.
   */
  function ZlibAdler32(data: seq<byte>, value: int): (r: int)
    ensures -0x8000_0000 <= r < 0x8000_0000
  {
    var v := value % TWO32;
    var t := Fold(Unpack(v), data);
    Signed32(if data == [] then v else Pack(t))
  }

  /** With the seed 1 that `adler32` uses, zlib's value, read unsigned, is the checksum of RFC 1950. */
  lemma ZlibIsChecksum(data: seq<byte>)
    ensures Unsigned32(ZlibAdler32(data, 1)) == Checksum(data)
  {
    FoldIsChecksum(data);
    assert Unpack(1) == Sums(1, 0);
    if data != [] {
      var t := Fold(Sums(1, 0), data);
      UnpackPack(t);
      Signed32Mod(Pack(t));
      Unsigned32Mod(Signed32(Pack(t)));
    }
  }

  /** Eight lower-case hex digits: `hex(checksum)[2:10].zfill(8).lower()`. */
  function HexField(checksum: nat): (h: string)
    ensures |h| >= 8
    ensures checksum < TWO32 ==>
      |Digits(checksum, 16)| <= 8 && h == Zeros(8 - |Digits(checksum, 16)|) + Digits(checksum, 16)
  {
    var h := Lower(Zfill(Slice(Hex(checksum), 2, 10), 8));
    assert checksum < TWO32 ==> |Digits(checksum, 16)| <= 8 && h == Zeros(8 - |Digits(checksum, 16)|) + Digits(checksum, 16) by {
      if checksum < TWO32 {
        var d := Digits(checksum, 16);
        HexSlice(checksum);
        ZfillDigits(d, 8, 16);
        LeadingZerosValue(8 - |d|, d, 16);
        LowerOfDigits(Zeros(8 - |d|) + d);
      }
    }
    h
  }

  lemma {:induction false} DigitsLength(n: nat, k: nat)
    requires 1 <= k && n < Pow16(k)
    ensures |Digits(n, 16)| <= k
    decreases k
  {
    if n >= 16 {
      DivModBase(n, 16);
      DigitsLength(n / 16, k - 1);
    }
  }

  function Pow16(k: nat): nat
  {
    if k == 0 then 1 else 16 * Pow16(k - 1)
  }

  predicate IsLowerHex(s: string)
  {
    forall i :: 0 <= i < |s| ==> ('0' <= s[i] <= '9' || 'a' <= s[i] <= 'f')
  }

  /**
   * For every 32-bit value the hex field is eight lower-case hex digits, and
   * they denote the value. `IsLowerHex` names the characters outright;
   * `AllDigitsIn` is the same set as `DigitValue` reads it, and is what
   * `ValueIn` needs.
   */
  lemma HexFieldReadsBack(checksum: nat)
    requires checksum < TWO32
    ensures |HexField(checksum)| == 8 && IsLowerHex(HexField(checksum))
    ensures AllDigitsIn(HexField(checksum), 16) && ValueIn(HexField(checksum), 16) == checksum
  {
    var h, d := HexField(checksum), Digits(checksum, 16);
    assert |d| <= 8 && h == Zeros(8 - |d|) + d;
    var z := Zeros(8 - |d|) + d;
    LeadingZerosValue(8 - |d|, d, 16);
    DigitsValue(checksum, 16);
    LowerOfDigits(z);
  }

  /** `hex(checksum)[2:10]` drops the `0x` and keeps every digit of a 32-bit value. */
  lemma HexSlice(checksum: nat)
    requires checksum < TWO32
    ensures |Digits(checksum, 16)| <= 8 && Slice(Hex(checksum), 2, 10) == Digits(checksum, 16)
  {
    assert Pow16(8) == TWO32;
    DigitsLength(checksum, 8);
  }

  /** `lower()` leaves digits `0`-`9` and `a`-`f` alone. */
  lemma LowerOfDigits(s: string)
    requires AllDigitsIn(s, 16)
    ensures Lower(s) == s && IsLowerHex(s)
  {
    assert forall i :: 0 <= i < |s| ==> IsDigitIn(s[i], 16);
  }

  /**
   * `adler32(fname)` over the file's contents: read blocks of `BLOCKSIZE`
   * bytes until a read comes back empty, fold each into `checksum` with
   * `zlib.adler32` (seed 1), add 2^32 to a negative result, and format it.
   */
  method Adler32OfFile(contents: seq<byte>) returns (hex: string)
    ensures hex == HexField(Checksum(contents))
  {
    var pos := 0;
    var checksum := 1;
    while true
      invariant 0 <= pos <= |contents|
      invariant -0x8000_0000 <= checksum < TWO32
      invariant Unsigned32(checksum) == Pack(Fold(Sums(1, 0), contents[..pos]))
      decreases |contents| - pos
    {
      var end := if pos + BLOCKSIZE < |contents| then pos + BLOCKSIZE else |contents|;
      var data := contents[pos..end];
      if data == [] {
        break;
      }
      assert end == pos + |data|;
      AdlerStep(contents, pos, data, checksum);
      checksum := ZlibAdler32(data, checksum);
      pos := end;
    }
    assert contents[..pos] == contents;

    if checksum < 0 {
      checksum := checksum + TWO32;
    }
    RunningIsChecksum(contents, checksum);
    hex := HexField(checksum);
  }

  /** The value the loop ends with is the checksum of the whole file. */
  lemma RunningIsChecksum(contents: seq<byte>, checksum: int)
    requires checksum == Pack(Fold(Sums(1, 0), contents))
    ensures checksum == Checksum(contents)
  {
    FoldIsChecksum(contents);
  }

  /** The `+= 2**32` correction: the unsigned reading of a value zlib returns. */
  function Unsigned32(checksum: int): (u: int)
    ensures -0x8000_0000 <= checksum < TWO32 ==> 0 <= u < TWO32 && u % TWO32 == checksum % TWO32
  {
    if checksum < 0 then checksum + TWO32 else checksum
  }

  /** For every value zlib can return, the correction is reduction modulo 2^32. */
  lemma Unsigned32Mod(checksum: int)
    requires -0x8000_0000 <= checksum < TWO32
    ensures Unsigned32(checksum) == checksum % TWO32
  {
  }

  /** Reading a reduced running value back as a seed gives the sums it packs. */
  lemma SeedOfRunning(checksum: int, s: Sums)
    requires Reduced(s) && checksum % TWO32 == Pack(s)
    ensures Unpack(checksum % TWO32) == s
  {
    UnpackPack(s);
  }

  /** Python's signed reading of a 32-bit value, taken back modulo 2^32, is the value. */
  lemma Signed32Mod(v: int)
    requires 0 <= v < TWO32
    ensures Signed32(v) % TWO32 == v
  {
  }

  /** One block of the loop keeps the running value equal to the checksum of what has been read. */
  lemma AdlerStep(contents: seq<byte>, pos: nat, data: seq<byte>, checksum: int)
    requires pos + |data| <= |contents| && data == contents[pos..pos + |data|] && data != []
    requires -0x8000_0000 <= checksum < TWO32
    requires Unsigned32(checksum) == Pack(Fold(Sums(1, 0), contents[..pos]))
    ensures Unsigned32(ZlibAdler32(data, checksum)) == Pack(Fold(Sums(1, 0), contents[..pos + |data|]))
  {
    var prefix := Fold(Sums(1, 0), contents[..pos]);
    FoldIsChecksum(contents[..pos]);
    assert Reduced(prefix);
    Unsigned32Mod(checksum);
    SeedOfRunning(checksum, prefix);
    var t := Fold(prefix, data);
    assert Reduced(t);
    UnpackPack(t);
    assert ZlibAdler32(data, checksum) == Signed32(Pack(t));
    Signed32Mod(Pack(t));
    Unsigned32Mod(Signed32(Pack(t)));
    assert contents[..pos + |data|] == contents[..pos] + data;
    FoldAppend(Sums(1, 0), contents[..pos], data);
  }
}
