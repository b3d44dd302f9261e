/** Zero-padded decimal rendering of non-negative integers (itoa). */
module Decimal {
  import opened Buffers
  import opened Text

  /** Go's `int` is 64 bits wide: every value `itoa` can be given lies in [-IntLimit, IntLimit). */
  const IntLimit: int := 0x8000_0000_0000_0000

  /** Go's `uint` holds the values below this bound. */
  const UintLimit: nat := 0x1_0000_0000_0000_0000

  /** Size of itoa's scratch array. */
  const ScratchSize: nat := 32

  /** The most decimal digits a Go `uint` can have. */
  const UintDigitsMax: nat := 20

  /**
   * `uint(i)`: the 64-bit pattern of `i` read as unsigned, that is, the
   * representative of `i` modulo 2^64 in [0, 2^64).
   */
  function Uint(i: int): (u: nat)
    requires -IntLimit <= i < IntLimit
    ensures u < UintLimit && (u - i) % UintLimit == 0
    ensures 0 <= i ==> u == i
  {
    if i < 0 then i + UintLimit else i
  }

  predicate IsDigit(c: char) {
    '0' <= c <= '9'
  }

  predicate AllDigits(s: string) {
    forall k :: 0 <= k < |s| ==> IsDigit(s[k])
  }

  /** The byte `byte(d) + '0'`. */
  function DigitChar(d: nat): (c: char)
    requires d < 10
    ensures IsDigit(c)
  {
    (d + '0' as int) as char
  }

  function DigitValue(c: char): (d: nat)
    requires IsDigit(c)
    ensures d < 10 && DigitChar(d) == c
  {
    (c as int - '0' as int) as nat
  }

  /** Number of decimal digits of `n`, counting 0 as one digit. */
  function NumDigits(n: nat): nat {
    if n < 10 then 1 else 1 + NumDigits(n / 10)
  }

  /** Ten to the power `k`. */
  function Pow10(k: nat): nat {
    if k == 0 then 1 else 10 * Pow10(k - 1)
  }

  /** The decimal number a digit string denotes, most significant digit first. */
  function ValueOf(s: string): nat
    requires AllDigits(s)
  {
    if s == [] then 0 else 10 * ValueOf(s[..|s| - 1]) + DigitValue(s[|s| - 1])
  }

  /** The shortest decimal spelling of `n`: no leading zero, and "0" for zero. */
  function Canonical(n: nat): string {
    if n < 10 then [DigitChar(n)] else Canonical(n / 10) + [DigitChar(n % 10)]
  }

  function Zeros(k: nat): (s: string)
    ensures |s| == k && forall j :: 0 <= j < k ==> s[j] == '0'
  {
    seq(k, _ => '0')
  }

  /**
   * `n` in decimal, padded on the left with zeros to at least `wid` digits:
   * the low digit last, the rest rendered to one digit less.
   */
  function Padded(n: nat, wid: int): (r: string)
    ensures 1 <= |r| && wid <= |r|
    decreases n + (if wid > 0 then wid else 0)
  {
    if n < 10 && wid <= 1 then [DigitChar(n)] else Padded(n / 10, wid - 1) + [DigitChar(n % 10)]
  }

  /**
   * What itoa's first loop leaves in the scratch array when started with
   * quotient `u` and remaining width `w`: it emits the low digit of `u` and
   * continues with `u / 10` and `w - 1` while `u > 0 || w > 0`.
   */
  function Backwards(u: nat, w: int): string
    decreases u + (if w > 0 then w else 0)
  {
    if u == 0 && w <= 0 then [] else Backwards(u / 10, w - 1) + [DigitChar(u % 10)]
  }

  lemma {:induction false} CanonicalShape(n: nat)
    ensures |Canonical(n)| == NumDigits(n)
    ensures AllDigits(Canonical(n))
    ensures ValueOf(Canonical(n)) == n
    ensures Canonical(n)[0] == '0' <==> n == 0
  {
    if n >= 10 {
      CanonicalShape(n / 10);
      var c := Canonical(n);
      assert c[..|c| - 1] == Canonical(n / 10);
    }
  }

  lemma {:induction false} ZerosValue(k: nat)
    ensures AllDigits(Zeros(k)) && ValueOf(Zeros(k)) == 0
  {
    if k > 0 {
      assert Zeros(k)[..k - 1] == Zeros(k - 1);
      ZerosValue(k - 1);
    }
  }

  /** Leading zeros do not change the value of a digit string. */
  lemma {:induction false} ValueOfZerosPrefix(k: nat, s: string)
    requires AllDigits(s)
    ensures AllDigits(Zeros(k) + s) && ValueOf(Zeros(k) + s) == ValueOf(s)
  {
    if s == [] {
      assert Zeros(k) + s == Zeros(k);
      ZerosValue(k);
    } else {
      var t := Zeros(k) + s;
      assert t[..|t| - 1] == Zeros(k) + s[..|s| - 1];
      ValueOfZerosPrefix(k, s[..|s| - 1]);
    }
  }

  lemma {:induction false} ZerosSnoc(k: nat)
    ensures Zeros(k) + ['0'] == Zeros(k + 1)
  {
  }

  /** Apart from the case itoa treats first, its digit loop produces exactly `Padded`. */
  lemma {:induction false} BackwardsIsPadded(u: nat, w: int)
    requires u > 0 || w >= 1
    ensures Backwards(u, w) == Padded(u, w)
  {
    if !(u < 10 && w <= 1) {
      BackwardsIsPadded(u / 10, w - 1);
    }
  }

  /** The padding count: how many zeros `Padded` puts in front of the canonical digits. */
  function Padding(n: nat, wid: int): nat {
    if wid > NumDigits(n) then wid - NumDigits(n) else 0
  }

  /** `Padded` is the canonical decimal spelling behind exactly `Padding` zeros. */
  lemma {:induction false} PaddedShape(n: nat, wid: int)
    ensures Padded(n, wid) == Zeros(Padding(n, wid)) + Canonical(n)
    decreases n + (if wid > 0 then wid else 0)
  {
    if !(n < 10 && wid <= 1) {
      PaddedShape(n / 10, wid - 1);
      if n < 10 {
        ZerosSnoc(wid - 2);
      }
    }
  }

  lemma {:induction false} BackwardsLength(u: nat, w: int)
    ensures |Backwards(u, w)| <= if w > NumDigits(u) then w else NumDigits(u)
    ensures u > 0 || w >= 1 ==>
      |Backwards(u, w)| == if w > NumDigits(u) then w else NumDigits(u)
  {
    if !(u == 0 && w <= 0) {
      BackwardsLength(u / 10, w - 1);
    }
    if u > 0 || w >= 1 {
      BackwardsIsPadded(u, w);
      PaddedLength(u, w);
    }
  }

  lemma {:induction false} NumDigitsBelow(n: nat, k: nat)
    requires n < Pow10(k)
    ensures NumDigits(n) <= k || (n == 0 && k == 0)
  {
    if n >= 10 {
      NumDigitsBelow(n / 10, k - 1);
    }
  }

  lemma {:induction false} NumDigitsAbove(n: nat, k: nat)
    requires Pow10(k) <= n
    ensures k < NumDigits(n)
  {
    if k > 0 {
      NumDigitsAbove(n / 10, k - 1);
    }
  }

  /**
   * A negative `i` comes out as a uint of at least 2^63, so itoa writes it
   * with 19 or 20 digits and no sign.
   */
  lemma NegativeWraps(i: int, wid: int)
    requires -IntLimit <= i < 0
    ensures IntLimit <= Uint(i)
    ensures 19 <= |Padded(Uint(i), wid)| && AllDigits(Padded(Uint(i), wid))
  {
    assert Pow10(3) == 1000;
    assert Pow10(6) == 1000_000;
    assert Pow10(9) == 1000_000_000;
    assert Pow10(18) == 1000_000_000_000_000_000;
    NumDigitsAbove(Uint(i), 18);
    PaddedLength(Uint(i), wid);
  }

  /** A Go `uint` has at most 20 decimal digits, so the 32-byte scratch array always suffices. */
  lemma UintDigits(n: nat)
    requires n < UintLimit
    ensures NumDigits(n) <= UintDigitsMax
  {
    assert Pow10(3) == 1000;
    assert Pow10(6) == 1000_000;
    assert Pow10(9) == 1000_000_000;
    assert Pow10(12) == 1000_000_000_000;
    assert Pow10(15) == 1000_000_000_000_000;
    assert Pow10(18) == 1000_000_000_000_000_000;
    assert Pow10(19) == 10_000_000_000_000_000_000;
    assert Pow10(20) == 100_000_000_000_000_000_000;
    NumDigitsBelow(n, 20);
  }

  /** The digits of a Go `uint` padded to at most 32 places fit in itoa's scratch array. */
  lemma BackwardsFits(u: nat, w: int)
    requires u < UintLimit && w <= ScratchSize
    ensures |Backwards(u, w)| <= ScratchSize
  {
    UintDigits(u);
    BackwardsLength(u, w);
  }

  /** itoa appends exactly max(wid, NumDigits(i)) bytes, every one a decimal digit. */
  lemma PaddedLength(n: nat, wid: int)
    ensures |Padded(n, wid)| == if wid > NumDigits(n) then wid else NumDigits(n)
    ensures AllDigits(Padded(n, wid))
  {
    PaddedShape(n, wid);
    CanonicalShape(n);
  }

  /** Reading the appended digits back as a decimal number gives the input again. */
  lemma PaddedRoundTrip(n: nat, wid: int)
    ensures AllDigits(Padded(n, wid)) && ValueOf(Padded(n, wid)) == n
  {
    PaddedShape(n, wid);
    CanonicalShape(n);
    ValueOfZerosPrefix(Padding(n, wid), Canonical(n));
  }

  /**
   * Zeros appear on the left only as padding: the first `Padding(n, wid)`
   * characters are zeros, and the digit right after them is non-zero unless
   * `n` is zero.
   */
  lemma PaddedLeadingZeros(n: nat, wid: int)
    ensures var s := Padded(n, wid);
      Padding(n, wid) < |s| &&
      (forall j :: 0 <= j < Padding(n, wid) ==> s[j] == '0') &&
      (s[Padding(n, wid)] == '0' <==> n == 0)
  {
    PaddedShape(n, wid);
    CanonicalShape(n);
  }

  /** With no minimum width (wid <= 1, as for line numbers) the output has no leading zero. */
  lemma PaddedUnpadded(n: nat, wid: int)
    requires wid <= 1
    ensures Padded(n, wid) == Canonical(n)
    ensures Padded(n, wid)[0] == '0' <==> n == 0
  {
    PaddedShape(n, wid);
    CanonicalShape(n);
    assert Zeros(0) + Canonical(n) == Canonical(n);
  }

  /** A number below 10^wid renders in exactly `wid` digits that read back as that number. */
  lemma PaddedFixed(n: nat, wid: nat)
    requires 1 <= wid && n < Pow10(wid)
    ensures |Padded(n, wid)| == wid
    ensures AllDigits(Padded(n, wid)) && ValueOf(Padded(n, wid)) == n
  {
    NumDigitsBelow(n, wid);
    PaddedLength(n, wid);
    PaddedRoundTrip(n, wid);
  }

  /** Two inputs that render the same under the same width are equal. */
  lemma PaddedInjective(m: nat, n: nat, wid: int)
    requires Padded(m, wid) == Padded(n, wid)
    ensures m == n
  {
    PaddedRoundTrip(m, wid);
    PaddedRoundTrip(n, wid);
  }

  /**
   * itoa: appends `uint(i)` in decimal, zero-padded on the left to `wid`
   * digits.  The digits are built backwards in a 32-byte scratch array and
   * then copied.  A width above 32 runs off the array, and so can one within
   * 20 of the smallest `int`, where decrementing it may wrap.
   */
  method Itoa(buf: Buffer, i: int, wid: int)
    requires -IntLimit <= i < IntLimit
    requires -IntLimit + UintDigitsMax <= wid <= ScratchSize
    modifies buf
    ensures buf.content == old(buf.content) + Padded(Uint(i), wid)
  {
    var u: nat := Uint(i);
    ghost var u0 := u;
    if u == 0 && wid <= 1 {
      buf.WriteByte('0');
      return;
    }

    var b := new char[ScratchSize];
    var bp := b.Length;
    var w := wid;
    BackwardsFits(u, w);
    while u > 0 || w > 0
      invariant 0 <= bp <= b.Length
      invariant Backwards(u0, wid) == Backwards(u, w) + b[bp..]
      modifies b
      decreases u + (if w > 0 then w else 0)
    {
      ghost var done := b[bp..];
      var d := DigitChar(u % 10);
      assert Backwards(u, w) == Backwards(u / 10, w - 1) + [d];
      bp := bp - 1;
      w := w - 1;
      b[bp] := d;
      assert b[bp..] == [d] + done;
      ConcatAssoc(Backwards(u / 10, w), [d], done);
      u := u / 10;
    }

    assert b[bp..] == Padded(u0, wid) by {
      BackwardsIsPadded(u0, wid);
    }
    ghost var start := bp;
    while bp < b.Length
      invariant start <= bp <= b.Length
      invariant buf.content == old(buf.content) + b[start..bp]
      modifies buf
    {
      assert b[start..bp + 1] == b[start..bp] + [b[bp]];
      ConcatAssoc(old(buf.content), b[start..bp], [b[bp]]);
      buf.WriteByte(b[bp]);
      bp := bp + 1;
    }
  }
}
