/**
 * Countdown arithmetic shared by the pending-verification and reset-password
 * pages: seconds left until an expiry instant, the once-a-second tick, and
 * the `M:SS` clock text.
 */
module Countdown {
  import opened Wrappers

  /**
   * `Math.ceil(ms / 1000)` for a whole number of milliseconds. Dafny's `/`
   * rounds down for a positive divisor, so the ceiling is the negated floor
   * of the negation.
   */
  function CeilSeconds(ms: int): (r: int)
    ensures (r - 1) * 1000 < ms <= r * 1000
  {
    -((-ms) / 1000)
  }

  /** Whole seconds left until `expiresAt` is positive exactly while `expiresAt` is still in the future. */
  lemma SecondsLeftPositive(expiresAt: int, now: int)
    ensures CeilSeconds(expiresAt - now) > 0 <==> expiresAt > now
    ensures CeilSeconds(expiresAt - now) < 0 <==> expiresAt <= now - 1000
  {
    var r := CeilSeconds(expiresAt - now);
    if r > 0 {
      assert (r - 1) * 1000 >= 0;
    }
    if r < 0 {
      assert r * 1000 <= -1000;
    } else {
      assert (r - 1) * 1000 >= -1000;
    }
  }

  /** `Math.max(0, t)`. */
  function Clamp(t: int): (r: nat)
    ensures r >= t
    ensures r == t || r == 0
  {
    if t < 0 then 0 else t
  }

  /** The value a tick leaves, and whether the interval is still running. */
  datatype TickResult = TickResult(next: int, running: bool)

  /**
   * One interval callback: at one second or less the value becomes 0 and
   * the interval is cleared; otherwise it drops by one.
   */
  function Tick(prev: int): (r: TickResult)
    ensures r.next >= 0
    ensures prev > 0 ==> r.next < prev
    ensures prev > 1 ==> r.next == prev - 1
    ensures prev <= 1 ==> r.next == 0
    ensures !r.running <==> r.next == 0
  {
    if prev <= 1 then TickResult(0, false) else TickResult(prev - 1, true)
  }

  /** The value after `n` more seconds of an interval started at `t`; a cleared interval stops ticking. */
  function Run(t: int, n: nat): int
    decreases n
  {
    if n == 0 then t
    else
      var r := Tick(t);
      if r.running then Run(r.next, n - 1) else r.next
  }

  /** Started at `t` seconds, the countdown shows `t - n` after `n` ticks and reaches 0 at tick `t`, never below. */
  lemma {:induction false} RunCountsDown(t: int, n: nat)
    requires t >= 1
    ensures Run(t, n) == if n < t then t - n else 0
    decreases n
  {
    if n > 0 && t > 1 {
      RunCountsDown(t - 1, n - 1);
    }
  }

  // ---- The `M:SS` clock --------------------------------------------------

  predicate IsDigit(c: char) {
    '0' <= c <= '9'
  }

  predicate AllDigits(s: string) {
    forall i :: 0 <= i < |s| ==> IsDigit(s[i])
  }

  /**
   * Decimal digits as interpolation writes them: no leading zero, except
   * for the number 0 itself.
   */
  predicate Canonical(s: string) {
    1 <= |s| && AllDigits(s) && (s[0] == '0' ==> |s| == 1)
  }

  function Digit(d: nat): (c: char)
    requires d < 10
    ensures IsDigit(c) && c as int - '0' as int == d
  {
    (d + '0' as int) as char
  }

  /** Decimal text of a natural number, as template-literal interpolation writes it. */
  function Decimal(n: nat): (s: string)
    ensures Canonical(s)
    ensures n < 10 <==> |s| == 1
    ensures s[0] == '0' <==> n == 0
    decreases n
  {
    if n < 10 then [Digit(n)] else Decimal(n / 10) + [Digit(n % 10)]
  }

  /** The number a string of decimal digits denotes. */
  function ValueOf(s: string): nat
    requires AllDigits(s)
  {
    if |s| == 0 then 0 else ValueOf(s[..|s| - 1]) * 10 + (s[|s| - 1] as int - '0' as int)
  }

  lemma {:induction false} ValueOfDecimal(n: nat)
    ensures ValueOf(Decimal(n)) == n
    decreases n
  {
    if n >= 10 {
      var s := Decimal(n);
      assert s[..|s| - 1] == Decimal(n / 10);
      ValueOfDecimal(n / 10);
    }
  }

  /** A canonical digit string is the decimal text of the number it denotes, and of no other. */
  lemma {:induction false} CanonicalUnique(s: string)
    requires Canonical(s)
    ensures s == Decimal(ValueOf(s))
    decreases |s|
  {
    var d := s[|s| - 1] as int - '0' as int;
    var init := s[..|s| - 1];
    if |s| == 1 {
      assert ValueOf(s) == ValueOf(init) * 10 + d && ValueOf(init) == 0;
      assert s == [Digit(d)];
    } else {
      assert init[0] == s[0];
      CanonicalUnique(init);
      assert ValueOf(init) != 0;
      assert s == init + [Digit(d)];
    }
  }

  /** Two two-digit strings that denote the same number are the same string. */
  lemma TwoDigitsUnique(a: string, b: string)
    requires |a| == 2 && |b| == 2 && AllDigits(a) && AllDigits(b)
    requires ValueOf(a) == ValueOf(b)
    ensures a == b
  {
    assert ValueOf(a[..1]) == a[0] as int - '0' as int by {
      assert a[..1][..0] == [];
    }
    assert ValueOf(b[..1]) == b[0] as int - '0' as int by {
      assert b[..1][..0] == [];
    }
  }

  /** The seconds field: a leading `0` below ten. */
  function TwoDigits(ss: nat): (r: string)
    requires ss < 60
    ensures |r| == 2 && AllDigits(r) && ValueOf(r) == ss
  {
    ValueOfDecimal(ss);
    if ss < 10 then
      var r := "0" + Decimal(ss);
      assert r[..1] == "0";
      r
    else
      Decimal(ss)
  }

  /**
   * The clock text read back: canonical minutes, a colon, then exactly two
   * digits below 60.
   */
  function ParseClock(t: string): Option<nat> {
    if |t| >= 4 && t[|t| - 3] == ':' && Canonical(t[..|t| - 3]) && AllDigits(t[|t| - 2..])
       && ValueOf(t[|t| - 2..]) < 60
    then Some(ValueOf(t[..|t| - 3]) * 60 + ValueOf(t[|t| - 2..]))
    else None
  }

  /** `formatTime(seconds)`: reading the text back gives the same number of seconds. */
  function FormatTime(seconds: nat): (r: string)
    ensures ParseClock(r) == Some(seconds)
  {
    var m := Decimal(seconds / 60);
    var ss := TwoDigits(seconds % 60);
    var r := m + ":" + ss;
    assert r[..|r| - 3] == m;
    assert r[|r| - 2..] == ss;
    ValueOfDecimal(seconds / 60);
    r
  }

  /** `ParseClock` accepts at most one text per value, so `FormatTime`'s round trip fixes its text. */
  lemma ClockTextUnique(a: string, b: string)
    requires ParseClock(a).Some? && ParseClock(a) == ParseClock(b)
    ensures a == b
  {
    var ma, sa := a[..|a| - 3], a[|a| - 2..];
    var mb, sb := b[..|b| - 3], b[|b| - 2..];
    assert ValueOf(ma) * 60 + ValueOf(sa) == ValueOf(mb) * 60 + ValueOf(sb);
    assert ValueOf(ma) == ValueOf(mb);
    CanonicalUnique(ma);
    CanonicalUnique(mb);
    TwoDigitsUnique(sa, sb);
    assert a == ma + ":" + sa;
    assert b == mb + ":" + sb;
  }
}
