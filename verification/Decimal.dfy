/** Decimal text and the fixed-width arithmetic done on it. */
module Decimal {
  import opened Widths

  predicate IsDigit(c: char) { '0' <= c <= '9' }

  predicate AllDigits(s: string) {
    forall i :: 0 <= i < |s| ==> IsDigit(s[i])
  }

  function DigitOf(n: nat): char
    requires n < 10
  {
    ('0' as int + n) as char
  }

  /** The number a digit string denotes; the empty string denotes 0. */
  function Value(s: string): nat
    requires AllDigits(s)
  {
    if s == "" then 0 else 10 * Value(s[..|s| - 1]) + (s[|s| - 1] as int - '0' as int)
  }

  function Print(n: nat): string {
    if n < 10 then [DigitOf(n)] else Print(n / 10) + [DigitOf(n % 10)]
  }

  /** Printing is inverted by reading, and every proper prefix denotes something smaller. */
  lemma {:induction false} ValueOfPrint(n: nat)
    ensures AllDigits(Print(n)) && Value(Print(n)) == n
    ensures forall i :: 0 <= i <= |Print(n)| ==> Value(Print(n)[..i]) <= n
  {
    var s := Print(n);
    if n >= 10 {
      ValueOfPrint(n / 10);
      assert s[..|s| - 1] == Print(n / 10);
      forall i | 0 <= i <= |s| ensures Value(s[..i]) <= n {
        if i < |s| { assert s[..i] == Print(n / 10)[..i]; } else { assert s[..i] == s; }
      }
    } else {
      assert s[..0] == "" && s[..1] == s;
    }
  }

  function Pow10(n: nat): nat {
    if n == 0 then 1 else 10 * Pow10(n - 1)
  }

  lemma PrintWidth(n: nat, w: nat)
    requires 0 < w && n < Pow10(w)
    ensures |Print(n)| <= w
  {
  }

  /** The digits of `n`, with none for 0. */
  function Leading(n: nat): string {
    if n == 0 then "" else Print(n)
  }

  lemma LeadingStep(n: nat, tail: string)
    requires n > 0
    ensures Leading(n) + tail == Leading(n / 10) + ([DigitOf(n % 10)] + tail)
  {
  }

  lemma PowStep(n: nat, i: nat)
    requires 0 < n < Pow10(i)
    ensures i > 0 && n / 10 < Pow10(i - 1)
  {
  }

  lemma FitsTenDigits(v: nat)
    requires v < TWO_32
    ensures v < Pow10(10)
  {
  }

  /** `itoa`: fills a ten-byte buffer from the right, which no 32-bit value overruns. */
  method Itoa(v: nat) returns (s: string)
    requires v < TWO_32
    ensures s == Print(v)
  {
    if v == 0 { return "0"; }
    var buf := new char[10];
    var i: nat, rest: nat := 10, v;
    FitsTenDigits(v);
    ghost var text: string := "";
    while rest > 0
      invariant i <= 10 && rest < Pow10(i)
      invariant buf[i..] == text && Leading(v) == Leading(rest) + text
    {
      LeadingStep(rest, text);
      PowStep(rest, i);
      var digit := DigitOf(rest % 10);
      PutsInFront(buf, i, digit, text);
      i := i - 1;
      buf[i] := digit;
      rest := rest / 10;
      text := [digit] + text;
    }
    s := buf[i..];
  }

  lemma PutsInFront(buf: array<char>, i: nat, digit: char, text: string)
    requires 0 < i <= buf.Length && buf[i..] == text
    ensures buf[..][i - 1 := digit][i - 1..] == [digit] + text
  {
  }

  function Kept(name: string): string {
    if |name| <= 15 then name else name[..15]
  }

  /** What a directory name denotes: its first fifteen bytes read as a decimal number in 32-bit
      arithmetic, or 0 when they are not all digits. */
  function DirPid(name: string): nat {
    if AllDigits(Kept(name)) then Value(Kept(name)) % TWO_32 else 0
  }

  /** `get_proc_dir_pid`, which wraps at every digit rather than once at the end. */
  method GetProcDirPid(name: string) returns (pid: nat)
    ensures pid == DirPid(name) < TWO_32
    ensures |name| <= 15 && AllDigits(name) ==> pid == Value(name) % 0x1_0000_0000
    ensures |name| > 15 && AllDigits(name[..15]) ==> pid == Value(name[..15]) % 0x1_0000_0000
    ensures (exists i :: 0 <= i < |name| && i < 15 && !('0' <= name[i] <= '9')) ==> pid == 0
  {
    var pidStr := Kept(name);
    if |pidStr| == 0 { return 0; }
    pid := 0;
    for i := 0 to |pidStr|
      invariant AllDigits(pidStr[..i]) && pid == Value(pidStr[..i]) % TWO_32
    {
      var c := pidStr[i];
      if c < '0' || c > '9' { return 0; }
      assert pidStr[..i + 1][..i] == pidStr[..i];
      StepWraps(Value(pidStr[..i]), c as int - '0' as int);
      pid := (pid * 10 + (c as int - '0' as int)) % TWO_32;
    }
    assert pidStr[..|pidStr|] == pidStr;
  }

  lemma StepWraps(a: nat, d: nat)
    ensures (a % TWO_32 * 10 + d) % TWO_32 == (10 * a + d) % TWO_32
  {
  }

  /** For every PID the directory name is read back exactly: it fits in fifteen bytes, is all digits,
      and neither the result nor any value on the way wraps. */
  lemma PidNameRoundTrip(pid: nat)
    requires 0 < pid < TWO_32
    ensures Kept(Print(pid)) == Print(pid) && AllDigits(Print(pid))
    ensures DirPid(Print(pid)) == pid
    ensures forall i :: 0 <= i <= |Print(pid)| ==> Value(Print(pid)[..i]) < TWO_32
  {
    ValueOfPrint(pid);
    FitsTenDigits(pid);
    PrintWidth(pid, 10);
  }
}
