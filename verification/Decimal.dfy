/** strconv.Itoa and strconv.Atoi on 64-bit integers. */
module Decimal {
  import opened Prelude
  import opened Text

  function Digit(d: nat): char
    requires d < 10
  {
    '0' + d as char
  }

  function DigitValue(c: char): nat
    requires IsDigit(c)
  {
    (c - '0') as nat
  }

  function Itoa(n: nat): (s: string)
    ensures s != ""
  {
    if n < 10 then [Digit(n)] else Itoa(n / 10) + [Digit(n % 10)]
  }

  predicate AllDigits(s: string) {
    forall c <- s :: IsDigit(c)
  }

  function Value(s: string): nat
    requires AllDigits(s)
    decreases |s|
  {
    if s == "" then 0 else Value(s[..|s| - 1]) * 10 + DigitValue(s[|s| - 1])
  }

  /** Atoi: an optional sign, then digits, within int64. */
  function Atoi(s: string): Option<int> {
    var negative := HasPrefix(s, "-");
    var digits := if negative || HasPrefix(s, "+") then s[1..] else s;
    if digits == "" || !AllDigits(digits) then None
    else
      var value: int := Value(digits);
      var n: int := if negative then -value else value;
      if -MAX_INT64 - 1 <= n <= MAX_INT64 then Some(n) else None
  }

  lemma {:induction false} ItoaDigits(n: nat)
    ensures AllDigits(Itoa(n)) && Value(Itoa(n)) == n
    decreases n
  {
    if n < 10 {
      assert Itoa(n)[..0] == "";
    } else {
      ItoaDigits(n / 10);
      var s := Itoa(n);
      assert s[..|s| - 1] == Itoa(n / 10);
    }
  }

  /** A number that fits, signed or not, is read back as printed; one that does not is refused. */
  lemma ItoaRoundTrip(n: nat)
    ensures Atoi(Itoa(n)) == Atoi("+" + Itoa(n)) == if n <= MAX_INT64 then Some(n) else None
    ensures Atoi("-" + Itoa(n)) == var m: int := -(n as int); if n <= MAX_INT64 + 1 then Some(m) else None
  {
    ItoaDigits(n);
    var s := Itoa(n);
    hide Itoa;
    assert IsDigit(s[0]);
    assert ("+" + s)[1..] == s && ("-" + s)[1..] == s;
  }

  lemma DigitSpelled(d: nat)
    requires d < 10
    ensures Digit(d) == "0123456789"[d]
  {
  }

  /** The last digit of a printed number is the number modulo ten, spelt as usual, and the rest is the tenth of it. */
  lemma ItoaEnds(n: nat)
    ensures |Itoa(n)| > 1 <==> n >= 10
    ensures Itoa(n)[|Itoa(n)| - 1] == "0123456789"[n % 10]
    ensures n >= 10 ==> Itoa(n)[..|Itoa(n)| - 1] == Itoa(n / 10)
  {
    DigitSpelled(n % 10);
    hide Digit;
  }

  /** No digits spell a number in fewer characters than printing it does. */
  lemma {:induction false} ItoaIsShortest(s: string)
    requires s != "" && AllDigits(s)
    ensures |Itoa(Value(s))| <= |s|
    decreases |s|
  {
    var n, head := Value(s), s[..|s| - 1];
    assert n == Value(head) * 10 + DigitValue(s[|s| - 1]);
    if |s| == 1 {
      assert head == "";
    } else if n >= 10 {
      ItoaIsShortest(head);
    }
  }
}
