/** Texts as JavaScript treats them, as far as slugs and vendor codes need: trimming, ASCII case, decimal numbers. */
module Text {

  /** The white space that `trim` removes. */
  predicate IsSpace(c: char) {
    || c in "\t\n\U{B}\U{C}\r \U{A0}\U{1680}\U{2028}\U{2029}\U{202F}\U{205F}\U{3000}\U{FEFF}"
    || '\U{2000}' <= c <= '\U{200A}'
  }

  function TrimStart(s: string): string {
    if s != "" && IsSpace(s[0]) then TrimStart(s[1..]) else s
  }

  function TrimEnd(s: string): string {
    if s != "" && IsSpace(s[|s| - 1]) then TrimEnd(s[..|s| - 1]) else s
  }

  function Trim(s: string): string {
    TrimEnd(TrimStart(s))
  }

  /** Nothing is left to trim. */
  predicate IsTrimmed(s: string) {
    s == "" || (!IsSpace(s[0]) && !IsSpace(s[|s| - 1]))
  }

  lemma {:induction false} TrimEndKeepsStart(s: string)
    requires s == "" || !IsSpace(s[0])
    ensures IsTrimmed(TrimEnd(s))
    decreases s
  {
    if s != "" && IsSpace(s[|s| - 1]) {
      TrimEndKeepsStart(s[..|s| - 1]);
    }
  }

  lemma {:induction false} TrimStartStarts(s: string)
    ensures TrimStart(s) == "" || !IsSpace(TrimStart(s)[0])
    decreases s
  {
    if s != "" && IsSpace(s[0]) {
      TrimStartStarts(s[1..]);
    }
  }

  /** A trimmed text is trimmed, and a text is trimmed exactly when `trim` leaves it alone. */
  lemma TrimTrims(s: string)
    ensures IsTrimmed(Trim(s))
    ensures IsTrimmed(s) ==> Trim(s) == s
  {
    TrimStartStarts(s);
    TrimEndKeepsStart(TrimStart(s));
  }

  predicate AllSpaces(s: string) {
    forall i :: 0 <= i < |s| ==> IsSpace(s[i])
  }

  lemma {:induction false} TrimStartDrops(s: string) returns (dropped: string)
    ensures AllSpaces(dropped) && s == dropped + TrimStart(s)
    decreases s
  {
    hide IsSpace;
    if s != "" && IsSpace(s[0]) {
      var rest := TrimStartDrops(s[1..]);
      dropped := [s[0]] + rest;
    } else {
      dropped := "";
    }
  }

  lemma {:induction false} TrimEndDrops(s: string) returns (dropped: string)
    ensures AllSpaces(dropped) && s == TrimEnd(s) + dropped
    decreases s
  {
    hide IsSpace;
    if s != "" && IsSpace(s[|s| - 1]) {
      var rest := TrimEndDrops(s[..|s| - 1]);
      dropped := rest + [s[|s| - 1]];
      assert s == s[..|s| - 1] + [s[|s| - 1]];
    } else {
      dropped := "";
    }
  }

  /** Trimming takes white space off both ends and nothing else. */
  lemma TrimOnlyDropsSpaces(s: string) returns (before: string, after: string)
    ensures AllSpaces(before) && AllSpaces(after) && s == before + Trim(s) + after
  {
    before := TrimStartDrops(s);
    after := TrimEndDrops(TrimStart(s));
  }

  function Upper(s: string): (r: string)
    ensures |r| == |s|
  {
    seq(|s|, i requires 0 <= i < |s| => if 'a' <= s[i] <= 'z' then s[i] - 'a' + 'A' else s[i])
  }

  // ---------- decimal numbers

  predicate IsDigit(c: char) {
    '0' <= c <= '9'
  }

  predicate AllDigits(s: string) {
    forall i :: 0 <= i < |s| ==> IsDigit(s[i])
  }

  function Digit(d: nat): char
    requires d < 10
  {
    '0' + d as char
  }

  function DigitValue(c: char): nat
    requires IsDigit(c)
  {
    (c - '0') as nat
  }

  /** How a number prints. */
  function Dec(n: nat): string {
    if n < 10 then [Digit(n)] else Dec(n / 10) + [Digit(n % 10)]
  }

  /** How a text of digits reads. */
  function ParseDec(s: string): nat
    requires AllDigits(s)
  {
    if s == "" then 0 else ParseDec(s[..|s| - 1]) * 10 + DigitValue(s[|s| - 1])
  }

  /** Reading a printed number gives it back. */
  lemma {:induction false} ParseDecDec(n: nat)
    ensures Dec(n) != "" && AllDigits(Dec(n)) && ParseDec(Dec(n)) == n
  {
    if n >= 10 {
      ParseDecDec(n / 10);
      assert Dec(n)[..|Dec(n)| - 1] == Dec(n / 10);
    } else {
      assert Dec(n)[..0] == "";
    }
  }

  /** Different numbers print differently. */
  lemma DecIsInjective(a: nat, b: nat)
    requires Dec(a) == Dec(b)
    ensures a == b
  {
    ParseDecDec(a);
    ParseDecDec(b);
  }

  lemma DecLengthIs(n: nat)
    ensures |Dec(n)| >= 4 <==> n >= 1000
  {
    if n >= 1000 {
      assert Dec(n) == Dec(n / 10) + [Digit(n % 10)];
      assert Dec(n / 10) == Dec(n / 10 / 10) + [Digit(n / 10 % 10)];
      assert Dec(n / 10 / 10) == Dec(n / 10 / 10 / 10) + [Digit(n / 10 / 10 % 10)];
      ParseDecDec(n / 10 / 10 / 10);
    } else if n >= 100 {
      assert Dec(n) == Dec(n / 10) + [Digit(n % 10)];
      assert Dec(n / 10) == Dec(n / 10 / 10) + [Digit(n / 10 % 10)];
    } else if n >= 10 {
      assert Dec(n) == Dec(n / 10) + [Digit(n % 10)];
    }
  }
}
