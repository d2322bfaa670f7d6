/** Clock times as text, as Go's strconv.Atoi and strings.SplitN read them. */
module ClockText {

  datatype Parsed = Value(n: int) | Invalid

  predicate IsDigit(c: char) {
    '0' <= c <= '9'
  }

  ghost predicate AllDigits(s: string) {
    forall c <- s :: IsDigit(c)
  }

  /** Decimal value of a digit string; Invalid if it holds anything else or nothing. */
  function Digits(s: string): (r: Parsed)
    ensures r.Value? <==> s != "" && AllDigits(s)
    ensures r.Value? ==> r.n >= 0
  {
    if s == "" || !IsDigit(s[|s| - 1]) then Invalid
    else
      var d := s[|s| - 1] as int - '0' as int;
      assert s == s[..|s| - 1] + [s[|s| - 1]];
      if |s| == 1 then Value(d)
      else match Digits(s[..|s| - 1])
        case Invalid => Invalid
        case Value(n) => Value(10 * n + d)
  }

  function Power10(n: nat): nat {
    if n == 0 then 1 else 10 * Power10(n - 1)
  }

  /** The sum over the digits of digit times its power of ten, counted from the right. */
  ghost function Positional(s: string): int
    requires AllDigits(s)
  {
    if s == "" then 0 else (s[0] as int - '0' as int) * Power10(|s| - 1) + Positional(s[1..])
  }

  lemma {:induction false} PositionalAppend(s: string, c: char)
    requires IsDigit(c) && AllDigits(s)
    ensures AllDigits(s + [c])
    ensures Positional(s + [c]) == 10 * Positional(s) + (c as int - '0' as int)
  {
    if s == "" {
      assert s + [c] == [c];
    } else {
      assert (s + [c])[1..] == s[1..] + [c];
      PositionalAppend(s[1..], c);
      TenTimes(s[0] as int - '0' as int, |s| - 1);
    }
  }

  lemma TenTimes(d: int, n: nat)
    ensures d * Power10(n + 1) == 10 * (d * Power10(n))
  {}

  /** Digits are read by position. */
  lemma {:induction false} DigitsTheorem(s: string)
    requires s != "" && AllDigits(s)
    ensures Digits(s) == Value(Positional(s))
  {
    var n := |s| - 1;
    assert s == s[..n] + [s[n]];
    PositionalAppend(s[..n], s[n]);
    if n > 0 {
      DigitsTheorem(s[..n]);
    }
  }

  /** An optionally signed decimal integer. */
  function Atoi(s: string): Parsed {
    if s != "" && s[0] == '-' then
      match Digits(s[1..])
      case Invalid => Invalid
      case Value(n) => Value(-n)
    else if s != "" && s[0] == '+' then Digits(s[1..])
    else Digits(s)
  }

  /** t are the digits of s behind its sign. */
  ghost predicate Signed(s: string, sign: int, t: string) {
    && t != "" && AllDigits(t)
    && ((sign == 1 && (s == t || s == "+" + t)) || (sign == -1 && s == "-" + t))
  }

  /** Exactly the optionally signed digit strings are read, each at its value by position. */
  lemma AtoiTheorem(s: string, n: int)
    ensures Atoi(s) == Value(n) <==> exists sign, t :: Signed(s, sign, t) && n == sign * Positional(t)
  {
    if Atoi(s) == Value(n) {
      var signed := s[0] == '-' || s[0] == '+';
      var t := if signed then s[1..] else s;
      assert signed ==> s == [s[0]] + t;
      DigitsTheorem(t);
      assert Signed(s, if s[0] == '-' then -1 else 1, t);
    }
    forall sign, t | Signed(s, sign, t)
      ensures Atoi(s) == Value(sign * Positional(t))
    {
      DigitsTheorem(t);
      assert IsDigit(t[0]);
      assert s != t ==> s[1..] == t;
    }
  }

  /** Position of the first occurrence of c, or |s|. */
  function IndexOf(s: string, c: char): (r: nat)
    ensures r <= |s|
    ensures c !in s[..r]
    ensures r < |s| ==> s[r] == c
  {
    if s == "" || s[0] == c then 0
    else
      var r := 1 + IndexOf(s[1..], c);
      assert s[..r] == [s[0]] + s[1..][..r - 1];
      r
  }

  /** Minutes since midnight of "HH:MM". */
  function ParseHHMM(s: string): (r: Parsed)
    ensures r.Value? ==> 0 <= r.n < 1440
  {
    var colon := IndexOf(s, ':');
    if colon == |s| then Invalid
    else
      var h, m := Atoi(s[..colon]), Atoi(s[colon + 1..]);
      if h.Value? && 0 <= h.n <= 23 && m.Value? && 0 <= m.n <= 59 then Value(h.n * 60 + m.n)
      else Invalid
  }

  /** s is a clock time: an hour and a minute in range, around its first colon. */
  ghost predicate IsTime(s: string, colon: nat, h: int, m: int) {
    && colon < |s| && s[colon] == ':' && ':' !in s[..colon]
    && Atoi(s[..colon]) == Value(h) && 0 <= h <= 23
    && Atoi(s[colon + 1..]) == Value(m) && 0 <= m <= 59
  }

  /** Exactly the clock times are read, each as the minutes since midnight. */
  lemma TimeTheorem(s: string, n: int)
    ensures ParseHHMM(s) == Value(n) <==> exists colon, h, m :: IsTime(s, colon, h, m) && n == 60 * h + m
  {
    var at := IndexOf(s, ':');
    forall colon, h, m | IsTime(s, colon, h, m)
      ensures colon == at
    {
      FirstAt(s, ':', colon);
    }
    if ParseHHMM(s).Value? {
      assert IsTime(s, at, Atoi(s[..at]).n, Atoi(s[at + 1..]).n);
    }
  }

  lemma FirstAt(s: string, c: char, at: nat)
    requires at < |s| && s[at] == c && c !in s[..at]
    ensures IndexOf(s, c) == at
  {
    var r := IndexOf(s, c);
    assert forall k :: 0 <= k < at ==> s[..at][k] == s[k];
    assert forall k :: 0 <= k < r ==> s[..r][k] == s[k];
  }

  /** The minutes used where a parse error is ignored: an unreadable time counts as midnight. */
  function Minutes(s: string): (r: nat)
    ensures r < 1440
  {
    match ParseHHMM(s)
    case Value(n) => n
    case Invalid => 0
  }
}
