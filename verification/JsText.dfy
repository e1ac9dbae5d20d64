/** The JavaScript string functions the services use. */
module JsText {
  import opened Wrappers

  /** White space and line terminators, as `trim` and `parseInt` skip them. */
  predicate IsSpace(c: char) {
    || c in {' ', '\t', '\n', '\r', '\U{000B}', '\U{000C}', '\U{00A0}', '\U{1680}'}
    || c in {'\U{2028}', '\U{2029}', '\U{202F}', '\U{205F}', '\U{3000}', '\U{FEFF}'}
    || '\U{2000}' <= c <= '\U{200A}'
  }

  function TrimStart(s: string): string {
    if s != [] && IsSpace(s[0]) then TrimStart(s[1..]) else s
  }

  function TrimEnd(s: string): string {
    if s != [] && IsSpace(s[|s| - 1]) then TrimEnd(s[..|s| - 1]) else s
  }

  function Trim(s: string): string {
    TrimEnd(TrimStart(s))
  }

  predicate AllSpace(s: string) {
    forall c <- s :: IsSpace(c)
  }

  lemma {:induction false} TrimStartCuts(s: string) returns (front: string)
    ensures s == front + TrimStart(s) && AllSpace(front)
    ensures TrimStart(s) != [] ==> !IsSpace(TrimStart(s)[0])
  {
    if s != [] && IsSpace(s[0]) {
      front := TrimStartCuts(s[1..]);
      assert s == [s[0]] + s[1..] == ([s[0]] + front) + TrimStart(s);
      front := [s[0]] + front;
    } else {
      front := [];
    }
  }

  lemma {:induction false} TrimEndCuts(s: string) returns (back: string)
    ensures s == TrimEnd(s) + back && AllSpace(back)
    ensures TrimEnd(s) != [] ==> !IsSpace(TrimEnd(s)[|TrimEnd(s)| - 1])
  {
    if s != [] && IsSpace(s[|s| - 1]) {
      var last := s[|s| - 1];
      back := TrimEndCuts(s[..|s| - 1]);
      assert s == s[..|s| - 1] + [last] == TrimEnd(s) + (back + [last]);
      back := back + [last];
    } else {
      back := [];
    }
  }

  lemma {:induction false} TrimEndOf(s: string, back: string)
    requires AllSpace(back) && s != [] && !IsSpace(s[|s| - 1])
    ensures TrimEnd(s + back) == s
  {
    if back == [] {
      assert s + back == s;
    } else {
      var n := |back| - 1;
      assert (s + back)[|s + back| - 1] == back[n];
      assert back[n] in back && forall c <- back[..n] :: c in back;
      assert (s + back)[..|s + back| - 1] == s + back[..n];
      TrimEndOf(s, back[..n]);
    }
  }

  lemma {:induction false} TrimStartOf(front: string, s: string)
    requires AllSpace(front) && s != [] && !IsSpace(s[0])
    ensures TrimStart(front + s) == s
  {
    if front == [] {
      assert front + s == s;
    } else {
      assert front[0] in front && forall c <- front[1..] :: c in front;
      assert (front + s)[1..] == front[1..] + s;
      TrimStartOf(front[1..], s);
    }
  }

  /** What is left is the one middle part that neither begins nor ends with space. */
  lemma TrimOf(front: string, s: string, back: string)
    requires AllSpace(front) && AllSpace(back) && s != [] && !IsSpace(s[0]) && !IsSpace(s[|s| - 1])
    ensures Trim(front + s + back) == s
  {
    assert front + s + back == front + (s + back);
    TrimStartOf(front, s + back);
    TrimEndOf(s, back);
  }

  /** `s.split(sep)` for a single character. */
  function Split(s: string, sep: char): (parts: seq<string>)
    ensures parts != []
  {
    if s == [] then [""]
    else
      var rest := Split(s[1..], sep);
      if s[0] == sep then [""] + rest else [[s[0]] + rest[0]] + rest[1..]
  }

  lemma {:induction false} SplitNone(a: string, sep: char)
    requires sep !in a
    ensures Split(a, sep) == [a]
  {
    if a != [] {
      SplitNone(a[1..], sep);
      assert [a[0]] + a[1..] == a;
    }
  }

  lemma {:induction false} SplitFirst(a: string, sep: char, b: string)
    requires sep !in a
    ensures Split(a + [sep] + b, sep) == [a] + Split(b, sep)
  {
    var s := a + [sep] + b;
    if a == [] {
      assert s[1..] == b;
    } else {
      assert s[1..] == a[1..] + [sep] + b;
      SplitFirst(a[1..], sep, b);
      assert s[0] == a[0] && [a[0]] + a[1..] == a;
      assert Split(s[1..], sep)[1..] == Split(b, sep);
    }
  }

  /** A first part that does not hold the separator can be read off. */
  lemma FirstSeparatorSplits(a: string, sep: char, x: string, b: string, y: string)
    requires sep !in a && sep !in b
    ensures a + [sep] + x == b + [sep] + y <==> a == b && x == y
  {
    var s, t := a + [sep] + x, b + [sep] + y;
    if s == t {
      SplitFirst(a, sep, x);
      SplitFirst(b, sep, y);
      assert Split(s, sep)[0] == a && Split(t, sep)[0] == b;
      assert s[|a| + 1..] == x && t[|b| + 1..] == y;
    }
  }

  predicate IsDigit(c: char) {
    '0' <= c <= '9'
  }

  predicate AllDigits(s: string) {
    s != [] && forall c <- s :: IsDigit(c)
  }

  function DigitPrefix(s: string): (d: string)
    ensures forall c <- d :: IsDigit(c)
  {
    if s != [] && IsDigit(s[0]) then [s[0]] + DigitPrefix(s[1..]) else []
  }

  function DigitsValue(s: string): nat
    requires forall c <- s :: IsDigit(c)
  {
    if s == [] then 0
    else
      assert forall c <- s[..|s| - 1] :: c in s;
      assert IsDigit(s[|s| - 1]);
      DigitsValue(s[..|s| - 1]) * 10 + (s[|s| - 1] as int - '0' as int)
  }

  /** `parseInt(s, 10)`; None is NaN. */
  function ParseInt(s: string): Option<int> {
    ParseTrimmed(TrimStart(s))
  }

  function ParseTrimmed(t: string): Option<int> {
    var signed := t != [] && t[0] in {'+', '-'};
    var digits := DigitPrefix(if signed then t[1..] else t);
    if digits == [] then None
    else
      var value: int := DigitsValue(digits);
      Some(if signed && t[0] == '-' then -value else value)
  }

  lemma {:induction false} DigitPrefixStops(s: string, tail: string)
    requires (forall c <- s :: IsDigit(c)) && (tail != [] ==> !IsDigit(tail[0]))
    ensures DigitPrefix(s + tail) == s
  {
    if s == [] {
      assert s + tail == tail;
    } else {
      assert s[0] in s && forall c <- s[1..] :: c in s;
      assert (s + tail)[1..] == s[1..] + tail;
      DigitPrefixStops(s[1..], tail);
      assert [s[0]] + s[1..] == s;
    }
  }

  predicate IsSign(sign: string) {
    sign == "" || sign == "+" || sign == "-"
  }

  function Signed(sign: string, value: nat): int {
    if sign == "-" then -(value as int) else value
  }

  lemma ParseWithSign(c: char, rest: string)
    requires c == '+' || c == '-'
    ensures var digits := DigitPrefix(rest);
      ParseTrimmed([c] + rest) ==
        if digits == [] then None else Some(if c == '-' then -(DigitsValue(digits) as int) else DigitsValue(digits))
  {
    assert ([c] + rest)[1..] == rest;
  }

  lemma ParseSigned(sign: string, rest: string)
    requires IsSign(sign) && (sign == "" && rest != [] ==> rest[0] !in {'+', '-'})
    ensures var digits := DigitPrefix(rest);
      ParseTrimmed(sign + rest) == if digits == [] then None else Some(Signed(sign, DigitsValue(digits)))
  {
    if sign == "" {
      assert sign + rest == rest;
    } else {
      assert sign == [sign[0]];
      ParseWithSign(sign[0], rest);
    }
  }

  /** `parseInt` skips space, reads a sign and the digits, and ignores what follows them. */
  lemma ParseIntReads(front: string, sign: string, digits: string, tail: string)
    requires AllSpace(front) && AllDigits(digits) && IsSign(sign)
    requires tail != [] ==> !IsDigit(tail[0])
    ensures ParseInt(front + (sign + (digits + tail))) == Some(Signed(sign, DigitsValue(digits)))
  {
    assert digits[0] in digits;
    assert (sign + (digits + tail))[0] == if sign == "" then digits[0] else sign[0];
    TrimStartOf(front, sign + (digits + tail));
    DigitPrefixStops(digits, tail);
    ParseSigned(sign, digits + tail);
  }

  /** Without a digit after space and sign there is no number. */
  lemma ParseIntRefuses(front: string, sign: string, tail: string)
    requires AllSpace(front) && IsSign(sign) && sign + tail != ""
    requires tail != [] ==> !IsDigit(tail[0])
    requires sign == "" ==> !IsSpace(tail[0]) && tail[0] !in {'+', '-'}
    ensures ParseInt(front + (sign + tail)) == None
  {
    assert (sign + tail)[0] == if sign == "" then tail[0] else sign[0];
    TrimStartOf(front, sign + tail);
    ParseSigned(sign, tail);
  }

  lemma {:induction false} DigitPrefixAll(s: string)
    requires forall c <- s :: IsDigit(c)
    ensures DigitPrefix(s) == s
  {
    if s != [] {
      DigitPrefixAll(s[1..]);
    }
  }

  lemma ParseDigits(s: string)
    requires AllDigits(s)
    ensures ParseInt(s) == Some(DigitsValue(s))
  {
    assert IsDigit(s[0]);
    DigitPrefixAll(s);
  }
}
