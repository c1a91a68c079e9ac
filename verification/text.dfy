/** String helpers the program takes from Python's `str`: `sep.join`,
    `s.split(c)`, `s.lower()` and the decimal rendering of integers.
    Lower-casing is modelled on ASCII letters only. */
module Text {
  import opened Wrappers

  // ---------------------------------------------------------------------------
  // join and split
  // ---------------------------------------------------------------------------

  /** `sep.join(parts)`. */
  function Join(parts: seq<string>, sep: string): string
    decreases |parts|
  {
    if |parts| == 0 then ""
    else if |parts| == 1 then parts[0]
    else parts[0] + sep + Join(parts[1..], sep)
  }

  /** `s.split(c)` for a one-character separator: never empty, one more
      part than there are separators. */
  function Split(s: string, c: char): (parts: seq<string>)
    ensures |parts| >= 1
    decreases |s|
  {
    if |s| == 0 then [""]
    else if s[0] == c then [""] + Split(s[1..], c)
    else
      var rest := Split(s[1..], c);
      [[s[0]] + rest[0]] + rest[1..]
  }

  /** Each part with the same text in front of it. */
  function Prefixed(t: string, parts: seq<string>): (r: seq<string>)
    ensures |r| == |parts|
    ensures forall i :: 0 <= i < |parts| ==> r[i] == t + parts[i]
  {
    seq(|parts|, i requires 0 <= i < |parts| => t + parts[i])
  }

  predicate NoPartContains(parts: seq<string>, c: char) {
    forall i :: 0 <= i < |parts| ==> c !in parts[i]
  }

  /** Text in front of the input ends up in front of the first part. */
  lemma {:induction false} SplitPrefix(t: string, x: string, c: char)
    requires c !in t
    ensures Split(t + x, c) == [t + Split(x, c)[0]] + Split(x, c)[1..]
    decreases |t|
  {
    if |t| == 0 {
      var p := Split(x, c);
      assert t + x == x && t + p[0] == p[0];
      assert p == [p[0]] + p[1..];
    } else {
      var s := t + x;
      assert s[0] == t[0] && s[1..] == t[1..] + x;
      SplitPrefix(t[1..], x, c);
      assert [t[0]] + (t[1..] + Split(x, c)[0]) == t + Split(x, c)[0];
    }
  }

  /** Splitting a separator-joined list gives back the list; with a
      separator longer than `c`, its tail stays in front of every later part. */
  lemma {:induction false} SplitJoin(parts: seq<string>, c: char, tail: string)
    requires |parts| >= 1
    requires NoPartContains(parts, c)
    requires c !in tail
    ensures Split(Join(parts, [c] + tail), c) == [parts[0]] + Prefixed(tail, parts[1..])
    decreases |parts|
  {
    var sep := [c] + tail;
    if |parts| == 1 {
      SplitNoSeparator(parts[0], c);
      assert Prefixed(tail, parts[1..]) == [];
    } else {
      var rest := parts[1..];
      var joined := Join(rest, sep);
      assert NoPartContains(rest, c) by {
        forall i | 0 <= i < |rest| ensures c !in rest[i] {
          assert rest[i] == parts[i + 1];
        }
      }
      SplitJoin(rest, c, tail);
      SplitPrefix(tail, joined, c);
      PrefixedCons(tail, rest);
      assert Split(tail + joined, c) == Prefixed(tail, rest);
      assert Join(parts, sep) == parts[0] + ([c] + (tail + joined));
      SplitAfterFirst(parts[0], tail + joined, c);
    }
  }

  lemma PrefixedCons(t: string, parts: seq<string>)
    requires |parts| >= 1
    ensures Prefixed(t, parts) == [t + parts[0]] + Prefixed(t, parts[1..])
  {
  }

  /** Without a separator the whole input is the only part. */
  lemma {:induction false} SplitNoSeparator(s: string, c: char)
    requires c !in s
    ensures Split(s, c) == [s]
    decreases |s|
  {
    if |s| > 0 {
      assert c !in s[1..];
      SplitNoSeparator(s[1..], c);
      assert [s[0]] + s[1..] == s;
    }
  }

  /** The first separator of `a + [c] + b`, with `c` not in `a`, ends the first part. */
  lemma {:induction false} SplitAfterFirst(a: string, b: string, c: char)
    requires c !in a
    ensures Split(a + ([c] + b), c) == [a] + Split(b, c)
    decreases |a|
  {
    var s := a + ([c] + b);
    if |a| == 0 {
      assert s == [c] + b && s[1..] == b;
    } else {
      assert s[0] == a[0] && s[1..] == a[1..] + ([c] + b);
      SplitAfterFirst(a[1..], b, c);
      assert [a[0]] + a[1..] == a;
    }
  }

  /** Plain round trip: `s.split(c)` undoes `c.join(parts)`. */
  lemma SplitJoinPlain(parts: seq<string>, c: char)
    requires |parts| >= 1
    requires NoPartContains(parts, c)
    ensures Split(Join(parts, [c]), c) == parts
  {
    assert [c] + "" == [c];
    SplitJoin(parts, c, "");
    var later := parts[1..];
    forall i | 0 <= i < |later| ensures Prefixed("", later)[i] == later[i] {
      assert "" + later[i] == later[i];
    }
    assert Prefixed("", later) == later;
    assert [parts[0]] + later == parts;
  }

  // ---------------------------------------------------------------------------
  // case
  // ---------------------------------------------------------------------------

  function LowerChar(c: char): char {
    if 'A' <= c <= 'Z' then (c as int - 'A' as int + 'a' as int) as char else c
  }

  function UpperChar(c: char): char {
    if 'a' <= c <= 'z' then (c as int - 'a' as int + 'A' as int) as char else c
  }

  /** `s.lower()`, on ASCII letters. */
  function Lower(s: string): (r: string)
    ensures |r| == |s|
  {
    seq(|s|, i requires 0 <= i < |s| => LowerChar(s[i]))
  }

  /** `s.upper()`, on ASCII letters. */
  function Upper(s: string): (r: string)
    ensures |r| == |s|
  {
    seq(|s|, i requires 0 <= i < |s| => UpperChar(s[i]))
  }

  predicate IsLower(s: string) {
    Lower(s) == s
  }

  /** Exactly the letters `A` to `Z` change, each to its lower-case letter. */
  lemma LowerLetters(s: string)
    ensures forall i :: 0 <= i < |s| ==>
      if 'A' <= s[i] <= 'Z' then Lower(s)[i] as int == s[i] as int + 32 else Lower(s)[i] == s[i]
  {
  }

  lemma LowerIdempotent(s: string)
    ensures Lower(Lower(s)) == Lower(s)
  {
  }

  /** Lower-casing forgets any earlier change of case. */
  lemma LowerOfUpper(s: string)
    ensures Lower(Upper(s)) == Lower(s)
  {
  }

  // ---------------------------------------------------------------------------
  // decimal numbers
  // ---------------------------------------------------------------------------

  predicate IsDigit(c: char) {
    '0' <= c <= '9'
  }

  predicate AllDigits(s: string) {
    forall i :: 0 <= i < |s| ==> IsDigit(s[i])
  }

  function DigitChar(d: nat): (c: char)
    requires d < 10
    ensures IsDigit(c)
  {
    ('0' as int + d) as char
  }

  function DigitValue(c: char): (d: nat)
    requires IsDigit(c)
    ensures d < 10 && DigitChar(d) == c
  {
    c as int - '0' as int
  }

  /** The number a string of decimal digits spells, most significant first. */
  function DigitsValue(s: string): nat
    requires AllDigits(s)
    decreases |s|
  {
    if |s| == 0 then 0 else DigitsValue(s[..|s| - 1]) * 10 + DigitValue(s[|s| - 1])
  }

  /** `str(n)` for a natural number: shortest digits, no leading zero. */
  function NatToDecimal(n: nat): (r: string)
    ensures |r| >= 1 && AllDigits(r)
    ensures |r| > 1 ==> r[0] != '0'
    decreases n
  {
    if n < 10 then [DigitChar(n)] else NatToDecimal(n / 10) + [DigitChar(n % 10)]
  }

  lemma {:induction false} NatToDecimalRoundTrip(n: nat)
    ensures DigitsValue(NatToDecimal(n)) == n
    decreases n
  {
    var s := NatToDecimal(n);
    if n >= 10 {
      NatToDecimalRoundTrip(n / 10);
      assert s[..|s| - 1] == NatToDecimal(n / 10);
    }
  }

  /** `str(i)` for any integer. */
  function IntToDecimal(i: int): string {
    if i < 0 then "-" + NatToDecimal(-i) else NatToDecimal(i)
  }

  /** `int(s)` restricted to an optional minus sign followed by digits. */
  function ParseInt(s: string): Option<int> {
    if |s| >= 2 && s[0] == '-' && AllDigits(s[1..]) then Some(-(DigitsValue(s[1..]) as int))
    else if |s| >= 1 && AllDigits(s) then Some(DigitsValue(s))
    else None
  }

  lemma IntToDecimalRoundTrip(i: int)
    ensures ParseInt(IntToDecimal(i)) == Some(i)
  {
    var s := IntToDecimal(i);
    if i < 0 {
      NatToDecimalRoundTrip(-i);
      assert s[1..] == NatToDecimal(-i);
      assert |s| >= 2 && s[0] == '-';
    } else {
      NatToDecimalRoundTrip(i);
    }
  }

  /** The rendering of an integer holds only digits and a leading minus. */
  lemma IntToDecimalChars(i: int)
    ensures forall k :: 0 <= k < |IntToDecimal(i)| ==> IntToDecimal(i)[k] == '-' || IsDigit(IntToDecimal(i)[k])
  {
    if i < 0 {
      var d := NatToDecimal(-i);
      assert forall k :: 1 <= k < |"-" + d| ==> ("-" + d)[k] == d[k - 1];
    }
  }

  function Pow10(w: nat): (p: nat)
    ensures p >= 1
  {
    if w == 0 then 1 else 10 * Pow10(w - 1)
  }

  /** `n` written with exactly `w` digits, zero padded on the left (strftime's `%02d`). */
  function PadDecimal(n: nat, w: nat): (r: string)
    ensures |r| == w && AllDigits(r)
    decreases w
  {
    if w == 0 then "" else PadDecimal(n / 10, w - 1) + [DigitChar(n % 10)]
  }

  lemma {:induction false} PadDecimalValue(n: nat, w: nat)
    requires n < Pow10(w)
    ensures DigitsValue(PadDecimal(n, w)) == n
    decreases w
  {
    if w > 0 {
      assert n / 10 < Pow10(w - 1);
      PadDecimalValue(n / 10, w - 1);
      var s := PadDecimal(n, w);
      assert s[..|s| - 1] == PadDecimal(n / 10, w - 1);
    }
  }

  lemma {:induction false} PadDigitsValue(s: string)
    requires AllDigits(s)
    ensures DigitsValue(s) < Pow10(|s|)
    ensures PadDecimal(DigitsValue(s), |s|) == s
    decreases |s|
  {
    if |s| > 0 {
      var init := s[..|s| - 1];
      PadDigitsValue(init);
      var v := DigitsValue(s);
      assert v / 10 == DigitsValue(init) && v % 10 == DigitValue(s[|s| - 1]);
      assert init + [s[|s| - 1]] == s;
    }
  }
}
