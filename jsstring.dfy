/**
  The JavaScript string built-ins the spreadsheet normaliser relies on:
  `trim`, `toLowerCase`, `split` with a one-character separator and
  `parseInt(value, 10)`, together with the decimal rendering of a natural
  number used for the `Row i` labels.
 */
module JsString {
  import opened Wrappers

  /** ECMAScript WhiteSpace and LineTerminator code points: what `trim` strips
      and what `parseInt` skips before the number. */
  predicate IsSpace(c: char) {
    c in SpaceChars || '\U{2000}' <= c <= '\U{200A}'
  }

  const SpaceChars: set<char> :=
    {'\t', '\n', '\U{000B}', '\U{000C}', '\r', ' ', '\U{00A0}', '\U{1680}',
     '\U{2028}', '\U{2029}', '\U{202F}', '\U{205F}', '\U{3000}', '\U{FEFF}'}

  predicate AllSpace(s: string) {
    forall k :: 0 <= k < |s| ==> IsSpace(s[k])
  }

  /** The end of the run of white space that starts at `i`. */
  function SpaceEnd(s: string, i: nat): (j: nat)
    requires i <= |s|
    ensures i <= j <= |s|
    decreases |s| - i
  {
    if i < |s| && IsSpace(s[i]) then SpaceEnd(s, i + 1) else i
  }

  /** The run found by `SpaceEnd` is white space, and it cannot be extended. */
  lemma {:induction false} SpaceEndSpec(s: string, i: nat)
    requires i <= |s|
    ensures forall k :: i <= k < SpaceEnd(s, i) ==> IsSpace(s[k])
    ensures SpaceEnd(s, i) == |s| || !IsSpace(s[SpaceEnd(s, i)])
    decreases |s| - i
  {
    if i < |s| && IsSpace(s[i]) {
      SpaceEndSpec(s, i + 1);
    }
  }

  /** The start of the run of white space that ends at `j`. */
  function SpaceStart(s: string, j: nat): (i: nat)
    requires j <= |s|
    ensures i <= j
    decreases j
  {
    if j > 0 && IsSpace(s[j - 1]) then SpaceStart(s, j - 1) else j
  }

  /** The run found by `SpaceStart` is white space, and it cannot be extended. */
  lemma {:induction false} SpaceStartSpec(s: string, j: nat)
    requires j <= |s|
    ensures forall k :: SpaceStart(s, j) <= k < j ==> IsSpace(s[k])
    ensures SpaceStart(s, j) == 0 || !IsSpace(s[SpaceStart(s, j) - 1])
    decreases j
  {
    if j > 0 && IsSpace(s[j - 1]) {
      SpaceStartSpec(s, j - 1);
    }
  }

  /** `s` with its leading white space removed. */
  function TrimStart(s: string): string {
    s[SpaceEnd(s, 0)..]
  }

  /** `s` with its trailing white space removed. */
  function TrimEnd(s: string): string {
    s[..SpaceStart(s, |s|)]
  }

  /** `String.prototype.trim`: `s` with white space removed at both ends. */
  function Trim(s: string): string {
    TrimEnd(TrimStart(s))
  }

  /** What `trim` leaves: no white space at either end, nothing at all
      exactly when the text was blank, and only characters of the text. */
  lemma TrimSpec(s: string)
    ensures |Trim(s)| <= |s|
    ensures Trim(s) == [] || (!IsSpace(Trim(s)[0]) && !IsSpace(Trim(s)[|Trim(s)| - 1]))
    ensures Trim(s) == [] <==> AllSpace(s)
    ensures multiset(Trim(s)) <= multiset(s)
  {
    var a := SpaceEnd(s, 0);
    var b := SpaceStart(s[a..], |s| - a);
    TrimBounds(s, a, b);
    SliceContent(s, a, a + b);
    TrimEnds(s, a, b);
    if b == 0 {
      SpaceEndSpec(s, 0);
      SpaceStartSpec(s[a..], |s| - a);
      BlankAround(s, a);
    }
  }

  lemma TrimBounds(s: string, a: nat, b: nat)
    requires a == SpaceEnd(s, 0) && b == SpaceStart(s[a..], |s| - a)
    ensures a + b <= |s| && Trim(s) == s[a..a + b]
  {
  }

  /** `trim` cuts away white space only, and as much as there is: the result
      is the slice of `s` between a blank prefix and a blank suffix, and it
      neither starts nor ends with white space. */
  lemma TrimIsSlice(s: string)
    ensures exists a, b ::
              0 <= a <= b <= |s| && Trim(s) == s[a..b] &&
              (forall k :: 0 <= k < a ==> IsSpace(s[k])) &&
              (forall k :: b <= k < |s| ==> IsSpace(s[k])) &&
              (a < b ==> !IsSpace(s[a]) && !IsSpace(s[b - 1]))
  {
    var a := SpaceEnd(s, 0);
    var b := SpaceStart(s[a..], |s| - a);
    TrimBounds(s, a, b);
    TrimEnds(s, a, b);
    SpaceEndSpec(s, 0);
    SpaceStartSpec(s[a..], |s| - a);
    forall k | a + b <= k < |s| ensures IsSpace(s[k]) {
      assert s[k] == s[a..][k - a];
    }
    assert Trim(s) == s[a..a + b];
  }

  lemma TrimEnds(s: string, a: nat, b: nat)
    requires a == SpaceEnd(s, 0) && b == SpaceStart(s[a..], |s| - a)
    requires a + b <= |s| && Trim(s) == s[a..a + b]
    ensures b > 0 ==> !IsSpace(s[a]) && !IsSpace(s[a + b - 1])
  {
    SpaceEndSpec(s, 0);
    SpaceStartSpec(s[a..], |s| - a);
    if b > 0 {
      assert s[a..][b - 1] == s[a + b - 1];
    }
  }

  /** White space before `a` and white space from `a` on make a blank text. */
  lemma BlankAround(s: string, a: nat)
    requires a <= |s|
    requires forall k :: 0 <= k < a ==> IsSpace(s[k])
    requires forall k :: 0 <= k < |s[a..]| ==> IsSpace(s[a..][k])
    ensures AllSpace(s)
  {
    forall k | a <= k < |s| ensures IsSpace(s[k]) {
      assert s[k] == s[a..][k - a];
    }
  }

  /** A slice holds only characters of the text it is cut from. */
  lemma SliceContent(s: string, i: nat, j: nat)
    requires i <= j <= |s|
    ensures multiset(s[i..j]) <= multiset(s)
  {
    assert s == s[..i] + s[i..j] + s[j..];
    assert multiset(s) == multiset(s[..i]) + multiset(s[i..j]) + multiset(s[j..]);
  }

  lemma TrimIdempotent(s: string)
    ensures Trim(Trim(s)) == Trim(s)
  {
    var a := SpaceEnd(s, 0);
    var b := SpaceStart(s[a..], |s| - a);
    TrimBounds(s, a, b);
    TrimEnds(s, a, b);
    var r := Trim(s);
    if r != [] {
      assert r[0] == s[a] && r[|r| - 1] == s[a + b - 1];
    }
    TrimStartNoSpace(r);
    TrimEndNoSpace(r);
  }

  /** Text that does not start with white space is left alone by `TrimStart`. */
  lemma TrimStartNoSpace(s: string)
    requires s == [] || !IsSpace(s[0])
    ensures TrimStart(s) == s
  {
    assert s[0..] == s;
  }

  /** Text that does not end with white space is left alone by `TrimEnd`. */
  lemma TrimEndNoSpace(s: string)
    requires s == [] || !IsSpace(s[|s| - 1])
    ensures TrimEnd(s) == s
  {
    assert s[..|s|] == s;
  }

  /** `toLowerCase` on one character (ASCII letters only). */
  function LowerChar(c: char): char {
    if 'A' <= c <= 'Z' then (c as int + 32) as char else c
  }

  /** No ASCII upper-case letter occurs in `s`. */
  predicate NoUpper(s: string) {
    forall k :: 0 <= k < |s| ==> !('A' <= s[k] <= 'Z')
  }

  function ToLower(s: string): (r: string)
    ensures |r| == |s|
    ensures forall k :: 0 <= k < |s| ==> r[k] == LowerChar(s[k])
    ensures NoUpper(r)
  {
    seq(|s|, k requires 0 <= k < |s| => LowerChar(s[k]))
  }

  /** `s` with every occurrence of `c` deleted (a global replacement by
      the empty string). */
  function RemoveAll(s: string, c: char): (r: string)
    ensures c !in r
    decreases |s|
  {
    if s == [] then []
    else
      var r := RemoveAll(s[..|s| - 1], c);
      if s[|s| - 1] == c then r else r + [s[|s| - 1]]
  }

  /** Exactly the occurrences of `c` go: every other character stays as
      often as it was there. */
  lemma {:induction false} RemoveAllSpec(s: string, c: char)
    ensures multiset(RemoveAll(s, c)) == multiset(s)[c := 0]
    decreases |s|
  {
    if s != [] {
      var init, x := s[..|s| - 1], s[|s| - 1];
      RemoveAllSpec(init, c);
      assert s == init + [x];
      assert multiset(s) == multiset(init) + multiset{x};
    }
  }

  /** Text without `c` is left alone. */
  lemma {:induction false} RemoveAllAbsent(s: string, c: char)
    requires c !in s
    ensures RemoveAll(s, c) == s
    decreases |s|
  {
    if s != [] {
      var init := s[..|s| - 1];
      assert c !in init;
      RemoveAllAbsent(init, c);
      assert s == init + [s[|s| - 1]];
    }
  }

  lemma {:induction false} RemoveAllKeepsNoUpper(s: string, c: char)
    requires NoUpper(s)
    ensures NoUpper(RemoveAll(s, c))
    decreases |s|
  {
    if s != [] {
      RemoveAllKeepsNoUpper(s[..|s| - 1], c);
    }
  }

  lemma RemoveAllSnoc(s: string, x: char, c: char)
    ensures RemoveAll(s + [x], c) == RemoveAll(s, c) + (if x == c then [] else [x])
  {
    assert (s + [x])[..|s|] == s;
  }

  /** Removing a character from a concatenation removes it from both parts. */
  lemma {:induction false} RemoveAllConcat(s: string, t: string, c: char)
    ensures RemoveAll(s + t, c) == RemoveAll(s, c) + RemoveAll(t, c)
    decreases |t|
  {
    if t != [] {
      var init, x := t[..|t| - 1], t[|t| - 1];
      RemoveAllConcat(s, init, c);
      assert s + t == (s + init) + [x];
      assert t == init + [x];
      RemoveAllSnoc(s + init, x, c);
      RemoveAllSnoc(init, x, c);
      var tail := if x == c then [] else [x];
      calc {
        RemoveAll(s + t, c);
        RemoveAll(s + init, c) + tail;
        (RemoveAll(s, c) + RemoveAll(init, c)) + tail;
        RemoveAll(s, c) + (RemoveAll(init, c) + tail);
        RemoveAll(s, c) + RemoveAll(t, c);
      }
    } else {
      assert s + t == s;
    }
  }

  /** Index of the first occurrence of `c` in `s`. */
  function IndexOf(s: string, c: char): (k: nat)
    requires c in s
    ensures k < |s| && s[k] == c && c !in s[..k]
  {
    if s[0] == c then 0
    else
      var k := 1 + IndexOf(s[1..], c);
      assert s[..k] == [s[0]] + s[1..][..k - 1];
      k
  }

  /** Splitting at a one-character separator: the pieces between the
      occurrences of `sep`, always at least one. */
  function Split(s: string, sep: char): (parts: seq<string>)
    ensures |parts| >= 1
    ensures forall k :: 0 <= k < |parts| ==> sep !in parts[k]
    decreases |s|
  {
    if sep !in s then [s]
    else
      var k := IndexOf(s, sep);
      [s[..k]] + Split(s[k + 1..], sep)
  }

  /** A text that starts with a separator-free piece and a separator splits
      into that piece and the split of the rest. */
  lemma SplitAfterFirst(x: string, sep: char, y: string)
    requires sep !in x
    ensures Split(x + [sep] + y, sep) == [x] + Split(y, sep)
  {
    var s := x + [sep] + y;
    assert s[|x|] == sep;
    var k := IndexOf(s, sep);
    assert k == |x|;
    assert s[..k] == x;
    assert s[k + 1..] == y;
  }

  /** The pieces concatenated with `sep` between neighbours. */
  function Join(parts: seq<string>, sep: char): string
    decreases |parts|
  {
    if parts == [] then []
    else if |parts| == 1 then parts[0]
    else parts[0] + [sep] + Join(parts[1..], sep)
  }

  /** Joining the pieces with the separator gives the text back. */
  lemma {:induction false} JoinSplit(s: string, sep: char)
    ensures Join(Split(s, sep), sep) == s
    decreases |s|
  {
    if sep in s {
      var k := IndexOf(s, sep);
      JoinSplit(s[k + 1..], sep);
      var rest := Split(s[k + 1..], sep);
      assert Split(s, sep) == [s[..k]] + rest;
      JoinCons(s[..k], rest, sep);
      AroundIndex(s, k);
    }
  }

  /** A text is its part before index `k`, the character there and its part
      after. */
  lemma AroundIndex(s: string, k: nat)
    requires k < |s|
    ensures s == s[..k] + [s[k]] + s[k + 1..]
  {
    assert s[..k] + s[k..] == s;
    assert s[k..] == [s[k]] + s[k + 1..];
  }

  /** Joining a first piece in front of at least one more. */
  lemma JoinCons(x: string, rest: seq<string>, sep: char)
    requires rest != []
    ensures Join([x] + rest, sep) == x + [sep] + Join(rest, sep)
  {
    var parts := [x] + rest;
    assert parts[0] == x && parts[1..] == rest;
  }

  /** One piece more than there are separators. */
  lemma {:induction false} SplitCount(s: string, sep: char)
    ensures |Split(s, sep)| == multiset(s)[sep] + 1
    decreases |s|
  {
    if sep in s {
      var k := IndexOf(s, sep);
      SplitCount(s[k + 1..], sep);
      assert s == s[..k] + [sep] + s[k + 1..];
      assert multiset(s) == multiset(s[..k]) + multiset([sep]) + multiset(s[k + 1..]);
    } else {
      assert multiset(s)[sep] == 0;
    }
  }

  predicate IsDigit(c: char) {
    '0' <= c <= '9'
  }

  predicate AllDigits(s: string) {
    forall k :: 0 <= k < |s| ==> IsDigit(s[k])
  }

  function DigitValue(c: char): nat
    requires IsDigit(c)
  {
    c as int - '0' as int
  }

  function DigitChar(d: nat): (c: char)
    requires d < 10
    ensures IsDigit(c) && DigitValue(c) == d
  {
    ('0' as int + d) as char
  }

  /** The longest prefix of `s` made of decimal digits. */
  function LeadingDigits(s: string): (r: string)
    ensures |r| <= |s| && r == s[..|r|]
    ensures AllDigits(r)
    ensures |r| == |s| || !IsDigit(s[|r|])
    decreases |s|
  {
    if s != [] && IsDigit(s[0]) then [s[0]] + LeadingDigits(s[1..]) else []
  }

  /** The value of a string of decimal digits, most significant first. */
  function DigitsValue(d: string): nat
    requires AllDigits(d)
    decreases |d|
  {
    if d == [] then 0 else 10 * DigitsValue(d[..|d| - 1]) + DigitValue(d[|d| - 1])
  }

  /** `parseInt(s, 10)`: leading white space is skipped, then the number
      is read by `ParseSigned`. */
  function ParseInt(s: string): (r: Option<int>)
    ensures AllSpace(s) ==> r.None?
    ensures r.Some? ==> exists k :: 0 <= k < |s| && IsDigit(s[k])
  {
    var a := SpaceEnd(s, 0);
    SpaceEndSpec(s, 0);
    var t := TrimStart(s);
    var r := ParseSigned(t);
    if r.Some? then
      assert t[0] == s[a];
      if IsDigit(t[0]) then r else assert t[1] == s[a + 1]; r
    else r
  }

  /** One optional sign, then as many decimal digits as follow; no digit at
      all is NaN, rendered as None. A "0x" prefix is not special in base 10. */
  function ParseSigned(t: string): (r: Option<int>)
    ensures r.Some? <==> (t != [] && IsDigit(t[0])) ||
                         (|t| >= 2 && (t[0] == '-' || t[0] == '+') && IsDigit(t[1]))
    ensures r.Some? ==> t != [] && (t[0] == '-' ==> r.value <= 0) && (t[0] != '-' ==> r.value >= 0)
  {
    var negative := t != [] && t[0] == '-';
    var u := if t != [] && (t[0] == '-' || t[0] == '+') then t[1..] else t;
    var d := LeadingDigits(u);
    var v: int := DigitsValue(d);
    if d == [] then None else if negative then Some(-v) else Some(v)
  }

  /** The decimal numeral of `n` (the `${i}` of a template literal). */
  function NatToString(n: nat): (r: string)
    ensures r != [] && AllDigits(r)
    ensures r[0] != '0' || n == 0
  {
    if n < 10 then [DigitChar(n)] else NatToString(n / 10) + [DigitChar(n % 10)]
  }

  lemma {:induction false} NumeralValue(n: nat)
    ensures DigitsValue(NatToString(n)) == n
  {
    if n >= 10 {
      NumeralValue(n / 10);
      var r := NatToString(n);
      assert r[..|r| - 1] == NatToString(n / 10);
    }
  }

  lemma {:induction false} LeadingDigitsOfNumeral(d: string, rest: string)
    requires AllDigits(d)
    requires rest == [] || !IsDigit(rest[0])
    ensures LeadingDigits(d + rest) == d
    decreases |d|
  {
    if d != [] {
      assert (d + rest)[1..] == d[1..] + rest;
      LeadingDigitsOfNumeral(d[1..], rest);
    } else {
      assert d + rest == rest;
    }
  }

  /** `parseInt` reads back the leading numeral of a string and ignores what
      follows it once a non-digit is reached. */
  lemma ParseIntOfNumeral(n: nat, rest: string)
    requires rest == [] || !IsDigit(rest[0])
    ensures ParseInt(NatToString(n) + rest) == Some(n)
  {
    var d := NatToString(n);
    var s := d + rest;
    assert s[0] == d[0] && IsDigit(s[0]);
    TrimStartNoSpace(s);
    assert ParseInt(s) == ParseSigned(s);
    LeadingDigitsOfNumeral(d, rest);
    assert LeadingDigits(s) == d;
    NumeralValue(n);
  }

  /** One optional sign, a run of digits (leading zeros allowed) and then
      anything that does not start with a digit: the value of the digits,
      negated after a minus sign. */
  lemma ParseSignedValue(sign: string, d: string, rest: string)
    requires sign == "" || sign == "-" || sign == "+"
    requires d != [] && AllDigits(d)
    requires rest == [] || !IsDigit(rest[0])
    ensures ParseSigned(sign + d + rest) ==
              Some(if sign == "-" then -(DigitsValue(d) as int) else DigitsValue(d) as int)
  {
    if sign == "" {
      assert sign + d + rest == d + rest;
      ParseSignedUnsigned(d, rest);
    } else {
      assert sign + d + rest == [sign[0]] + (d + rest);
      ParseSignedAfterSign(sign[0], d, rest);
    }
  }

  /** Digits with no sign in front. */
  lemma ParseSignedUnsigned(d: string, rest: string)
    requires d != [] && AllDigits(d)
    requires rest == [] || !IsDigit(rest[0])
    ensures ParseSigned(d + rest) == Some(DigitsValue(d) as int)
  {
    var t := d + rest;
    assert t[0] == d[0];
    LeadingDigitsOfNumeral(d, rest);
  }

  /** Digits after one sign character. */
  lemma ParseSignedAfterSign(c: char, d: string, rest: string)
    requires c == '-' || c == '+'
    requires d != [] && AllDigits(d)
    requires rest == [] || !IsDigit(rest[0])
    ensures ParseSigned([c] + (d + rest)) ==
              Some(if c == '-' then -(DigitsValue(d) as int) else DigitsValue(d) as int)
  {
    var t := [c] + (d + rest);
    assert t[0] == c && t[1..] == d + rest;
    LeadingDigitsOfNumeral(d, rest);
    assert LeadingDigits(t[1..]) == d;
  }

  /** `parseInt` of such a text, with no white space in front, reads the
      same value: `+7` is 7, `007` is 7 and `-7 km` is -7. */
  lemma ParseIntValue(sign: string, d: string, rest: string)
    requires sign == "" || sign == "-" || sign == "+"
    requires d != [] && AllDigits(d)
    requires rest == [] || !IsDigit(rest[0])
    ensures ParseInt(sign + d + rest) ==
              Some(if sign == "-" then -(DigitsValue(d) as int) else DigitsValue(d) as int)
  {
    var t := sign + d + rest;
    assert t[0] == if sign == "" then d[0] else sign[0];
    TrimStartNoSpace(t);
    ParseSignedValue(sign, d, rest);
  }

  /** A leading minus sign negates the numeral that follows it. */
  lemma ParseIntOfNegativeNumeral(n: nat)
    ensures ParseInt("-" + NatToString(n)) == Some(-(n as int))
  {
    var s := "-" + NatToString(n);
    TrimStartNoSpace(s);
    assert s[1..] == NatToString(n);
    LeadingDigitsOfNumeral(NatToString(n), []);
    assert NatToString(n) + [] == NatToString(n);
    NumeralValue(n);
  }

  lemma {:induction false} SpaceEndShift(c: char, s: string, i: nat)
    requires i <= |s|
    ensures SpaceEnd([c] + s, i + 1) == 1 + SpaceEnd(s, i)
    decreases |s| - i
  {
    var t := [c] + s;
    if i < |s| {
      assert t[i + 1] == s[i];
      SpaceEndShift(c, s, i + 1);
    }
  }

  /** White space in front of the number does not change what is read. */
  lemma ParseIntSkipsSpace(c: char, s: string)
    requires IsSpace(c)
    ensures ParseInt([c] + s) == ParseInt(s)
  {
    var t := [c] + s;
    SpaceEndShift(c, s, 0);
    assert t[1 + SpaceEnd(s, 0)..] == s[SpaceEnd(s, 0)..];
  }

}
