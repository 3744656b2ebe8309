/**
 * The few JavaScript built-ins the handlers lean on, stated over Dafny
 * strings: truthiness of optional request fields, String.prototype.trim,
 * toLowerCase, split, length in UTF-16 code units, and Number() of a string.
 */
module Js {

  /** `undefined`/`null` versus a present value. */
  datatype Option<+T> = None | Some(value: T)

  /** A request field is truthy when present and not the empty string. */
  predicate Present(o: Option<string>)
  {
    o.Some? && o.value != ""
  }

  /** The value of `o ?? d`. */
  function Coalesce<T>(o: Option<T>, d: T): (r: T)
    ensures o.Some? ==> r == o.value
    ensures o.None? ==> r == d
  {
    if o.Some? then o.value else d
  }

  // ---------------------------------------------------------------------
  // Whitespace and trim
  // ---------------------------------------------------------------------

  /** White space and line terminators as String.prototype.trim removes them. */
  predicate IsSpace(c: char)
  {
    c == ' ' || c == '\t' || c == '\n' || c == '\U{000B}' || c == '\U{000C}' || c == '\r'
    || c == '\U{00A0}' || c == '\U{FEFF}' || c == '\U{1680}'
    || ('\U{2000}' <= c <= '\U{200A}')
    || c == '\U{2028}' || c == '\U{2029}' || c == '\U{202F}' || c == '\U{205F}' || c == '\U{3000}'
  }

  function TrimStart(s: string): (r: string)
    ensures |r| <= |s| && r == s[|s| - |r|..]
    ensures r == [] || !IsSpace(r[0])
    ensures forall i :: 0 <= i < |s| - |r| ==> IsSpace(s[i])
  {
    if s != [] && IsSpace(s[0]) then TrimStart(s[1..]) else s
  }

  function TrimEnd(s: string): (r: string)
    ensures |r| <= |s| && r == s[..|r|]
    ensures r == [] || !IsSpace(r[|r| - 1])
    ensures forall i :: |r| <= i < |s| ==> IsSpace(s[i])
  {
    if s != [] && IsSpace(s[|s| - 1]) then TrimEnd(s[..|s| - 1]) else s
  }

  /** A string with no white space at either end. */
  predicate IsTrimmed(s: string)
  {
    s == [] || (!IsSpace(s[0]) && !IsSpace(s[|s| - 1]))
  }

  function Trim(s: string): (r: string)
    ensures IsTrimmed(r)
    ensures |r| <= |s|
    ensures IsTrimmed(s) ==> r == s
  {
    var t := TrimStart(s);
    var r := TrimEnd(t);
    assert r != [] ==> r[0] == t[0];
    r
  }

  lemma TrimIdempotent(s: string)
    ensures Trim(Trim(s)) == Trim(s)
  {
  }

  /** `o?.trim()` is truthy: present and not only white space. */
  predicate Filled(o: Option<string>)
  {
    o.Some? && Trim(o.value) != ""
  }

  // ---------------------------------------------------------------------
  // Case and length
  // ---------------------------------------------------------------------

  /** toLowerCase on the ASCII letters; other letters are left as they are. */
  function LowerChar(c: char): (r: char)
    ensures 'A' <= c <= 'Z' ==> 'a' <= r <= 'z'
    ensures !('A' <= c <= 'Z') ==> r == c
  {
    if 'A' <= c <= 'Z' then (c as int - 'A' as int + 'a' as int) as char else c
  }

  function ToLower(s: string): (r: string)
    ensures |r| == |s|
    ensures forall i :: 0 <= i < |s| ==> r[i] == LowerChar(s[i])
  {
    seq(|s|, i requires 0 <= i < |s| => LowerChar(s[i]))
  }

  lemma LowerCharKeepsSpace(c: char)
    ensures IsSpace(LowerChar(c)) == IsSpace(c)
  {
  }

  /** Lower-casing and trimming commute, so `toLowerCase().trim()` and the
      schema's trim-then-lowercase setters store the same text. */
  lemma {:induction false} LowerTrimCommute(s: string)
    ensures ToLower(Trim(s)) == Trim(ToLower(s))
  {
    LowerTrimStart(s);
    LowerTrimEnd(TrimStart(s));
  }

  lemma {:induction false} LowerTrimStart(s: string)
    ensures ToLower(TrimStart(s)) == TrimStart(ToLower(s))
  {
    if s != [] {
      assert ToLower(s)[1..] == ToLower(s[1..]);
      LowerCharKeepsSpace(s[0]);
      if IsSpace(s[0]) {
        LowerTrimStart(s[1..]);
      }
    }
  }

  lemma {:induction false} LowerTrimEnd(s: string)
    ensures ToLower(TrimEnd(s)) == TrimEnd(ToLower(s))
  {
    if s != [] {
      assert ToLower(s)[..|s| - 1] == ToLower(s[..|s| - 1]);
      LowerCharKeepsSpace(s[|s| - 1]);
      if IsSpace(s[|s| - 1]) {
        LowerTrimEnd(s[..|s| - 1]);
      }
    }
  }

  /** The `trim` and `lowercase` schema setters together; also the value of
      `s.toLowerCase().trim()`. */
  function LowerTrimmed(s: string): (r: string)
    ensures r == ToLower(Trim(s))
    ensures IsTrimmed(r)
  {
    LowerTrimCommute(s);
    Trim(ToLower(s))
  }

  /** Normalising twice changes nothing, so a stored value is found by a query
      that applies the same setters. */
  lemma LowerTrimmedIdempotent(s: string)
    ensures LowerTrimmed(LowerTrimmed(s)) == LowerTrimmed(s)
  {
    var r := LowerTrimmed(s);
    var t := Trim(s);
    forall i | 0 <= i < |r|
      ensures ToLower(r)[i] == r[i]
    {
      assert r[i] == LowerChar(t[i]);
    }
    assert ToLower(r) == r;
  }

  /** `s.length`: code points above U+FFFF take two UTF-16 units. */
  function Length(s: string): (n: nat)
    ensures |s| <= n <= 2 * |s|
  {
    if s == [] then 0 else (if s[0] as int > 0xFFFF then 2 else 1) + Length(s[1..])
  }

  // ---------------------------------------------------------------------
  // Search and split
  // ---------------------------------------------------------------------

  /** `s` contains `w` somewhere (an unanchored regular-expression literal). */
  predicate HasInfix(s: string, w: string)
    decreases |s|
  {
    w <= s || (s != [] && HasInfix(s[1..], w))
  }

  lemma {:induction false} HasInfixAt(s: string, w: string, i: nat)
    requires i + |w| <= |s| && s[i..i + |w|] == w
    ensures HasInfix(s, w)
  {
    if i > 0 {
      assert s[1..][i - 1..i - 1 + |w|] == w;
      HasInfixAt(s[1..], w, i - 1);
    }
  }

  /** `s.split(sep)` for a one-character separator: never empty. */
  function Split(s: string, sep: char -> bool): (r: seq<string>)
    ensures |r| >= 1
    ensures forall i :: 0 <= i < |r| ==> forall j :: 0 <= j < |r[i]| ==> !sep(r[i][j])
  {
    if s == [] then [""]
    else
      var rest := Split(s[1..], sep);
      if sep(s[0]) then [""] + rest
      else [[s[0]] + rest[0]] + rest[1..]
  }

  /** `parts.join(sep)` */
  function Join(parts: seq<string>, sep: string): string
  {
    if parts == [] then ""
    else if |parts| == 1 then parts[0]
    else parts[0] + sep + Join(parts[1..], sep)
  }

  predicate NoSep(s: string, sep: char -> bool)
  {
    forall j :: 0 <= j < |s| ==> !sep(s[j])
  }

  lemma {:induction false} SplitNoSep(a: string, sep: char -> bool)
    requires NoSep(a, sep)
    ensures Split(a, sep) == [a]
  {
    if a != [] {
      SplitNoSep(a[1..], sep);
      assert [a[0]] + a[1..] == a;
    }
  }

  lemma {:induction false} SplitAtSep(a: string, c: char, b: string, sep: char -> bool)
    requires NoSep(a, sep) && sep(c)
    ensures Split(a + [c] + b, sep) == [a] + Split(b, sep)
  {
    var s := a + [c] + b;
    if a == [] {
      assert s[1..] == b;
    } else {
      assert s[1..] == a[1..] + [c] + b;
      SplitAtSep(a[1..], c, b, sep);
      assert [a[0]] + a[1..] == a;
    }
  }

  /** Splitting on a separator character undoes `join` of pieces that do
      not contain one. */
  lemma {:induction false} SplitJoin(parts: seq<string>, c: char, sep: char -> bool)
    requires |parts| >= 1 && sep(c)
    requires forall i :: 0 <= i < |parts| ==> NoSep(parts[i], sep)
    ensures Split(Join(parts, [c]), sep) == parts
  {
    if |parts| == 1 {
      SplitNoSep(parts[0], sep);
    } else {
      SplitJoin(parts[1..], c, sep);
      SplitAtSep(parts[0], c, Join(parts[1..], [c]), sep);
      assert [parts[0]] + parts[1..] == parts;
    }
  }

  // ---------------------------------------------------------------------
  // Number()
  // ---------------------------------------------------------------------

  /** A JavaScript number, restricted to the integers and NaN. */
  datatype Num = NaN | Int(v: int)

  predicate IsDigit(c: char)
  {
    '0' <= c <= '9'
  }

  /** The test `/^\d+$/`. */
  predicate AllDigits(s: string)
  {
    |s| > 0 && forall i :: 0 <= i < |s| ==> IsDigit(s[i])
  }

  /** A sign followed by a run of decimal digits. */
  predicate Signed(t: string)
  {
    |t| > 1 && (t[0] == '-' || t[0] == '+') && AllDigits(t[1..])
  }

  function DigitsValue(s: string): (n: nat)
    requires forall i :: 0 <= i < |s| ==> IsDigit(s[i])
  {
    if s == [] then 0
    else
      assert IsDigit(s[|s| - 1]);
      10 * DigitsValue(s[..|s| - 1]) + (s[|s| - 1] as int - '0' as int)
  }

  /** Number(s) for a string: surrounding white space is ignored, the empty
      string is 0, an optionally signed run of decimal digits is its value,
      and anything else is NaN. */
  function ToNumber(s: string): (r: Num)
    ensures Trim(s) == "" ==> r == Int(0)
    ensures AllDigits(Trim(s)) ==> r == Int(DigitsValue(Trim(s)))
    ensures Signed(Trim(s)) ==> r == Int(if Trim(s)[0] == '-' then -(DigitsValue(Trim(s)[1..]) as int)
                                         else DigitsValue(Trim(s)[1..]))
    ensures r.NaN? <==> Trim(s) != "" && !AllDigits(Trim(s)) && !Signed(Trim(s))
  {
    var t := Trim(s);
    if t == "" then Int(0)
    else if AllDigits(t) then Int(DigitsValue(t))
    else if Signed(t) then
      var m: int := DigitsValue(t[1..]);
      Int(if t[0] == '-' then -m else m)
    else NaN
  }

  /** Number(q) for an optional query value: Number(undefined) is NaN. */
  function NumberOf(q: Option<string>): Num
  {
    if q.None? then NaN else ToNumber(q.value)
  }

  /** `n || d`: NaN and 0 are falsy. */
  function OrDefault(n: Num, d: int): (r: int)
    ensures d != 0 ==> r != 0
    ensures n.Int? && n.v != 0 ==> r == n.v
  {
    if n.Int? && n.v != 0 then n.v else d
  }

  /** Decimal text of a natural number (as string concatenation prints it). */
  function NatText(n: nat): (r: string)
    ensures |r| >= 1 && forall i :: 0 <= i < |r| ==> IsDigit(r[i])
  {
    var d := [('0' as int + n % 10) as char];
    if n < 10 then d else NatText(n / 10) + d
  }

  lemma {:induction false} NatTextRoundTrip(n: nat)
    ensures DigitsValue(NatText(n)) == n
  {
    var r := NatText(n);
    if n >= 10 {
      NatTextRoundTrip(n / 10);
      assert r[..|r| - 1] == NatText(n / 10);
    }
  }

  function IntText(n: int): string
  {
    if n < 0 then "-" + NatText(-n) else NatText(n)
  }
}
