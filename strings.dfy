/** String helpers shared by the serialiser and the request handlers:
    decimal rendering of integers (`n.toString()`), `padStart`, and
    `Array.prototype.join` with its inverse. */
module Strings {

  predicate IsDigit(c: char) {
    '0' <= c <= '9'
  }

  function DigitChar(d: nat): (c: char)
    requires d < 10
    ensures IsDigit(c)
  {
    (48 + d) as char
  }

  function DigitValue(c: char): (d: nat)
    requires IsDigit(c)
    ensures d < 10
  {
    (c as int - 48) as nat
  }

  /** `n.toString()` for a non-negative integer: its decimal digits, without
      leading zeros (and "0" for zero). */
  function NatToString(n: nat): (s: string)
    ensures |s| >= 1
    decreases n
  {
    if n < 10 then [DigitChar(n)] else NatToString(n / 10) + [DigitChar(n % 10)]
  }

  /** The value a string of decimal digits denotes. */
  function DecimalValue(s: string): nat
    requires AllDigits(s)
  {
    if s == [] then 0 else DecimalValue(s[..|s| - 1]) * 10 + DigitValue(s[|s| - 1])
  }

  predicate AllDigits(s: string) {
    forall i :: 0 <= i < |s| ==> IsDigit(s[i])
  }

  /** The rendering is all digits, and reading them back gives the number. */
  lemma {:induction false} NatToStringValue(n: nat)
    ensures AllDigits(NatToString(n))
    ensures DecimalValue(NatToString(n)) == n
    decreases n
  {
    var s := NatToString(n);
    if n >= 10 {
      NatToStringValue(n / 10);
      assert s[..|s| - 1] == NatToString(n / 10);
      assert s == NatToString(n / 10) + [DigitChar(n % 10)];
    }
  }

  /** `n.toString()` for any integer: a minus sign before negative values. */
  function IntToString(n: int): (s: string)
    ensures |s| >= 1
  {
    if n < 0 then "-" + NatToString(-n) else NatToString(n)
  }

  /** `s.padStart(width, '0')`. */
  function PadStart(s: string, width: nat): string
    decreases width - |s|
  {
    if |s| >= width then s else PadStart(['0'] + s, width)
  }

  /** Padding puts zeros on the left up to `width` and never truncates: the
      original string is the suffix. */
  lemma {:induction false} PadStartShape(s: string, width: nat)
    ensures |PadStart(s, width)| == if |s| < width then width else |s|
    ensures PadStart(s, width) == seq(|PadStart(s, width)| - |s|, _ => '0') + s
    decreases width - |s|
  {
    if |s| < width {
      PadStartShape(['0'] + s, width);
      var k := |PadStart(s, width)| - |s|;
      assert seq(k - 1, _ => '0') + (['0'] + s) == seq(k, _ => '0') + s;
    }
  }

  /** `parts.join(sep)`. */
  function Join(parts: seq<string>, sep: string): string {
    if parts == [] then ""
    else if |parts| == 1 then parts[0]
    else parts[0] + sep + Join(parts[1..], sep)
  }

  /** A joined string ends with the last part: nothing trails it. */
  lemma {:induction false} JoinEndsWithLast(parts: seq<string>, sep: string)
    requires |parts| >= 1
    ensures |parts[|parts| - 1]| <= |Join(parts, sep)|
    ensures Join(parts, sep)[|Join(parts, sep)| - |parts[|parts| - 1]|..] == parts[|parts| - 1]
  {
    if |parts| > 1 {
      JoinEndsWithLast(parts[1..], sep);
      assert parts[1..][|parts| - 2] == parts[|parts| - 1];
    }
  }

  /** The first position of `c` in `s`, or -1. */
  function FindChar(s: string, c: char): (r: int)
    ensures -1 <= r < |s|
    ensures r == -1 <==> c !in s
    ensures r >= 0 ==> s[r] == c && c !in s[..r]
  {
    if s == [] then -1
    else if s[0] == c then 0
    else
      var k := FindChar(s[1..], c);
      if k == -1 then -1
      else
        assert s[..k + 1] == [s[0]] + s[1..][..k];
        k + 1
  }

  /** Cuts `s` at every occurrence of `sep`. A separator is recognised by
      its last character; an occurrence of that character that does not
      complete `sep` ends the scan. */
  function Split(s: string, sep: string): (r: seq<string>)
    requires |sep| > 0
    ensures |r| >= 1
    decreases |s|
  {
    var i := FindChar(s, sep[|sep| - 1]);
    if i == -1 || i + 1 < |sep| || s[i + 1 - |sep|..i + 1] != sep then [s]
    else [s[..i + 1 - |sep|]] + Split(s[i + 1..], sep)
  }

  /** Splitting inverts joining, provided no part holds the separator's
      last character. */
  lemma {:induction false} SplitJoin(parts: seq<string>, sep: string)
    requires |parts| >= 1 && |sep| > 0
    requires sep[|sep| - 1] !in sep[..|sep| - 1]
    requires forall k :: 0 <= k < |parts| ==> sep[|sep| - 1] !in parts[k]
    ensures Split(Join(parts, sep), sep) == parts
  {
    var c := sep[|sep| - 1];
    if |parts| == 1 {
      assert FindChar(parts[0], c) == -1;
    } else {
      var s := Join(parts, sep);
      var tail := Join(parts[1..], sep);
      assert s == parts[0] + sep + tail;
      var i := |parts[0]| + |sep| - 1;
      assert s[i] == c;
      assert s[..i] == parts[0] + sep[..|sep| - 1];
      FindCharAfter(parts[0], sep, tail);
      assert s[i + 1 - |sep|..i + 1] == sep;
      assert s[..i + 1 - |sep|] == parts[0];
      assert s[i + 1..] == tail;
      SplitJoin(parts[1..], sep);
    }
  }

  /** In `p + sep + t`, when neither `p` nor the rest of `sep` holds the
      last character of `sep`, the scan for it stops at the end of `sep`. */
  lemma FindCharAfter(p: string, sep: string, t: string)
    requires |sep| > 0 && sep[|sep| - 1] !in p
    requires sep[|sep| - 1] !in sep[..|sep| - 1]
    ensures FindChar(p + sep + t, sep[|sep| - 1]) == |p| + |sep| - 1
  {
    var c := sep[|sep| - 1];
    var s := p + sep + t;
    var i := |p| + |sep| - 1;
    assert s[i] == c;
    assert s[..i] == p + sep[..|sep| - 1];
    FindCharFirst(s, c, i);
  }

  /** The first occurrence is the position whose prefix lacks the character. */
  lemma {:induction false} FindCharFirst(s: string, c: char, i: nat)
    requires i < |s| && s[i] == c && c !in s[..i]
    ensures FindChar(s, c) == i
  {
    if i > 0 {
      assert s[0] == s[..i][0] != c;
      assert s[1..][..i - 1] == s[..i][1..];
      FindCharFirst(s[1..], c, i - 1);
    }
  }

  /** The characters `String.prototype.trim` removes: the ECMAScript
      WhiteSpace and LineTerminator characters. */
  predicate IsJsSpace(c: char) {
    || c == '\t' || c == '\n' || c == '\U{000B}' || c == '\U{000C}' || c == '\r' || c == ' '
    || c == '\U{00A0}' || c == '\U{1680}' || ('\U{2000}' <= c <= '\U{200A}')
    || c == '\U{2028}' || c == '\U{2029}' || c == '\U{202F}' || c == '\U{205F}'
    || c == '\U{3000}' || c == '\U{FEFF}'
  }

  function TrimStart(s: string): (r: string)
    ensures |r| <= |s|
    ensures r != [] ==> !IsJsSpace(r[0])
  {
    if s != [] && IsJsSpace(s[0]) then TrimStart(s[1..]) else s
  }

  function TrimEnd(s: string): (r: string)
    ensures |r| <= |s|
    ensures r != [] ==> !IsJsSpace(r[|r| - 1])
  {
    if s != [] && IsJsSpace(s[|s| - 1]) then TrimEnd(s[..|s| - 1]) else s
  }

  /** `s.trim()`. */
  function Trim(s: string): (r: string)
    ensures |r| <= |s|
    ensures r != [] ==> !IsJsSpace(r[0]) && !IsJsSpace(r[|r| - 1])
  {
    var t := TrimStart(s);
    var r := TrimEnd(t);
    assert r != [] ==> r[0] == t[0] by {
      TrimEndPrefix(t);
    }
    r
  }

  /** Trimming the start drops a run of spaces and keeps the rest. */
  lemma {:induction false} TrimStartSuffix(s: string)
    ensures TrimStart(s) == s[|s| - |TrimStart(s)|..]
    ensures forall k :: 0 <= k < |s| - |TrimStart(s)| ==> IsJsSpace(s[k])
  {
    if s != [] && IsJsSpace(s[0]) {
      TrimStartSuffix(s[1..]);
      assert s[1..][|s| - 1 - |TrimStart(s)|..] == s[|s| - |TrimStart(s)|..];
      forall k | 1 <= k < |s| - |TrimStart(s)| ensures IsJsSpace(s[k]) {
        assert s[k] == s[1..][k - 1];
      }
    }
  }

  /** Trimming the end drops a run of spaces and keeps the rest. */
  lemma {:induction false} TrimEndPrefix(s: string)
    ensures TrimEnd(s) == s[..|TrimEnd(s)|]
    ensures forall k :: |TrimEnd(s)| <= k < |s| ==> IsJsSpace(s[k])
  {
    if s != [] && IsJsSpace(s[|s| - 1]) {
      var init := s[..|s| - 1];
      TrimEndPrefix(init);
      assert init[..|TrimEnd(s)|] == s[..|TrimEnd(s)|];
      forall k | |TrimEnd(s)| <= k < |s| - 1 ensures IsJsSpace(s[k]) {
        assert s[k] == init[k];
      }
    }
  }

  /** `s.trim()` is `s` with a leading and a trailing run of spaces cut off. */
  lemma TrimSlice(s: string) returns (a: nat)
    ensures a + |Trim(s)| <= |s| && Trim(s) == s[a..a + |Trim(s)|]
    ensures forall k :: 0 <= k < a ==> IsJsSpace(s[k])
    ensures forall k :: a + |Trim(s)| <= k < |s| ==> IsJsSpace(s[k])
  {
    var t := TrimStart(s);
    TrimStartSuffix(s);
    TrimEndPrefix(t);
    a := |s| - |t|;
    forall k | a + |Trim(s)| <= k < |s| ensures IsJsSpace(s[k]) {
      assert s[k] == t[k - a];
    }
  }

  /** Trimming twice is trimming once. */
  lemma TrimIdempotent(s: string)
    ensures Trim(Trim(s)) == Trim(s)
  {
    var r := Trim(s);
    if r != [] {
      assert TrimStart(r) == r;
      assert TrimEnd(r) == r;
    }
  }
}
