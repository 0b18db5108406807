/** The handful of Python `str` operations the server relies on, over
    `seq<char>` with ASCII semantics (Python 2 byte strings). */
module Text {
  import opened Common

  const CRLF: string := "\r\n"

  /** The characters `str.strip()` removes: space, \t, \n, \r, \v and \f. */
  predicate IsSpace(c: char) {
    c == ' ' || c == '\t' || c == '\n' || c == '\r' || c == 11 as char || c == 12 as char
  }

  predicate StartsWith(s: string, prefix: string) {
    |prefix| <= |s| && s[..|prefix|] == prefix
  }

  /** `s.lstrip()` */
  function TrimLeft(s: string): (r: string)
    ensures |r| <= |s|
    ensures r != [] ==> !IsSpace(r[0])
  {
    if s != [] && IsSpace(s[0]) then TrimLeft(s[1..]) else s
  }

  /** What `lstrip` leaves is a suffix of its input. */
  lemma {:induction false} TrimLeftSuffix(s: string)
    ensures TrimLeft(s) == s[|s| - |TrimLeft(s)|..]
  {
    if s != [] && IsSpace(s[0]) {
      TrimLeftSuffix(s[1..]);
    }
  }

  /** `s.rstrip()` */
  function TrimRight(s: string): (r: string)
    ensures |r| <= |s| && r == s[..|r|]
    ensures r != [] ==> !IsSpace(r[|r| - 1])
  {
    if s != [] && IsSpace(s[|s| - 1]) then TrimRight(s[..|s| - 1]) else s
  }

  /** What `lstrip` removes is whitespace. */
  lemma {:induction false} TrimLeftRemovesSpaces(s: string)
    ensures forall i :: 0 <= i < |s| - |TrimLeft(s)| ==> IsSpace(s[i])
  {
    if s != [] && IsSpace(s[0]) {
      TrimLeftRemovesSpaces(s[1..]);
    }
  }

  /** What `rstrip` removes is whitespace. */
  lemma {:induction false} TrimRightRemovesSpaces(s: string)
    ensures forall i :: |TrimRight(s)| <= i < |s| ==> IsSpace(s[i])
  {
    if s != [] && IsSpace(s[|s| - 1]) {
      TrimRightRemovesSpaces(s[..|s| - 1]);
    }
  }

  /** `s.strip()` */
  function Strip(s: string): string {
    TrimRight(TrimLeft(s))
  }

  lemma {:induction false} TrimLeftSpaces(pre: string, x: string)
    requires forall i :: 0 <= i < |pre| ==> IsSpace(pre[i])
    ensures TrimLeft(pre + x) == TrimLeft(x)
  {
    if pre != [] {
      var px := pre + x;
      assert px[0] == pre[0] && IsSpace(px[0]);
      assert px[1..] == pre[1..] + x;
      TrimLeftSpaces(pre[1..], x);
    } else {
      assert pre + x == x;
    }
  }

  lemma {:induction false} TrimRightSpaces(x: string, post: string)
    requires forall i :: 0 <= i < |post| ==> IsSpace(post[i])
    ensures TrimRight(x + post) == TrimRight(x)
  {
    if post != [] {
      var p := post[..|post| - 1];
      var xp := x + post;
      assert xp[|xp| - 1] == post[|post| - 1] && IsSpace(xp[|xp| - 1]);
      assert xp[..|xp| - 1] == x + p;
      TrimRightSpaces(x, p);
    } else {
      assert x + post == x;
    }
  }

  /** Trimming the left of a string with text in it leaves what follows alone. */
  lemma {:induction false} TrimLeftAppend(x: string, post: string)
    ensures TrimLeft(x) != [] ==> TrimLeft(x + post) == TrimLeft(x) + post
    ensures TrimLeft(x) == [] ==> TrimLeft(x + post) == TrimLeft(post)
  {
    if x == [] {
      assert x + post == post;
    } else if IsSpace(x[0]) {
      assert (x + post)[0] == x[0];
      assert (x + post)[1..] == x[1..] + post;
      TrimLeftAppend(x[1..], post);
    } else {
      assert (x + post)[0] == x[0];
      assert TrimLeft(x) == x;
      assert TrimLeft(x + post) == x + post;
    }
  }

  /** Whitespace around a string does not change what `strip` leaves. */
  lemma StripPadding(pre: string, s: string, post: string)
    requires forall i :: 0 <= i < |pre| ==> IsSpace(pre[i])
    requires forall i :: 0 <= i < |post| ==> IsSpace(post[i])
    ensures Strip(pre + s + post) == Strip(s)
  {
    assert pre + s + post == pre + (s + post);
    TrimLeftSpaces(pre, s + post);
    TrimLeftAppend(s, post);
    if TrimLeft(s) != [] {
      TrimRightSpaces(TrimLeft(s), post);
    } else {
      TrimLeftSpaces(post, []);
      assert post + [] == post;
    }
  }

  lemma {:induction false} TrimLeftUpper(s: string)
    ensures TrimLeft(Upper(s)) == Upper(TrimLeft(s))
  {
    if s != [] {
      var u := Upper(s);
      assert IsSpace(u[0]) == IsSpace(s[0]);
      if IsSpace(s[0]) {
        assert u[1..] == Upper(s[1..]);
        TrimLeftUpper(s[1..]);
      }
    }
  }

  lemma {:induction false} TrimRightUpper(s: string)
    ensures TrimRight(Upper(s)) == Upper(TrimRight(s))
  {
    if s != [] {
      assert Upper(s)[..|s| - 1] == Upper(s[..|s| - 1]);
      TrimRightUpper(s[..|s| - 1]);
    }
  }

  /** Upper-casing does not touch whitespace, so it commutes with `strip`. */
  lemma StripUpper(s: string)
    ensures Strip(Upper(s)) == Upper(Strip(s))
  {
    TrimLeftUpper(s);
    TrimRightUpper(TrimLeft(s));
  }

  lemma LowerUpper(s: string)
    ensures Lower(Upper(s)) == Lower(s)
  {
  }

  /** `s.rstrip(c)` for a single character `c`. */
  function RStripChar(s: string, c: char): (r: string)
    ensures |r| <= |s| && r == s[..|r|]
    ensures r != [] ==> r[|r| - 1] != c
    ensures forall i :: |r| <= i < |s| ==> s[i] == c
  {
    if s != [] && s[|s| - 1] == c then RStripChar(s[..|s| - 1], c) else s
  }

  function LowerChar(c: char): char {
    if 'A' <= c <= 'Z' then (c as int + 32) as char else c
  }

  function UpperChar(c: char): char {
    if 'a' <= c <= 'z' then (c as int - 32) as char else c
  }

  /** `s.lower()` on a byte string. */
  function Lower(s: string): string {
    seq(|s|, i requires 0 <= i < |s| => LowerChar(s[i]))
  }

  /** `s.upper()` on a byte string. */
  function Upper(s: string): string {
    seq(|s|, i requires 0 <= i < |s| => UpperChar(s[i]))
  }

  /** `s.replace(a, b)` for single characters. */
  function ReplaceChar(s: string, a: char, b: char): string {
    seq(|s|, i requires 0 <= i < |s| => if s[i] == a then b else s[i])
  }

  /** `s.split(c, 1)`: the parts before and after the first `c`, or None
      when `c` does not occur (Python then yields one part only). */
  function SplitOnce(s: string, c: char): (r: Option<(string, string)>)
    ensures r.None? <==> c !in s
    ensures r.Some? ==> c !in r.value.0 && s == r.value.0 + [c] + r.value.1
  {
    if s == [] then None
    else if s[0] == c then Some(([], s[1..]))
    else match SplitOnce(s[1..], c)
      case None => None
      case Some(p) => Some(([s[0]] + p.0, p.1))
  }

  /** Splitting at the first `c` finds the `c` that follows a `c`-free prefix. */
  lemma {:induction false} SplitOnceAt(a: string, c: char, b: string)
    requires c !in a
    ensures SplitOnce(a + [c] + b, c) == Some((a, b))
  {
    if a != [] {
      assert (a + [c] + b)[1..] == a[1..] + [c] + b;
      SplitOnceAt(a[1..], c, b);
      assert [a[0]] + a[1..] == a;
    }
  }

  /** `s.split(c)`: every piece between occurrences of `c`. */
  function SplitAll(s: string, c: char): (r: seq<string>)
    ensures |r| >= 1
    ensures forall i :: 0 <= i < |r| ==> c !in r[i]
  {
    if s == [] then [[]]
    else if s[0] == c then [[]] + SplitAll(s[1..], c)
    else
      var rest := SplitAll(s[1..], c);
      [[s[0]] + rest[0]] + rest[1..]
  }

  /** `sep.join(parts)` */
  function Join(sep: string, parts: seq<string>): string {
    if |parts| == 0 then []
    else if |parts| == 1 then parts[0]
    else parts[0] + sep + Join(sep, parts[1..])
  }

  /** Joining the pieces of `s.split(c)` with `c` gives back `s`. */
  lemma {:induction false} SplitAllJoin(s: string, c: char)
    ensures Join([c], SplitAll(s, c)) == s
  {
    if s != [] {
      var rest := SplitAll(s[1..], c);
      SplitAllJoin(s[1..], c);
      if s[0] == c {
        assert SplitAll(s, c) == [[]] + rest;
        if |rest| == 1 {
          assert Join([c], [[]] + rest) == [] + [c] + Join([c], rest);
        } else {
          assert ([[]] + rest)[1..] == rest;
        }
      } else {
        JoinExtendFirst(s[0], rest, [c]);
        assert s == [s[0]] + s[1..];
      }
    }
  }

  /** Putting `x` in front of the first part puts it in front of the join. */
  lemma JoinExtendFirst(x: char, parts: seq<string>, sep: string)
    requires |parts| >= 1
    ensures Join(sep, [[x] + parts[0]] + parts[1..]) == [x] + Join(sep, parts)
  {
    var r := [[x] + parts[0]] + parts[1..];
    if |parts| > 1 {
      assert r[1..] == parts[1..];
      assert Join(sep, r) == [x] + parts[0] + sep + Join(sep, parts[1..]);
    }
  }

  function Concat(parts: seq<string>): string {
    if parts == [] then [] else parts[0] + Concat(parts[1..])
  }

  // ---------------------------------------------------------------------
  // Hexadecimal: Python's hex(n)[2:] and the reading of a chunk-size line.

  predicate IsHexDigit(c: char) {
    '0' <= c <= '9' || 'a' <= c <= 'f' || 'A' <= c <= 'F'
  }

  function HexDigit(d: nat): (c: char)
    requires d < 16
  {
    if d < 10 then (48 + d) as char else (87 + d) as char
  }

  function HexValue(c: char): nat
    requires IsHexDigit(c)
  {
    if '0' <= c <= '9' then c as int - 48
    else if 'a' <= c <= 'f' then c as int - 87
    else c as int - 55
  }

  /** `hex(n)[2:]`: lower-case digits, no leading zero, "0" for zero. */
  function Hex(n: nat): (r: string)
    ensures r != []
    ensures forall i :: 0 <= i < |r| ==> IsHexDigit(r[i])
    decreases n
  {
    if n < 16 then [HexDigit(n)] else Hex(n / 16) + [HexDigit(n % 16)]
  }

  function HexNumber(s: string): nat
    requires forall i :: 0 <= i < |s| ==> IsHexDigit(s[i])
  {
    if s == [] then 0 else HexNumber(s[..|s| - 1]) * 16 + HexValue(s[|s| - 1])
  }

  /** Reads a non-empty run of hexadecimal digits (either case). */
  function ParseHex(s: string): Option<nat> {
    if s != [] && forall i :: 0 <= i < |s| ==> IsHexDigit(s[i]) then Some(HexNumber(s)) else None
  }

  lemma {:induction false} HexRoundTrip(n: nat)
    ensures ParseHex(Hex(n)) == Some(n)
    decreases n
  {
    if n < 16 {
      var h := Hex(n);
      assert h == [HexDigit(n)] && h[..0] == [];
      assert HexValue(HexDigit(n)) == n;
      assert HexNumber(h) == HexNumber(h[..0]) * 16 + HexValue(h[0]);
    } else {
      var h := Hex(n / 16);
      HexRoundTrip(n / 16);
      assert Hex(n) == h + [HexDigit(n % 16)];
      assert Hex(n)[..|Hex(n)| - 1] == h;
    }
  }

  // ---------------------------------------------------------------------
  // Decimal: "%s" % n for a natural number, and Python's int().

  predicate IsDigit(c: char) {
    '0' <= c <= '9'
  }

  /** `str(n)` for a natural number. */
  function Decimal(n: nat): (r: string)
    ensures r != []
    ensures forall i :: 0 <= i < |r| ==> IsDigit(r[i])
    decreases n
  {
    if n < 10 then [(48 + n) as char] else Decimal(n / 10) + [(48 + n % 10) as char]
  }

  function DecimalNumber(s: string): nat
    requires forall i :: 0 <= i < |s| ==> IsDigit(s[i])
  {
    if s == [] then 0
    else
      assert IsDigit(s[|s| - 1]);
      DecimalNumber(s[..|s| - 1]) * 10 + (s[|s| - 1] as int - 48)
  }

  function ParseDecimal(s: string): Option<nat> {
    if s != [] && forall i :: 0 <= i < |s| ==> IsDigit(s[i]) then Some(DecimalNumber(s)) else None
  }

  lemma {:induction false} DecimalRoundTrip(n: nat)
    ensures ParseDecimal(Decimal(n)) == Some(n)
    decreases n
  {
    if n < 10 {
      assert Decimal(n)[..0] == [];
      assert DecimalNumber(Decimal(n)) == DecimalNumber([]) * 10 + n;
    } else {
      var d := Decimal(n / 10);
      DecimalRoundTrip(n / 10);
      assert Decimal(n) == d + [(48 + n % 10) as char];
      assert Decimal(n)[..|Decimal(n)| - 1] == d;
    }
  }

  /** Python 2's `int(s)` on a byte string in base 10: surrounding whitespace
      is ignored, then one optional sign, then whitespace again (Python 2
      accepts `int("- 5")`), then at least one digit; anything else raises
      ValueError (None here). */
  function ParseInt(s: string): Option<int> {
    var t := Strip(s);
    if t != [] && (t[0] == '-' || t[0] == '+') then Signed(t[0] == '-', t[1..])
    else
      match ParseDecimal(t)
      case None => None
      case Some(n) => Some(n)
  }

  /** The digits after a sign, with the whitespace Python 2 lets through
      between the two. */
  function Signed(negative: bool, rest: string): (r: Option<int>)
    ensures r.Some? && r.value < 0 ==> negative
  {
    match ParseDecimal(TrimLeft(rest))
    case None => None
    case Some(n) => Some(if negative then -(n as int) else n as int)
  }

  /** Text without surrounding whitespace is its own strip. */
  lemma StripUnchanged(s: string)
    requires s != [] && !IsSpace(s[0]) && !IsSpace(s[|s| - 1])
    ensures Strip(s) == s
  {
    assert TrimLeft(s) == s;
  }

  /** What `"%s" % n` writes, `int()` reads back. */
  lemma ParseIntReadsDecimal(n: nat)
    ensures ParseInt(Decimal(n)) == Some(n)
  {
    var d := Decimal(n);
    assert IsDigit(d[0]) && IsDigit(d[|d| - 1]);
    StripUnchanged(d);
    DecimalRoundTrip(n);
    assert d[0] != '-' && d[0] != '+';
  }

  /** Blank text never reads, and a negative number needs a leading "-". */
  lemma ParseIntNeedsDigits(s: string)
    ensures Strip(s) == [] ==> ParseInt(s).None?
    ensures ParseInt(s).Some? && ParseInt(s).value < 0 ==> Strip(s)[0] == '-'
  {
  }

  /** A sign, then any whitespace, then digits: `int("- 5") == -5` and
      `int("+ 7") == 7`. */
  lemma ParseIntSigned(sign: char, pad: string, d: string)
    requires sign == '-' || sign == '+'
    requires forall i :: 0 <= i < |pad| ==> IsSpace(pad[i])
    requires ParseDecimal(d).Some?
    ensures ParseInt([sign] + pad + d)
         == Some(if sign == '-' then -(ParseDecimal(d).value as int) else ParseDecimal(d).value as int)
  {
    var rest := pad + d;
    LastOfAppend(pad, d);
    assert [sign] + pad + d == [sign] + rest;
    ParseIntAfterSign(sign, rest);
    SignedSkipsSpaces(sign == '-', pad, d);
    SignedDigits(sign == '-', d);
  }

  lemma LastOfAppend(pad: string, d: string)
    requires ParseDecimal(d).Some?
    ensures pad + d != [] && !IsSpace((pad + d)[|pad + d| - 1])
    ensures !IsSpace(d[0])
  {
    assert IsDigit(d[0]) && IsDigit(d[|d| - 1]);
    assert (pad + d)[|pad + d| - 1] == d[|d| - 1];
  }

  lemma ParseIntAfterSign(sign: char, rest: string)
    requires sign == '-' || sign == '+'
    requires rest != [] && !IsSpace(rest[|rest| - 1])
    ensures ParseInt([sign] + rest) == Signed(sign == '-', rest)
  {
    var t := [sign] + rest;
    assert t[|t| - 1] == rest[|rest| - 1];
    StripUnchanged(t);
    assert t[1..] == rest;
  }

  lemma SignedSkipsSpaces(negative: bool, pad: string, d: string)
    requires forall i :: 0 <= i < |pad| ==> IsSpace(pad[i])
    requires d != [] && !IsSpace(d[0])
    ensures Signed(negative, pad + d) == Signed(negative, d)
  {
    TrimLeftSpaces(pad, d);
    TrimLeftKeeps(d);
  }

  lemma SignedDigits(negative: bool, d: string)
    requires ParseDecimal(d).Some?
    ensures Signed(negative, d) == Some(if negative then -(ParseDecimal(d).value as int) else ParseDecimal(d).value as int)
  {
    assert IsDigit(d[0]);
    TrimLeftKeeps(d);
  }

  lemma TrimLeftKeeps(s: string)
    requires s != [] && !IsSpace(s[0])
    ensures TrimLeft(s) == s
  {
  }
}
