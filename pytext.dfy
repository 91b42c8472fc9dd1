/**
 * The behaviour of Python's `str`/`unicode` methods that the modelled code relies on:
 * `strip()`, `sub in s`, `s.split(sep)`, `s.split(c, 1)`, `sep.join(parts)`, the
 * lexicographic order `sorted` uses on strings, and `str()` of an integer.
 */
module PyText {
  import opened Wrappers

  /** The characters Python 2.7's `unicode.isspace()` accepts (its Unicode 5.2 database),
      which `strip()` removes. */
  predicate IsSpace(c: char)
  {
    || ('\t' <= c <= '\r')
    || ('\U{1c}' <= c <= ' ')
    || c == '\U{85}' || c == '\U{a0}' || c == '\U{1680}' || c == '\U{180e}'
    || ('\U{2000}' <= c <= '\U{200a}')
    || c == '\U{2028}' || c == '\U{2029}' || c == '\U{202f}' || c == '\U{205f}' || c == '\U{3000}'
  }

  predicate AllSpace(s: string)
  {
    forall i :: 0 <= i < |s| ==> IsSpace(s[i])
  }

  /** Neither end of `s` is whitespace. */
  predicate IsStripped(s: string)
  {
    |s| == 0 || (!IsSpace(s[0]) && !IsSpace(s[|s| - 1]))
  }

  /** `s.lstrip()`: the suffix of `s` left after dropping the leading whitespace. */
  function LStrip(s: string): (r: string)
    ensures |r| <= |s| && r == s[|s| - |r|..]
    ensures AllSpace(s[..|s| - |r|])
    ensures |r| > 0 ==> !IsSpace(r[0])
  {
    if |s| > 0 && IsSpace(s[0]) then LStrip(s[1..]) else s
  }

  /** `s.rstrip()`: the prefix of `s` left after dropping the trailing whitespace. */
  function RStrip(s: string): (r: string)
    ensures |r| <= |s| && r == s[..|r|]
    ensures AllSpace(s[|r|..])
    ensures |r| > 0 ==> !IsSpace(r[|r| - 1])
  {
    if |s| > 0 && IsSpace(s[|s| - 1]) then RStrip(s[..|s| - 1]) else s
  }

  /** `s.strip()`: no whitespace is left at either end. */
  function Strip(s: string): (r: string)
    ensures IsStripped(r)
  {
    var l := LStrip(s);
    var r := RStrip(l);
    assert |r| > 0 ==> r[0] == l[0];
    r
  }

  /** `s.strip()` leaves no whitespace at either end and only removes whitespace. */
  lemma StripShape(s: string)
    ensures IsStripped(Strip(s))
    ensures exists i, j :: 0 <= i <= j <= |s| && Strip(s) == s[i..j]
                           && AllSpace(s[..i]) && AllSpace(s[j..])
  {
    var l := LStrip(s);
    var r := RStrip(l);
    var i := |s| - |l|;
    var j := i + |r|;
    assert r == s[i..j];
    assert s[j..] == l[|r|..];
    if |r| > 0 {
      assert r[0] == l[0];
    }
  }

  /** Stripping a string that is already stripped changes nothing. */
  lemma StripStripped(s: string)
    requires IsStripped(s)
    ensures Strip(s) == s
  {
  }

  /** Stripping one leading blank off a stripped string gives that string back. */
  lemma StripAfterBlank(s: string)
    requires IsStripped(s)
    ensures Strip(" " + s) == s
  {
    var t := " " + s;
    assert t[1..] == s;
    assert IsSpace(t[0]);
    assert LStrip(t) == LStrip(s);
    StripStripped(s);
  }

  /** `sub` occurs in `s` starting at index `j`. */
  predicate OccursAt(s: string, sub: string, j: nat)
  {
    j + |sub| <= |s| && s[j..j + |sub|] == sub
  }

  /** `s.find(sub)`: the leftmost index at which `sub` occurs, or None for Python's -1. */
  function Find(s: string, sub: string): (r: Option<nat>)
    ensures r.Some? ==> OccursAt(s, sub, r.value)
    ensures r.Some? ==> forall j: nat :: j < r.value ==> !OccursAt(s, sub, j)
    ensures r.None? ==> forall j: nat :: !OccursAt(s, sub, j)
  {
    if |s| < |sub| then None
    else if s[..|sub|] == sub then Some(0)
    else
      var r := Find(s[1..], sub);
      assert forall j: nat :: 0 < j ==> (OccursAt(s, sub, j) <==> OccursAt(s[1..], sub, j - 1)) by {
        forall j: nat | 0 < j ensures OccursAt(s, sub, j) <==> OccursAt(s[1..], sub, j - 1) {
          if j + |sub| <= |s| {
            assert s[1..][j - 1..j - 1 + |sub|] == s[j..j + |sub|];
          }
        }
      }
      assert !OccursAt(s, sub, 0);
      if r.Some? then Some(r.value + 1) else None
  }

  /** Python's `sub in s`. */
  predicate Contains(s: string, sub: string)
  {
    Find(s, sub).Some?
  }

  /** `s.split(sep)` for a non-empty separator: the pieces between the non-overlapping
      occurrences of `sep`, scanning from the left. */
  function Split(s: string, sep: string): (r: seq<string>)
    requires |sep| > 0
    ensures |r| > 0
    decreases |s|
  {
    match Find(s, sep)
    case None => [s]
    case Some(i) => [s[..i]] + Split(s[i + |sep|..], sep)
  }

  /** A string splits into more than one piece exactly when it holds the separator. */
  lemma SplitPieces(s: string, sep: string)
    requires |sep| > 0
    ensures Contains(s, sep) <==> |Split(s, sep)| >= 2
    ensures !Contains(s, sep) ==> Split(s, sep) == [s]
  {
  }

  /** `sep.join(parts)`. */
  function Join(parts: seq<string>, sep: string): string
  {
    if |parts| == 0 then ""
    else if |parts| == 1 then parts[0]
    else parts[0] + sep + Join(parts[1..], sep)
  }

  /** Joining pieces in front of at least one more piece puts the separator between. */
  lemma JoinCons(p: string, ps: seq<string>, sep: string)
    requires |ps| > 0
    ensures Join([p] + ps, sep) == p + sep + Join(ps, sep)
  {
    assert ([p] + ps)[0] == p && ([p] + ps)[1..] == ps;
  }

  /** A string is the text before an occurrence, the occurrence and the text after it. */
  lemma AroundOccurrence(s: string, sep: string, i: nat)
    requires OccursAt(s, sep, i)
    ensures s == s[..i] + sep + s[i + |sep|..]
  {
    assert s[i..i + |sep|] == sep;
    assert s == s[..i] + s[i..i + |sep|] + s[i + |sep|..];
  }

  /** Joining the pieces of a split with the same separator gives the original string. */
  lemma {:induction false} JoinSplit(s: string, sep: string)
    requires |sep| > 0
    ensures Join(Split(s, sep), sep) == s
    decreases |s|
  {
    match Find(s, sep)
    case None =>
    case Some(i) =>
      var rest := s[i + |sep|..];
      JoinSplit(rest, sep);
      var pieces := Split(rest, sep);
      assert Split(s, sep) == [s[..i]] + pieces;
      JoinCons(s[..i], pieces, sep);
      AroundOccurrence(s, sep, i);
  }

  /** No piece of a split contains the separator. */
  lemma {:induction false} SplitPiecesFree(s: string, sep: string)
    requires |sep| > 0
    ensures forall k :: 0 <= k < |Split(s, sep)| ==> !Contains(Split(s, sep)[k], sep)
    decreases |s|
  {
    match Find(s, sep)
    case None =>
    case Some(i) =>
      var rest := s[i + |sep|..];
      SplitPiecesFree(rest, sep);
      var head := s[..i];
      forall j: nat | OccursAt(head, sep, j)
        ensures OccursAt(s, sep, j)
      {
        assert head[j..j + |sep|] == s[j..j + |sep|];
      }
      assert !Contains(head, sep);
  }

  /** The separator `" | "` of multi-valued tag lists. */
  const Bar: string := " | "

  /** A string without the character `'|'` holds no `" | "`. */
  lemma BarlessHasNoBar(s: string)
    requires '|' !in s
    ensures Find(s, Bar) == None
  {
    forall j: nat
      ensures !OccursAt(s, Bar, j)
    {
      if j + 3 <= |s| {
        assert s[j..j + 3][1] == s[j + 1] != '|';
      }
    }
  }

  /** In `a + " | " + rest` with `a` free of `'|'`, the first `" | "` is the one after `a`. */
  lemma FindAfterBarless(a: string, rest: string)
    requires '|' !in a
    ensures Find(a + Bar + rest, Bar) == Some(|a|)
  {
    var s := a + Bar + rest;
    assert s[|a|..|a| + 3] == Bar;
    assert OccursAt(s, Bar, |a|);
    forall j: nat | j < |a|
      ensures !OccursAt(s, Bar, j)
    {
      if j + 1 < |a| {
        assert s[j + 1] == a[j + 1] != '|';
      } else {
        assert s[j + 1] == Bar[0] == ' ';
      }
      assert s[j..j + 3][1] == s[j + 1];
    }
  }

  /** Splitting a `" | "`-join of strings free of `'|'` gives those strings back. */
  lemma {:induction false} SplitJoinBarless(parts: seq<string>)
    requires |parts| > 0
    requires forall k :: 0 <= k < |parts| ==> '|' !in parts[k]
    ensures Split(Join(parts, Bar), Bar) == parts
    decreases |parts|
  {
    if |parts| == 1 {
      BarlessHasNoBar(parts[0]);
    } else {
      var head, rest := parts[0], Join(parts[1..], Bar);
      var s := head + Bar + rest;
      assert Join(parts, Bar) == s;
      FindAfterBarless(head, rest);
      assert s[..|head|] == head;
      assert s[|head| + |Bar|..] == rest;
      assert Split(s, Bar) == [head] + Split(rest, Bar);
      SplitJoinBarless(parts[1..]);
      assert parts == [head] + parts[1..];
    }
  }

  /** `s.split(c, 1)`: the text before the first `c` and the text after it, or None when
      `c` does not occur (Python then returns a one-element list). */
  function SplitOnce(s: string, c: char): (r: Option<(string, string)>)
    ensures r.None? <==> c !in s
    ensures r.Some? ==> c !in r.value.0 && s == r.value.0 + [c] + r.value.1
  {
    match Find(s, [c])
    case None =>
      assert forall j :: 0 <= j < |s| ==> (s[j] == c ==> OccursAt(s, [c], j));
      None
    case Some(i) =>
      assert s[i..i + 1] == [c];
      assert forall j :: 0 <= j < i ==> (s[j] == c ==> OccursAt(s, [c], j));
      assert s == s[..i] + [c] + s[i + 1..];
      Some((s[..i], s[i + 1..]))
  }

  /** Splitting `a + [c] + b` once at `c`, where `a` holds no `c`, gives back `a` and `b`. */
  lemma SplitOnceAt(a: string, c: char, b: string)
    requires c !in a
    ensures SplitOnce(a + [c] + b, c) == Some((a, b))
  {
    var s := a + [c] + b;
    var r := SplitOnce(s, c).value;
    assert s[|r.0|] == c && s[|a|] == c;
    assert forall k :: 0 <= k < |a| ==> s[k] == a[k];
    assert forall k :: 0 <= k < |r.0| ==> s[k] == r.0[k];
    assert |r.0| == |a|;
    assert r.0 == s[..|a|] == a;
    assert r.1 == s[|a| + 1..] == b;
  }

  /** The order in which Python compares two unicode strings: by code point, a proper
      prefix first. */
  predicate StrLe(a: string, b: string)
    decreases |a|
  {
    |a| == 0 || (|b| > 0 && (a[0] < b[0] || (a[0] == b[0] && StrLe(a[1..], b[1..]))))
  }

  lemma {:induction false} StrLeTotal(a: string, b: string)
    ensures StrLe(a, b) || StrLe(b, a)
    decreases |a|
  {
    if |a| > 0 && |b| > 0 && a[0] == b[0] {
      StrLeTotal(a[1..], b[1..]);
    }
  }

  lemma {:induction false} StrLeAntisymmetric(a: string, b: string)
    requires StrLe(a, b) && StrLe(b, a)
    ensures a == b
    decreases |a|
  {
    if |a| > 0 {
      StrLeAntisymmetric(a[1..], b[1..]);
      assert a == [a[0]] + a[1..] && b == [b[0]] + b[1..];
    }
  }

  lemma {:induction false} StrLeTransitive(a: string, b: string, c: string)
    requires StrLe(a, b) && StrLe(b, c)
    ensures StrLe(a, c)
    decreases |a|
  {
    if |a| > 0 && a[0] == b[0] && b[0] == c[0] {
      StrLeTransitive(a[1..], b[1..], c[1..]);
    }
  }

  /** The decimal digit for `d`. */
  function Digit(d: nat): char
    requires d < 10
  {
    "0123456789"[d]
  }

  /** The value of a decimal digit character. */
  function DigitValue(c: char): nat
  {
    if '0' <= c <= '9' then (c - '0') as nat else 0
  }

  /** `str(n)` for a natural number: its decimal digits, most significant first. */
  function NatToStr(n: nat): (r: string)
    ensures |r| > 0
    ensures forall k :: 0 <= k < |r| ==> '0' <= r[k] <= '9'
    ensures r[0] == '0' ==> n == 0
  {
    if n < 10 then [Digit(n)] else NatToStr(n / 10) + [Digit(n % 10)]
  }

  /** `str(i)` for a Python integer. */
  function IntToStr(i: int): string
  {
    if i < 0 then "-" + NatToStr(-i) else NatToStr(i)
  }

  /** Reading a string of decimal digits back as a number (Python's `int(s)` on digits). */
  function ParseNat(s: string): nat
  {
    if |s| == 0 then 0 else 10 * ParseNat(s[..|s| - 1]) + DigitValue(s[|s| - 1])
  }

  /** Reading back the digits `str` writes gives the number. */
  lemma {:induction false} NatToStrRoundTrip(n: nat)
    ensures ParseNat(NatToStr(n)) == n
  {
    if n >= 10 {
      NatToStrRoundTrip(n / 10);
      var s := NatToStr(n);
      assert s[..|s| - 1] == NatToStr(n / 10);
    }
  }

  /** One or more decimal digits. */
  predicate AllDigits(s: string)
  {
    |s| > 0 && forall k :: 0 <= k < |s| ==> '0' <= s[k] <= '9'
  }

  /** A character that `int()` on a `unicode` value can pass on to the byte parser:
      whitespace, or a Latin-1 character other than NUL. */
  predicate Encodable(c: char)
  {
    IsSpace(c) || ('\U{1}' <= c <= '\U{ff}')
  }

  /** The first step of Python 2's `int()` on a `unicode` value (`PyUnicode_EncodeDecimal`):
      whitespace becomes a blank and other Latin-1 characters except NUL are kept. Any other
      character raises `UnicodeEncodeError`, a `ValueError`; that is None. */
  function EncodeDecimal(s: string): (r: Option<string>)
    ensures r.Some? <==> forall k :: 0 <= k < |s| ==> Encodable(s[k])
    ensures r.Some? ==> |r.value| == |s|
    ensures r.Some? ==> forall k :: 0 <= k < |s| ==> r.value[k] == if IsSpace(s[k]) then ' ' else s[k]
  {
    if forall k :: 0 <= k < |s| ==> Encodable(s[k]) then
      Some(seq(|s|, k requires 0 <= k < |s| => if IsSpace(s[k]) then ' ' else s[k]))
    else None
  }

  /** `isspace` of the C library in the "C" locale, which the byte parser uses. */
  predicate IsCSpace(c: char)
  {
    c == ' ' || ('\t' <= c <= '\r')
  }

  predicate AllCSpace(s: string)
  {
    forall k :: 0 <= k < |s| ==> IsCSpace(s[k])
  }

  /** The suffix left after dropping leading C whitespace. */
  function LStripC(s: string): string
  {
    if |s| > 0 && IsCSpace(s[0]) then LStripC(s[1..]) else s
  }

  /** The prefix left after dropping trailing C whitespace. */
  function RStripC(s: string): string
  {
    if |s| > 0 && IsCSpace(s[|s| - 1]) then RStripC(s[..|s| - 1]) else s
  }

  /** `LStripC` drops exactly the leading C whitespace. */
  lemma {:induction false} LStripCShape(s: string)
    ensures |LStripC(s)| <= |s| && LStripC(s) == s[|s| - |LStripC(s)|..]
    ensures AllCSpace(s[..|s| - |LStripC(s)|])
    ensures |LStripC(s)| > 0 ==> !IsCSpace(LStripC(s)[0])
    decreases |s|
  {
    if |s| > 0 && IsCSpace(s[0]) {
      var t := s[1..];
      LStripCShape(t);
      var n := |t| - |LStripC(t)|;
      assert s[|s| - |LStripC(s)|..] == t[n..];
      assert s[..n + 1] == [s[0]] + t[..n];
    }
  }

  /** `RStripC` drops exactly the trailing C whitespace. */
  lemma {:induction false} RStripCShape(s: string)
    ensures |RStripC(s)| <= |s| && RStripC(s) == s[..|RStripC(s)|]
    ensures AllCSpace(s[|RStripC(s)|..])
    ensures |RStripC(s)| > 0 ==> !IsCSpace(RStripC(s)[|RStripC(s)| - 1])
    decreases |s|
  {
    if |s| > 0 && IsCSpace(s[|s| - 1]) {
      var t := s[..|s| - 1];
      RStripCShape(t);
      var n := |RStripC(t)|;
      assert s[..n] == t[..n];
      assert s[n..] == t[n..] + [s[|s| - 1]];
    }
  }

  /** The value of the digits `d` under the sign `sign`, which is "", "+" or "-". */
  function Signed(sign: string, d: string): int
  {
    if sign == "-" then -(ParseNat(d) as int) else ParseNat(d) as int
  }

  predicate IsSign(sign: string)
  {
    sign == "" || sign == "-" || sign == "+"
  }

  /** Python 2's `int()` on a byte string in base 10 (`PyInt_FromString` with
      `PyOS_strtol`): C whitespace is skipped before the sign, after the sign and after the
      digits, and at least one digit must be there; anything else raises `ValueError`
      (None). */
  function ParseBytes(b: string): Option<int>
  {
    ParseCore(LStripC(RStripC(b)))
  }

  /** The text between the outer whitespace: a sign, whitespace and digits, or digits. */
  function ParseCore(t: string): Option<int>
  {
    if |t| > 0 && (t[0] == '-' || t[0] == '+') then
      var d := LStripC(t[1..]);
      if AllDigits(d) then Some(Signed(t[..1], d)) else None
    else if AllDigits(t) then Some(Signed("", t))
    else None
  }

  /** Python 2's `int(u)` on a `unicode` value: encoded, then parsed as bytes. */
  function ParseInt(s: string): Option<int>
  {
    match EncodeDecimal(s)
    case None => None
    case Some(b) => ParseBytes(b)
  }

  /** A digit is none of the kinds of whitespace. */
  lemma DigitNotSpace(c: char)
    requires '0' <= c <= '9'
    ensures !IsSpace(c) && !IsCSpace(c)
  {
  }

  /** Stripping C whitespace from a string without it at its ends changes nothing. */
  lemma StripCNothing(s: string)
    requires |s| > 0 ==> !IsCSpace(s[0]) && !IsCSpace(s[|s| - 1])
    ensures RStripC(s) == s && LStripC(s) == s
  {
  }

  /** C whitespace before and after a core that starts and ends with neither is exactly
      what the two strips remove. */
  lemma StripCAround(w1: string, core: string, w3: string)
    requires AllCSpace(w1) && AllCSpace(w3)
    requires |core| > 0 && !IsCSpace(core[0]) && !IsCSpace(core[|core| - 1])
    ensures LStripC(RStripC(w1 + core + w3)) == core
  {
    RStripAll(w1 + core, w3);
    LStripAll(w1, core);
  }

  lemma {:induction false} RStripAll(s: string, w: string)
    requires AllCSpace(w) && |s| > 0 && !IsCSpace(s[|s| - 1])
    ensures RStripC(s + w) == s
    decreases |w|
  {
    if |w| == 0 {
      assert s + w == s;
    } else {
      var sw := s + w;
      assert IsCSpace(sw[|sw| - 1]);
      assert sw[..|sw| - 1] == s + w[..|w| - 1];
      RStripAll(s, w[..|w| - 1]);
    }
  }

  lemma {:induction false} LStripAll(w: string, s: string)
    requires AllCSpace(w) && |s| > 0 && !IsCSpace(s[0])
    ensures LStripC(w + s) == s
    decreases |w|
  {
    if |w| == 0 {
      assert w + s == s;
    } else {
      var ws := w + s;
      assert IsCSpace(ws[0]);
      assert ws[1..] == w[1..] + s;
      LStripAll(w[1..], s);
    }
  }

  /** A sign, whitespace and digits are read as the signed digits. */
  lemma ParseCoreSigned(sign: string, w2: string, d: string)
    requires AllCSpace(w2) && (sign == "-" || sign == "+") && AllDigits(d)
    ensures ParseCore(sign + w2 + d) == Some(Signed(sign, d))
  {
    var t := sign + w2 + d;
    assert t[0] == sign[0] && t[1..] == w2 + d && t[..1] == sign;
    DigitNotSpace(d[0]);
    LStripAll(w2, d);
  }

  /** Digits alone are read as their value. */
  lemma ParseCoreDigits(d: string)
    requires AllDigits(d)
    ensures ParseCore(d) == Some(Signed("", d))
  {
    assert '0' <= d[0] <= '9';
  }

  /** Every byte string of the form whitespace, sign, whitespace, digits, whitespace is
      read as the signed value of its digits. */
  lemma ParseBytesForm(w1: string, sign: string, w2: string, d: string, w3: string)
    requires AllCSpace(w1) && AllCSpace(w2) && AllCSpace(w3) && IsSign(sign) && AllDigits(d)
    requires sign == "" ==> w2 == ""
    ensures ParseBytes(w1 + sign + w2 + d + w3) == Some(Signed(sign, d))
  {
    var core := sign + w2 + d;
    assert w1 + sign + w2 + d + w3 == w1 + core + w3;
    DigitNotSpace(d[0]);
    DigitNotSpace(d[|d| - 1]);
    assert core[|core| - 1] == d[|d| - 1];
    if sign == "" {
      assert core == d;
      StripCAround(w1, d, w3);
      ParseCoreDigits(d);
    } else {
      assert core[0] == sign[0];
      StripCAround(w1, core, w3);
      ParseCoreSigned(sign, w2, d);
    }
  }

  /** Only byte strings of that form are read: the parse names the pieces. */
  lemma ParseBytesOnlyForm(b: string) returns (w1: string, sign: string, w2: string, d: string, w3: string)
    requires ParseBytes(b).Some?
    ensures AllCSpace(w1) && AllCSpace(w2) && AllCSpace(w3) && IsSign(sign) && AllDigits(d)
    ensures b == w1 + sign + w2 + d + w3
    ensures ParseBytes(b) == Some(Signed(sign, d))
  {
    var t;
    w1, t, w3 := OuterBlanks(b);
    sign, w2, d := CorePieces(t);
    assert b == w1 + sign + w2 + d + w3;
  }

  /** Any string is C whitespace, the text the two strips leave, and C whitespace. */
  lemma OuterBlanks(b: string) returns (w1: string, t: string, w3: string)
    ensures AllCSpace(w1) && AllCSpace(w3)
    ensures t == LStripC(RStripC(b)) && b == w1 + t + w3
  {
    var r := RStripC(b);
    t := LStripC(r);
    RStripCShape(b);
    LStripCShape(r);
    w1 := r[..|r| - |t|];
    w3 := b[|r|..];
    assert r == w1 + t;
  }

  /** The pieces of a core that parses. */
  lemma CorePieces(t: string) returns (sign: string, w2: string, d: string)
    requires ParseCore(t).Some?
    ensures AllCSpace(w2) && IsSign(sign) && AllDigits(d)
    ensures t == sign + w2 + d
    ensures ParseCore(t) == Some(Signed(sign, d))
  {
    if |t| > 0 && (t[0] == '-' || t[0] == '+') {
      sign := t[..1];
      var u := t[1..];
      d := LStripC(u);
      LStripCShape(u);
      w2 := u[..|u| - |d|];
      assert u == w2 + d;
      assert t == sign + u;
    } else {
      sign := "";
      w2 := "";
      d := t;
      assert t == sign + w2 + d;
    }
  }

  /** Blanks between the sign and the digits are skipped: `int(u'- 5') == -5`. */
  lemma ParseIntSpaceAfterSign()
    ensures ParseInt("- 5") == Some(-5)
  {
    EncodeExample("- 5", "- 5");
    ParseIntEncoded("- 5", "- 5");
    ParseBytesForm("", "-", " ", "5", "");
    assert "" + "-" + " " + "5" + "" == "- 5";
  }

  /** A tab after the sign is encoded as a blank and then skipped: `int(u' +\t7 ') == 7`. */
  lemma ParseIntTabAfterSign()
    ensures ParseInt(" +\t7 ") == Some(7)
  {
    EncodeExample(" +\t7 ", " + 7 ");
    ParseIntEncoded(" +\t7 ", " + 7 ");
    ParseBytesForm(" ", "+", " ", "7", " ");
    assert " " + "+" + " " + "7" + " " == " + 7 ";
  }

  /** Encoding of a string whose characters are all encodable, given its expected result. */
  lemma EncodeExample(s: string, e: string)
    requires |s| == |e|
    requires forall k :: 0 <= k < |s| ==> Encodable(s[k]) && e[k] == if IsSpace(s[k]) then ' ' else s[k]
    ensures EncodeDecimal(s) == Some(e)
  {
    assert forall k :: 0 <= k < |s| ==> Encodable(s[k]);
    var r := EncodeDecimal(s).value;
    assert |r| == |e|;
    assert forall k :: 0 <= k < |s| ==> r[k] == e[k];
    assert r == e;
  }

  /** A character that encoding keeps as it is. */
  predicate Plain(c: char)
  {
    '\U{1}' <= c <= '\U{ff}' && !IsSpace(c)
  }

  /** Plain characters pass through encoding. */
  lemma EncodePlain(s: string)
    requires forall k :: 0 <= k < |s| ==> Plain(s[k])
    ensures EncodeDecimal(s) == Some(s)
  {
    EncodeExample(s, s);
  }

  /** Digits and signs are plain. */
  lemma DigitsPlain(sign: string, d: string)
    requires IsSign(sign) && AllDigits(d)
    ensures forall k :: 0 <= k < |sign + d| ==> Plain((sign + d)[k])
  {
    forall k | 0 <= k < |sign + d| ensures Plain((sign + d)[k]) {
      if k >= |sign| {
        assert (sign + d)[k] == d[k - |sign|];
        DigitNotSpace(d[k - |sign|]);
      }
    }
  }

  /** `int` of a string that encodes to `b` is `int` of the bytes `b`. */
  lemma ParseIntEncoded(s: string, b: string)
    requires EncodeDecimal(s) == Some(b)
    ensures ParseInt(s) == ParseBytes(b)
  {
  }

  /** A sign and digits, nothing else, are read as the signed digits. */
  lemma ParseSignDigits(sign: string, d: string)
    requires IsSign(sign) && AllDigits(d)
    ensures ParseInt(sign + d) == Some(Signed(sign, d))
  {
    var s := sign + d;
    assert "" + sign + "" + d + "" == s;
    ParseBytesForm("", sign, "", d, "");
    PlainParse(s, sign, d);
  }

  /** A plain string is read as the bytes it is. */
  lemma PlainParse(s: string, sign: string, d: string)
    requires s == sign + d && IsSign(sign) && AllDigits(d)
    ensures ParseInt(s) == ParseBytes(s)
  {
    DigitsPlain(sign, d);
    EncodePlain(s);
    ParseIntEncoded(s, s);
  }

  /** A string of decimal digits is read as its value. */
  lemma ParseDigitString(t: string)
    requires AllDigits(t)
    ensures ParseInt(t) == Some(ParseNat(t) as int)
  {
    ParseSignDigits("", t);
    assert "" + t == t;
  }

  /** Python's `int` reads back the decimal digits of a natural number. */
  lemma ParseDigits(n: nat)
    ensures ParseInt(NatToStr(n)) == Some(n as int)
  {
    NatToStrRoundTrip(n);
    ParseDigitString(NatToStr(n));
  }

  /** Python's `int` reads a minus sign followed by decimal digits as the negated value. */
  lemma ParseMinusDigits(d: string)
    requires AllDigits(d)
    ensures ParseInt("-" + d) == Some(-(ParseNat(d) as int))
  {
    ParseSignDigits("-", d);
    MinusSigned(d);
  }

  /** Under a minus sign the digits count negatively. */
  lemma MinusSigned(d: string)
    ensures Signed("-", d) == -(ParseNat(d) as int)
  {
  }

  /** `str` of a negative integer is a minus sign before the digits of its magnitude. */
  lemma IntToStrNegative(n: nat)
    requires n > 0
    ensures IntToStr(-(n as int)) == "-" + NatToStr(n)
  {
  }

  /** `int(str(i)) == i`. */
  lemma IntToStrRoundTrip(i: int)
    ensures ParseInt(IntToStr(i)) == Some(i)
  {
    if i < 0 {
      var n: nat := -i;
      ParseMinusDigits(NatToStr(n));
      NatToStrRoundTrip(n);
      IntToStrNegative(n);
    } else {
      ParseDigits(i);
    }
  }
}
