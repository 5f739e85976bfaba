/**
 * The string handling the engine and the network scripts rely on: splitting
 * a line into whitespace-separated tokens (C++ `operator>>`, Python
 * `str.split()`), `str.strip()`, joining tokens with single spaces, and the
 * decimal number syntax of `std::stoi`, of C++ `operator>>` into an int and
 * of Python `int()`.
 */
module Text {
  import opened Wrappers

  /** Whitespace for C++ stream extraction in the "C" locale. */
  predicate IsCSpace(c: char)
  {
    c == ' ' || c == '\t' || c == '\n' || c == '\r' || c == '\U{B}' || c == '\U{C}'
  }

  /** Whitespace for Python's `str.split()` and `str.strip()` (`str.isspace`). */
  predicate IsPySpace(c: char)
  {
    || IsCSpace(c)
    || ('\U{1C}' <= c <= '\U{1F}')
    || c == '\U{85}' || c == '\U{A0}' || c == '\U{1680}'
    || ('\U{2000}' <= c <= '\U{200A}')
    || c == '\U{2028}' || c == '\U{2029}' || c == '\U{202F}' || c == '\U{205F}' || c == '\U{3000}'
  }

  /** Which whitespace convention a split or strip uses. */
  datatype Spaces = CStream | Python

  predicate IsSpace(sp: Spaces, c: char)
  {
    if sp == CStream then IsCSpace(c) else IsPySpace(c)
  }

  predicate NoSpace(w: string, sp: Spaces)
  {
    forall i :: 0 <= i < |w| ==> !IsSpace(sp, w[i])
  }

  /** The input with its leading whitespace removed. */
  function DropSpace(s: string, sp: Spaces): (t: string)
    ensures |t| <= |s| && t == s[|s| - |t|..]
    ensures t == [] || !IsSpace(sp, t[0])
    ensures forall i :: 0 <= i < |s| - |t| ==> IsSpace(sp, s[i])
  {
    if s != [] && IsSpace(sp, s[0]) then DropSpace(s[1..], sp) else s
  }

  /** The longest prefix without whitespace. */
  function TakeWord(s: string, sp: Spaces): (w: string)
    ensures |w| <= |s| && w == s[..|w|]
    ensures NoSpace(w, sp)
    ensures |w| == |s| || IsSpace(sp, s[|w|])
  {
    if s == [] || IsSpace(sp, s[0]) then [] else [s[0]] + TakeWord(s[1..], sp)
  }

  /** Splitting on runs of whitespace; every token is non-empty and has no whitespace. */
  function Words(s: string, sp: Spaces): (ws: seq<string>)
    decreases |s|
  {
    var t := DropSpace(s, sp);
    if t == [] then []
    else
      var w := TakeWord(t, sp);
      [w] + Words(t[|w|..], sp)
  }

  /** Tokens joined with one space between consecutive tokens. */
  function Unwords(ws: seq<string>): string
  {
    if ws == [] then [] else if |ws| == 1 then ws[0] else ws[0] + " " + Unwords(ws[1..])
  }

  predicate IsToken(w: string)
  {
    w != [] && NoSpace(w, CStream)
  }

  lemma {:induction false} TakeWordOfWord(w: string, rest: string, sp: Spaces)
    requires NoSpace(w, sp)
    requires rest == [] || IsSpace(sp, rest[0])
    ensures TakeWord(w + rest, sp) == w
    decreases |w|
  {
    if w == [] {
      assert w + rest == rest;
    } else {
      assert (w + rest)[1..] == w[1..] + rest;
      TakeWordOfWord(w[1..], rest, sp);
    }
  }

  lemma {:induction false} UnwordsStart(ws: seq<string>)
    requires forall i :: 0 <= i < |ws| ==> IsToken(ws[i])
    ensures ws != [] ==> IsToken(ws[0]) && Unwords(ws) != [] && Unwords(ws)[0] == ws[0][0]
  {
    if |ws| > 1 {
      assert IsToken(ws[0]);
      assert (ws[0] + " " + Unwords(ws[1..]))[0] == ws[0][0];
    }
  }

  /** Every token of a split is non-empty and has no whitespace. */
  lemma {:induction false} WordsAreTokens(s: string, sp: Spaces)
    ensures forall i :: 0 <= i < |Words(s, sp)| ==> Words(s, sp)[i] != [] && NoSpace(Words(s, sp)[i], sp)
    decreases |s|
  {
    var t := DropSpace(s, sp);
    if t != [] {
      var w := TakeWord(t, sp);
      WordsCons(s, sp);
      WordsAreTokens(t[|w|..], sp);
      TokensCons(w, Words(t[|w|..], sp), sp);
    }
  }

  /** A split that finds a token: the first word, then the split of what follows it. */
  lemma WordsCons(s: string, sp: Spaces)
    requires DropSpace(s, sp) != []
    ensures var t := DropSpace(s, sp);
            TakeWord(t, sp) != [] && Words(s, sp) == [TakeWord(t, sp)] + Words(t[|TakeWord(t, sp)|..], sp)
  {
    var t := DropSpace(s, sp);
    assert TakeWord(t, sp) == [t[0]] + TakeWord(t[1..], sp);
  }

  lemma TokensCons(w: string, rest: seq<string>, sp: Spaces)
    requires w != [] && NoSpace(w, sp)
    requires forall i :: 0 <= i < |rest| ==> rest[i] != [] && NoSpace(rest[i], sp)
    ensures forall i :: 0 <= i < |[w] + rest| ==> ([w] + rest)[i] != [] && NoSpace(([w] + rest)[i], sp)
  {
    var ws := [w] + rest;
    forall i | 0 <= i < |ws| ensures ws[i] != [] && NoSpace(ws[i], sp) {
      if i > 0 {
        assert ws[i] == rest[i - 1];
      }
    }
  }

  /** Splitting tokens joined by single spaces gives the tokens back. */
  lemma {:induction false} WordsOfUnwords(ws: seq<string>)
    requires forall i :: 0 <= i < |ws| ==> IsToken(ws[i])
    ensures Words(Unwords(ws), CStream) == ws
    decreases |ws|
  {
    if ws == [] {
    } else if |ws| == 1 {
      var w := ws[0];
      assert DropSpace(w, CStream) == w;
      assert w + [] == w;
      TakeWordOfWord(w, [], CStream);
      assert w[|w|..] == [];
    } else {
      var w, rest := ws[0], Unwords(ws[1..]);
      UnwordsStart(ws[1..]);
      var s := w + " " + rest;
      assert Unwords(ws) == s;
      assert DropSpace(s, CStream) == s;
      assert s == w + (" " + rest);
      TakeWordOfWord(w, " " + rest, CStream);
      assert s[|w|..] == " " + rest;
      assert DropSpace(" " + rest, CStream) == DropSpace(rest, CStream);
      assert Words(" " + rest, CStream) == Words(rest, CStream);
      WordsOfUnwords(ws[1..]);
    }
  }

  /**
   * t is s with the first i characters and everything after t removed, and
   * every removed character is whitespace.
   */
  predicate TrimmedAt(s: string, t: string, i: nat)
  {
    i + |t| <= |s| && t == s[i..i + |t|]
    && (forall k :: 0 <= k < i ==> IsPySpace(s[k]))
    && (forall k :: i + |t| <= k < |s| ==> IsPySpace(s[k]))
  }

  /** Python's `str.strip()`. */
  function Strip(s: string): (t: string)
    ensures t == [] || (!IsPySpace(t[0]) && !IsPySpace(t[|t| - 1]))
    ensures exists i: nat :: TrimmedAt(s, t, i)
  {
    var d := DropSpace(s, Python);
    var t := StripRight(d);
    assert TrimmedAt(s, t, |s| - |d|);
    t
  }

  function StripRight(s: string): (t: string)
    ensures |t| <= |s| && t == s[..|t|]
    ensures t == [] || !IsPySpace(t[|t| - 1])
    ensures forall i :: |t| <= i < |s| ==> IsPySpace(s[i])
  {
    if s != [] && IsPySpace(s[|s| - 1]) then StripRight(s[..|s| - 1]) else s
  }

  // ----- decimal numbers -----

  predicate IsDigit(c: char)
  {
    '0' <= c <= '9'
  }

  function DigitValue(c: char): nat
    requires IsDigit(c)
  {
    (c as int) - ('0' as int)
  }

  /** Length of the run of decimal digits at the start of s. */
  function DigitRun(s: string): (n: nat)
    ensures n <= |s|
    ensures forall i :: 0 <= i < n ==> IsDigit(s[i])
    ensures n == |s| || !IsDigit(s[n])
  {
    if s != [] && IsDigit(s[0]) then 1 + DigitRun(s[1..]) else 0
  }

  function DigitsValue(d: string): nat
    requires forall i :: 0 <= i < |d| ==> IsDigit(d[i])
  {
    if d == [] then 0 else 10 * DigitsValue(d[..|d| - 1]) + DigitValue(d[|d| - 1])
  }

  /**
   * The longest prefix of the form [+-]digits, as (value, characters used);
   * None when there is no digit after the optional sign.  This is what
   * `strtol` (under `std::stoi`) and `operator>>` into an int accept in base 10.
   */
  function DecimalPrefix(s: string): (r: Option<(int, nat)>)
    ensures r.Some? ==> 0 < r.value.1 <= |s|
  {
    var signed := |s| > 0 && (s[0] == '+' || s[0] == '-');
    var start := if signed then 1 else 0;
    var n := DigitRun(s[start..]);
    if n == 0 then None
    else
      var v := DigitsValue(s[start..start + n]);
      var value := if signed && s[0] == '-' then 0 - (v as int) else v as int;
      Some((value, start + n))
  }

  const INT_MAX: int := 0x7FFF_FFFF
  const INT_MIN: int := -0x8000_0000

  predicate IsInt32(v: int)
  {
    INT_MIN <= v <= INT_MAX
  }

  datatype StoiError = InvalidArgument | OutOfRange

  /** `std::stoi(token)` for a token without leading whitespace. */
  function Stoi(token: string): (r: Result<int, StoiError>)
    ensures r.Success? ==> IsInt32(r.value)
  {
    match DecimalPrefix(token)
    case None => Failure(InvalidArgument)
    case Some((v, _)) => if IsInt32(v) then Success(v) else Failure(OutOfRange)
  }

  // ----- printing (used to state round trips) -----

  function DigitChar(d: nat): (c: char)
    requires d < 10
    ensures IsDigit(c) && DigitValue(c) == d
  {
    ('0' as int + d) as char
  }

  function ShowNat(n: nat): (s: string)
    ensures s != [] && forall i :: 0 <= i < |s| ==> IsDigit(s[i])
  {
    if n < 10 then [DigitChar(n)] else ShowNat(n / 10) + [DigitChar(n % 10)]
  }

  /** The canonical decimal form of an integer. */
  function Show(v: int): string
  {
    if v < 0 then "-" + ShowNat(-v) else ShowNat(v)
  }

  lemma {:induction false} ShowNatValue(n: nat)
    ensures DigitsValue(ShowNat(n)) == n
  {
    if n >= 10 {
      ShowNatValue(n / 10);
      var s := ShowNat(n);
      assert s[..|s| - 1] == ShowNat(n / 10);
    }
  }

  lemma AllDigitsRun(d: string)
    requires forall i :: 0 <= i < |d| ==> IsDigit(d[i])
    ensures DigitRun(d) == |d|
  {
  }

  /** Decimal parsing reads the canonical decimal form of any integer back. */
  lemma ParseShow(v: int)
    ensures DecimalPrefix(Show(v)) == Some((v, |Show(v)|))
    ensures IsInt32(v) ==> Stoi(Show(v)) == Success(v)
  {
    var s := Show(v);
    if v < 0 {
      var d := ShowNat(-v);
      assert s[1..] == d;
      AllDigitsRun(d);
      assert s[1..1 + |d|] == d;
      ShowNatValue(-v);
    } else {
      var d := ShowNat(v);
      AllDigitsRun(d);
      assert s[0..|d|] == d;
      ShowNatValue(v);
    }
  }

  lemma {:induction false} DigitRunAppend(d: string, rest: string)
    requires forall i :: 0 <= i < |d| ==> IsDigit(d[i])
    requires rest == [] || !IsDigit(rest[0])
    ensures DigitRun(d + rest) == |d|
    decreases |d|
  {
    if d == [] {
      assert d + rest == rest;
    } else {
      assert (d + rest)[1..] == d[1..] + rest;
      DigitRunAppend(d[1..], rest);
    }
  }

  /** A number followed by a non-digit is read the same as the number alone. */
  lemma DecimalPrefixAppend(v: int, rest: string)
    requires rest == [] || !IsDigit(rest[0])
    ensures DecimalPrefix(Show(v) + rest) == Some((v, |Show(v)|))
  {
    if v < 0 {
      NegativeAppend(v, rest);
    } else {
      UnsignedPrefix(ShowNat(v), rest);
      ShowNatValue(v);
    }
  }

  lemma NegativeAppend(v: int, rest: string)
    requires v < 0 && (rest == [] || !IsDigit(rest[0]))
    ensures DecimalPrefix(Show(v) + rest) == Some((v, |Show(v)|))
  {
    NegativeShow(v, rest);
    SignedPrefix(Show(v) + rest, ShowNat(-v), rest);
    ShowNatValue(-v);
  }

  /** The canonical form of a negative number is a minus sign and the digits of its magnitude. */
  lemma NegativeShow(v: int, rest: string)
    requires v < 0
    ensures var u := Show(v) + rest; |u| > 0 && u[0] == '-' && u[1..] == ShowNat(-v) + rest
  {
    var u := Show(v) + rest;
    assert u == "-" + (ShowNat(-v) + rest);
  }

  lemma SignedPrefix(u: string, d: string, rest: string)
    requires d != [] && forall i :: 0 <= i < |d| ==> IsDigit(d[i])
    requires rest == [] || !IsDigit(rest[0])
    requires |u| > 0 && u[0] == '-' && u[1..] == d + rest
    ensures DecimalPrefix(u) == Some((0 - (DigitsValue(d) as int), |d| + 1))
  {
    DigitRunAppend(d, rest);
    assert u[1..1 + |d|] == d;
  }

  lemma UnsignedPrefix(d: string, rest: string)
    requires d != [] && forall i :: 0 <= i < |d| ==> IsDigit(d[i])
    requires rest == [] || !IsDigit(rest[0])
    ensures DecimalPrefix(d + rest) == Some((DigitsValue(d) as int, |d|))
  {
    var u := d + rest;
    assert u[0..] == u && u[0] == d[0];
    DigitRunAppend(d, rest);
    assert u[0..|d|] == d;
  }

  // ----- Python int() -----

  /** Decimal digits with single underscores between digits, as Python `int()` accepts. */
  predicate PyDigits(b: string)
  {
    && b != []
    && IsDigit(b[0]) && IsDigit(b[|b| - 1])
    && (forall i :: 0 <= i < |b| ==> IsDigit(b[i]) || b[i] == '_')
    && (forall i :: 0 <= i < |b| - 1 ==> b[i] == '_' ==> b[i + 1] != '_')
  }

  function DropUnderscores(b: string): (d: string)
    requires forall i :: 0 <= i < |b| ==> IsDigit(b[i]) || b[i] == '_'
    ensures forall i :: 0 <= i < |d| ==> IsDigit(d[i])
  {
    if b == [] then [] else (if b[0] == '_' then [] else [b[0]]) + DropUnderscores(b[1..])
  }

  /** Python `int(token)` in base 10 for a token without surrounding whitespace. */
  function PyInt(t: string): Option<int>
  {
    var signed := |t| > 0 && (t[0] == '+' || t[0] == '-');
    var body := if signed then t[1..] else t;
    if !PyDigits(body) then None
    else
      var v := DigitsValue(DropUnderscores(body));
      Some(if signed && t[0] == '-' then 0 - (v as int) else v as int)
  }

  lemma {:induction false} NoUnderscores(d: string)
    requires forall i :: 0 <= i < |d| ==> IsDigit(d[i])
    ensures DropUnderscores(d) == d
  {
    if d != [] {
      NoUnderscores(d[1..]);
      assert d == [d[0]] + d[1..];
    }
  }

  /** Python `int()` reads the canonical decimal form of any integer back. */
  lemma PyIntShow(v: int)
    ensures PyInt(Show(v)) == Some(v)
  {
    if v < 0 {
      PyIntShowNegative(v);
    } else {
      PyIntShowNat(v);
    }
  }

  lemma PyIntShowNegative(v: int)
    requires v < 0
    ensures PyInt(Show(v)) == Some(v)
  {
    NegativeShowAlone(v);
    PyIntNegative(Show(v), ShowNat(-v));
    ShowNatValue(-v);
  }

  lemma PyIntShowNat(v: nat)
    ensures PyInt(Show(v)) == Some(v)
  {
    PyIntUnsigned(ShowNat(v));
    ShowNatValue(v);
  }

  lemma NegativeShowAlone(v: int)
    requires v < 0
    ensures |Show(v)| > 0 && Show(v)[0] == '-' && Show(v)[1..] == ShowNat(-v)
  {
    assert Show(v) == "-" + ShowNat(-v);
  }

  lemma AllDigitsPy(d: string)
    requires d != [] && forall i :: 0 <= i < |d| ==> IsDigit(d[i])
    ensures PyDigits(d) && DropUnderscores(d) == d
  {
    NoUnderscores(d);
  }

  lemma PyIntUnsigned(d: string)
    requires d != [] && forall i :: 0 <= i < |d| ==> IsDigit(d[i])
    ensures PyInt(d) == Some(DigitsValue(d) as int)
  {
    assert d[0] != '+' && d[0] != '-';
    AllDigitsPy(d);
  }

  lemma PyIntNegative(u: string, d: string)
    requires d != [] && forall i :: 0 <= i < |d| ==> IsDigit(d[i])
    requires |u| > 0 && u[0] == '-' && u[1..] == d
    ensures PyInt(u) == Some(0 - (DigitsValue(d) as int))
  {
    AllDigitsPy(d);
  }
}
