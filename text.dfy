/**
 * The Java library string behaviour the FTP handler depends on:
 * java.util.StringTokenizer, String.split with a one-character pattern,
 * Integer.parseInt, Integer/Long.toString, String.toLowerCase/toUpperCase
 * (ASCII letters only) and encoding through an ASCII charset.
 */
module Text {
  import opened Wrappers

  type byte = b: int | 0 <= b < 256

  /** StringTokenizer's default delimiters: space, tab, newline, carriage return, form feed. */
  const Whitespace: set<char> := {' ', '\t', '\n', '\r', '\U{000C}'}
  /** The delimiter set of `new StringTokenizer(path, "/")`. */
  const Slash: set<char> := {'/'}

  predicate NoneIn(s: string, delims: set<char>) {
    forall i :: 0 <= i < |s| ==> s[i] !in delims
  }

  // ---------------------------------------------------------------- tokenizer

  /** The token `cur` if it is not empty. */
  function Emit(cur: string): seq<string> {
    if |cur| == 0 then [] else [cur]
  }

  /** The tokens of `s`, where `cur` is the part of a token already scanned. */
  function Scan(s: string, delims: set<char>, cur: string): seq<string>
    decreases |s|
  {
    if |s| == 0 then Emit(cur)
    else if s[0] in delims then Emit(cur) + Scan(s[1..], delims, [])
    else Scan(s[1..], delims, cur + [s[0]])
  }

  /** The tokens `new StringTokenizer(s, delims)` hands out, in order. */
  function Tokens(s: string, delims: set<char>): seq<string> {
    Scan(s, delims, [])
  }

  predicate WellFormedTokens(ts: seq<string>, delims: set<char>) {
    forall i :: 0 <= i < |ts| ==> |ts[i]| > 0 && NoneIn(ts[i], delims)
  }

  lemma {:induction false} ScanWellFormed(s: string, delims: set<char>, cur: string)
    requires NoneIn(cur, delims)
    ensures WellFormedTokens(Scan(s, delims, cur), delims)
    decreases |s|
  {
    if |s| == 0 {
    } else if s[0] in delims {
      ScanWellFormed(s[1..], delims, []);
    } else {
      ScanWellFormed(s[1..], delims, cur + [s[0]]);
    }
  }

  /** Every token is non-empty and holds no delimiter. */
  lemma TokensWellFormed(s: string, delims: set<char>)
    ensures WellFormedTokens(Tokens(s, delims), delims)
  {
    ScanWellFormed(s, delims, []);
  }

  /** A stretch without delimiters extends the current token. */
  lemma {:induction false} ScanPlain(s: string, delims: set<char>, cur: string)
    requires NoneIn(s, delims)
    ensures Scan(s, delims, cur) == Emit(cur + s)
    decreases |s|
  {
    if |s| > 0 {
      ScanPlain(s[1..], delims, cur + [s[0]]);
      assert cur + [s[0]] + s[1..] == cur + s;
    } else {
      assert cur + s == cur;
    }
  }

  /** A delimiter ends every token: scanning splits at it. */
  lemma {:induction false} ScanSplit(a: string, d: char, b: string, delims: set<char>, cur: string)
    requires d in delims
    ensures Scan(a + [d] + b, delims, cur) == Scan(a, delims, cur) + Scan(b, delims, [])
    decreases |a|
  {
    if |a| == 0 {
      assert a + [d] + b == [d] + b;
      assert ([d] + b)[1..] == b;
    } else {
      assert (a + [d] + b)[0] == a[0];
      assert (a + [d] + b)[1..] == a[1..] + [d] + b;
      if a[0] in delims {
        ScanSplit(a[1..], d, b, delims, []);
      } else {
        ScanSplit(a[1..], d, b, delims, cur + [a[0]]);
      }
    }
  }

  lemma TokensSplit(a: string, d: char, b: string, delims: set<char>)
    requires d in delims
    ensures Tokens(a + [d] + b, delims) == Tokens(a, delims) + Tokens(b, delims)
  {
    ScanSplit(a, d, b, delims, []);
  }

  // ---------------------------------------------------------------- joining

  /** The parts, with `sep` between each two neighbours. */
  function Join(parts: seq<string>, sep: string): string
    decreases |parts|
  {
    if |parts| == 0 then ""
    else if |parts| == 1 then parts[0]
    else Join(parts[..|parts| - 1], sep) + sep + parts[|parts| - 1]
  }

  lemma JoinSnoc(parts: seq<string>, p: string, sep: string)
    ensures Join(parts + [p], sep) == if |parts| == 0 then p else Join(parts, sep) + sep + p
  {
    assert (parts + [p])[..|parts|] == parts;
  }

  /** Tokenizing undoes joining with a delimiter. */
  lemma {:induction false} TokensOfJoin(parts: seq<string>, d: char, delims: set<char>)
    requires d in delims
    requires WellFormedTokens(parts, delims)
    ensures Tokens(Join(parts, [d]), delims) == parts
    decreases |parts|
  {
    if |parts| == 1 {
      ScanPlain(parts[0], delims, []);
      assert [] + parts[0] == parts[0];
    } else if |parts| > 1 {
      var init, last := parts[..|parts| - 1], parts[|parts| - 1];
      TokensOfJoin(init, d, delims);
      TokensSplit(Join(init, [d]), d, last, delims);
      ScanPlain(last, delims, []);
      assert [] + last == last;
      assert init + [last] == parts;
    }
  }

  // ---------------------------------------------------------------- String.split

  /** All fields of `s` between occurrences of `sep`; `cur` is the field scanned so far. */
  function FieldsFrom(s: string, sep: char, cur: string): (r: seq<string>)
    ensures |r| >= 1
    decreases |s|
  {
    if |s| == 0 then [cur]
    else if s[0] == sep then [cur] + FieldsFrom(s[1..], sep, [])
    else FieldsFrom(s[1..], sep, cur + [s[0]])
  }

  function Fields(s: string, sep: char): seq<string> {
    FieldsFrom(s, sep, [])
  }

  /** String.split with limit 0 drops the trailing empty strings. */
  function DropTrailingEmpty(parts: seq<string>): (r: seq<string>)
    ensures |r| <= |parts| && r == parts[..|r|]
    ensures |r| > 0 ==> r[|r| - 1] != ""
    ensures forall i :: |r| <= i < |parts| ==> parts[i] == ""
    decreases |parts|
  {
    if |parts| > 0 && parts[|parts| - 1] == "" then DropTrailingEmpty(parts[..|parts| - 1])
    else parts
  }

  /**
   * `s.split(sep)` for a one-character pattern: when `sep` does not occur
   * the result is `[s]` (so `"".split(",")` is `[""]`), otherwise every
   * field, with trailing empty fields removed.
   */
  function JavaSplit(s: string, sep: char): seq<string> {
    if sep !in s then [s] else DropTrailingEmpty(Fields(s, sep))
  }

  lemma {:induction false} FieldsPlain(s: string, sep: char, cur: string)
    requires sep !in s
    ensures FieldsFrom(s, sep, cur) == [cur + s]
    decreases |s|
  {
    if |s| > 0 {
      FieldsPlain(s[1..], sep, cur + [s[0]]);
      assert cur + [s[0]] + s[1..] == cur + s;
    } else {
      assert cur + s == cur;
    }
  }

  lemma {:induction false} FieldsSplit(a: string, sep: char, b: string, cur: string)
    ensures FieldsFrom(a + [sep] + b, sep, cur) == FieldsFrom(a, sep, cur) + FieldsFrom(b, sep, [])
    decreases |a|
  {
    if |a| == 0 {
      assert a + [sep] + b == [sep] + b;
      assert ([sep] + b)[1..] == b;
    } else {
      assert (a + [sep] + b)[0] == a[0];
      assert (a + [sep] + b)[1..] == a[1..] + [sep] + b;
      if a[0] == sep {
        FieldsSplit(a[1..], sep, b, []);
      } else {
        FieldsSplit(a[1..], sep, b, cur + [a[0]]);
      }
    }
  }

  lemma {:induction false} FieldsOfJoin(parts: seq<string>, sep: char)
    requires |parts| >= 1
    requires forall i :: 0 <= i < |parts| ==> sep !in parts[i]
    ensures Fields(Join(parts, [sep]), sep) == parts
    ensures |parts| >= 2 ==> sep in Join(parts, [sep])
    decreases |parts|
  {
    if |parts| == 1 {
      FieldsPlain(parts[0], sep, []);
      assert [] + parts[0] == parts[0];
    } else {
      var init, last := parts[..|parts| - 1], parts[|parts| - 1];
      FieldsOfJoin(init, sep);
      FieldsSplit(Join(init, [sep]), sep, last, []);
      FieldsPlain(last, sep, []);
      assert [] + last == last;
      assert init + [last] == parts;
      var j := Join(parts, [sep]);
      assert j[|Join(init, [sep])|] == sep;
    }
  }

  /** A separator at the end adds only an empty trailing field, which split drops. */
  lemma JavaSplitTrailingSep(s: string, sep: char)
    ensures JavaSplit(s + [sep], sep) == if sep in s then JavaSplit(s, sep) else DropTrailingEmpty([s])
  {
    FieldsSplit(s, sep, "", []);
    assert s + [sep] + "" == s + [sep];
    var fields := Fields(s, sep);
    assert (fields + [""])[..|fields|] == fields;
    if sep !in s {
      FieldsPlain(s, sep, []);
      assert [] + s == s;
    }
  }

  /** Splitting a joined list of separator-free parts whose last part is not empty gives the parts back. */
  lemma JavaSplitOfJoin(parts: seq<string>, sep: char)
    requires |parts| >= 2
    requires forall i :: 0 <= i < |parts| ==> sep !in parts[i]
    requires parts[|parts| - 1] != ""
    ensures JavaSplit(Join(parts, [sep]), sep) == parts
  {
    FieldsOfJoin(parts, sep);
  }

  // ---------------------------------------------------------------- decimal numbers

  predicate IsDigit(c: char) {
    '0' <= c <= '9'
  }

  predicate AllDigits(s: string) {
    forall i :: 0 <= i < |s| ==> IsDigit(s[i])
  }

  function DigitChar(d: nat): (c: char)
    requires d < 10
    ensures IsDigit(c)
  {
    ('0' as int + d) as char
  }

  function DigitValue(c: char): (d: nat)
    requires IsDigit(c)
    ensures d < 10
  {
    c as int - '0' as int
  }

  /** Integer.toString / Long.toString of a non-negative number. */
  function NatToString(n: nat): (s: string)
    ensures |s| > 0 && AllDigits(s)
    ensures n < 10 <==> |s| == 1
    decreases n
  {
    if n < 10 then [DigitChar(n)] else NatToString(n / 10) + [DigitChar(n % 10)]
  }

  /** The value of a string of decimal digits. */
  function DecimalValue(s: string): nat
    requires AllDigits(s)
    decreases |s|
  {
    if |s| == 0 then 0 else DecimalValue(s[..|s| - 1]) * 10 + DigitValue(s[|s| - 1])
  }

  /** Reading back a rendered number gives the number. */
  lemma {:induction false} DecimalOfNatToString(n: nat)
    ensures DecimalValue(NatToString(n)) == n
    decreases n
  {
    var s := NatToString(n);
    if n >= 10 {
      DecimalOfNatToString(n / 10);
      assert s[..|s| - 1] == NatToString(n / 10);
    }
  }

  /** A number below 1000 and at least 100 renders as exactly three digits. */
  lemma NatToStringThreeDigits(n: nat)
    requires 100 <= n <= 999
    ensures NatToString(n) == [DigitChar(n / 100), DigitChar(n / 10 % 10), DigitChar(n % 10)]
  {
    assert NatToString(n / 10) == NatToString(n / 10 / 10) + [DigitChar(n / 10 % 10)];
    assert n / 10 / 10 == n / 100;
  }

  const IntMin: int := -0x8000_0000
  const IntMax: int := 0x7fff_ffff

  /**
   * Integer.parseInt: an optional sign, then at least one digit, and the
   * value must fit a 32-bit int; otherwise NumberFormatException (None).
   */
  function ParseInt(s: string): (r: Option<int>)
    ensures r.Some? ==> IntMin <= r.value <= IntMax
  {
    if |s| == 0 then None
    else
      var digits := if s[0] == '-' || s[0] == '+' then s[1..] else s;
      if |digits| == 0 || !AllDigits(digits) then None
      else
        var v := if s[0] == '-' then -(DecimalValue(digits) as int) else DecimalValue(digits) as int;
        if IntMin <= v <= IntMax then Some(v) else None
  }

  lemma ParseIntOfNatToString(n: nat)
    requires n <= IntMax
    ensures ParseInt(NatToString(n)) == Some(n)
  {
    DecimalOfNatToString(n);
  }

  // ---------------------------------------------------------------- characters

  function LowerChar(c: char): char {
    if 'A' <= c <= 'Z' then (c as int + 32) as char else c
  }

  function UpperChar(c: char): char {
    if 'a' <= c <= 'z' then (c as int - 32) as char else c
  }

  /** String.toLowerCase for the ASCII letters. */
  function Lower(s: string): (r: string)
    ensures |r| == |s|
  {
    seq(|s|, i requires 0 <= i < |s| => LowerChar(s[i]))
  }

  /** String.toUpperCase for the ASCII letters. */
  function Upper(s: string): (r: string)
    ensures |r| == |s|
  {
    seq(|s|, i requires 0 <= i < |s| => UpperChar(s[i]))
  }

  /** String.length: UTF-16 code units, two for a character beyond U+FFFF. */
  function Utf16Length(s: string): (n: nat)
    ensures n >= |s|
    decreases |s|
  {
    if |s| == 0 then 0 else (if s[0] as int > 0xFFFF then 2 else 1) + Utf16Length(s[1..])
  }

  /** A Java string of length one is exactly one character of the Basic Multilingual Plane. */
  lemma Utf16LengthOne(s: string)
    ensures Utf16Length(s) == 1 <==> |s| == 1 && s[0] as int <= 0xFFFF
  {
    if |s| == 1 {
      assert s[1..] == [];
    }
  }

  /** Upper-casing changes no character's number of UTF-16 units. */
  lemma UpperUtf16Length(s: string)
    ensures Utf16Length(Upper(s)) == 1 <==> |s| == 1 && s[0] as int <= 0xFFFF
  {
    Utf16LengthOne(s);
    Utf16LengthOne(Upper(s));
  }

  /** What an ASCII encoder makes of a character: itself, or '?' when it is not ASCII. */
  function AsciiChar(c: char): char {
    if c as int < 128 then c else '?'
  }

  function ToAscii(s: string): (r: string)
    ensures |r| == |s|
    ensures forall i :: 0 <= i < |s| ==> r[i] as int < 128
    ensures forall i :: 0 <= i < |s| ==> s[i] as int < 128 ==> r[i] == s[i]
    ensures forall i :: 0 <= i < |s| ==> s[i] as int >= 128 ==> r[i] == '?'
  {
    seq(|s|, i requires 0 <= i < |s| => AsciiChar(s[i]))
  }

  function Count(s: string, c: char): nat
    decreases |s|
  {
    if |s| == 0 then 0 else Count(s[..|s| - 1], c) + (if s[|s| - 1] == c then 1 else 0)
  }

  lemma {:induction false} CountConcat(a: string, b: string, c: char)
    ensures Count(a + b, c) == Count(a, c) + Count(b, c)
    decreases |b|
  {
    if |b| == 0 {
      assert a + b == a;
    } else {
      CountConcat(a, b[..|b| - 1], c);
      assert (a + b)[..|a + b| - 1] == a + b[..|b| - 1];
    }
  }

  lemma {:induction false} CountAbsent(s: string, c: char)
    requires c !in s
    ensures Count(s, c) == 0
    decreases |s|
  {
    if |s| > 0 {
      CountAbsent(s[..|s| - 1], c);
    }
  }

  /** The ASCII encoder keeps every occurrence of an ASCII character other than '?' and creates no new one. */
  lemma {:induction false} CountToAscii(s: string, c: char)
    requires c as int < 128 && c != '?'
    ensures Count(ToAscii(s), c) == Count(s, c)
    decreases |s|
  {
    if |s| > 0 {
      var r := ToAscii(s);
      assert r[..|s| - 1] == ToAscii(s[..|s| - 1]);
      CountToAscii(s[..|s| - 1], c);
      assert r[|s| - 1] == AsciiChar(s[|s| - 1]);
      assert (r[|s| - 1] == c) == (s[|s| - 1] == c);
    }
  }
}
