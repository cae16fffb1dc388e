/**
 * The few Python string operations the services rely on: `str.split()`
 * (whitespace tokens), `str.split(" ")`, `int(str)`, `str.startswith`,
 * `str.upper()` and decimal rendering of a number.
 */
module Text {
  import opened Outcomes

  /** Python's `str.isspace()` for one character. */
  predicate IsSpace(c: char) {
    || ('\t' <= c <= '\r')
    || ('\U{1C}' <= c <= '\U{1F}')
    || c == ' ' || c == '\U{85}' || c == '\U{A0}' || c == '\U{1680}'
    || ('\U{2000}' <= c <= '\U{200A}')
    || c == '\U{2028}' || c == '\U{2029}' || c == '\U{202F}' || c == '\U{205F}' || c == '\U{3000}'
  }

  predicate NoSpace(s: string) {
    forall i :: 0 <= i < |s| ==> !IsSpace(s[i])
  }

  predicate IsDigit(c: char) {
    '0' <= c <= '9'
  }

  predicate StartsWith(s: string, prefix: string) {
    |prefix| <= |s| && s[..|prefix|] == prefix
  }

  /** Length of the longest prefix of `s` that holds no whitespace. */
  function WordLength(s: string): (n: nat)
    ensures n <= |s|
    ensures NoSpace(s[..n])
    ensures n < |s| ==> IsSpace(s[n])
  {
    if |s| == 0 || IsSpace(s[0]) then 0
    else
      var m := WordLength(s[1..]);
      assert s[1..][..m] == s[1..m + 1];
      1 + m
  }

  /** Python's `s.split()`: the maximal runs of non-whitespace characters, in order. */
  function Tokens(s: string): (r: seq<string>)
    ensures forall i :: 0 <= i < |r| ==> |r[i]| > 0 && NoSpace(r[i])
    decreases |s|
  {
    if |s| == 0 then []
    else if IsSpace(s[0]) then Tokens(s[1..])
    else
      var n := WordLength(s);
      [s[..n]] + Tokens(s[n..])
  }

  /** A word followed by nothing or by whitespace is the first token. */
  lemma {:induction false} TokensOfWord(w: string, rest: string)
    requires |w| > 0 && NoSpace(w)
    requires |rest| == 0 || IsSpace(rest[0])
    ensures Tokens(w + rest) == [w] + Tokens(rest)
  {
    WordLengthOfWord(w, rest);
    assert (w + rest)[..|w|] == w;
    assert (w + rest)[|w|..] == rest;
  }

  lemma {:induction false} WordLengthOfWord(w: string, rest: string)
    requires NoSpace(w)
    requires |rest| == 0 || IsSpace(rest[0])
    ensures WordLength(w + rest) == |w|
    decreases |w|
  {
    if |w| == 0 {
      assert w + rest == rest;
    } else {
      assert (w + rest)[1..] == w[1..] + rest;
      WordLengthOfWord(w[1..], rest);
    }
  }

  /** Leading whitespace does not produce tokens. */
  lemma {:induction false} TokensAfterSpace(sp: string, rest: string)
    requires forall i :: 0 <= i < |sp| ==> IsSpace(sp[i])
    ensures Tokens(sp + rest) == Tokens(rest)
    decreases |sp|
  {
    if |sp| == 0 {
      assert sp + rest == rest;
    } else {
      assert (sp + rest)[1..] == sp[1..] + rest;
      TokensAfterSpace(sp[1..], rest);
    }
  }

  /** `"a b".split() == ["a", "b"]` for words `a`, `b`. */
  lemma TokensOfTwoWords(a: string, b: string)
    requires |a| > 0 && NoSpace(a) && |b| > 0 && NoSpace(b)
    ensures Tokens(a + " " + b) == [a, b]
  {
    TokensOfWord(b, "");
    assert b + "" == b;
    TokensAfterSpace(" ", b);
    assert a + " " + b == a + (" " + b);
    TokensOfWord(a, " " + b);
  }

  /** `"a b c".split() == ["a", "b", "c"]` for words `a`, `b`, `c`. */
  lemma TokensOfThreeWords(a: string, b: string, c: string)
    requires |a| > 0 && NoSpace(a) && |b| > 0 && NoSpace(b) && |c| > 0 && NoSpace(c)
    ensures Tokens(a + " " + b + " " + c) == [a, b, c]
  {
    var tail := b + " " + c;
    TokensOfTwoWords(b, c);
    assert Tokens(tail) == [b, c];
    TokensAfterSpace(" ", tail);
    assert Tokens(" " + tail) == [b, c];
    TokensOfWord(a, " " + tail);
    assert Tokens(a + (" " + tail)) == [a, b, c];
    SpacedRegroup(a, b, c);
  }

  lemma SpacedRegroup(a: string, b: string, c: string)
    ensures a + " " + b + " " + c == a + (" " + (b + " " + c))
  {
    calc {
      a + " " + b + " " + c;
      (a + " " + b) + (" " + c);
      a + (" " + b + (" " + c));
    }
  }

  /** Python's `s.split(sep)` for a one-character separator: empty fields are kept. */
  function SplitOn(s: string, sep: char): (r: seq<string>)
    ensures |r| >= 1
    ensures forall i :: 0 <= i < |r| ==> sep !in r[i]
    ensures sep !in s ==> r == [s]
  {
    if |s| == 0 then [""]
    else
      var rest := SplitOn(s[1..], sep);
      if s[0] == sep then [""] + rest
      else
        assert [s[0]] + s[1..] == s;
        assert sep !in [s[0]] + rest[0];
        [[s[0]] + rest[0]] + rest[1..]
  }

  /** Python's `sep.join(parts)`. */
  function Join(parts: seq<string>, sep: char): string {
    if |parts| == 0 then ""
    else if |parts| == 1 then parts[0]
    else parts[0] + [sep] + Join(parts[1..], sep)
  }

  /** Joining the fields of a split with the same separator gives the text back. */
  lemma {:induction false} SplitThenJoin(s: string, sep: char)
    ensures Join(SplitOn(s, sep), sep) == s
  {
    if |s| > 0 {
      var rest := SplitOn(s[1..], sep);
      SplitThenJoin(s[1..], sep);
      if s[0] == sep {
        assert ([""] + rest)[1..] == rest;
      } else {
        JoinCons(s[0], rest, sep);
      }
      assert [s[0]] + s[1..] == s;
    }
  }

  /** Prefixing the first field with a character prefixes the joined text with it. */
  lemma JoinCons(c: char, parts: seq<string>, sep: char)
    requires |parts| >= 1
    ensures Join([[c] + parts[0]] + parts[1..], sep) == [c] + Join(parts, sep)
  {
    var q := [[c] + parts[0]] + parts[1..];
    assert q[1..] == parts[1..];
  }

  function Last<T>(s: seq<T>): T
    requires |s| > 0
  {
    s[|s| - 1]
  }

  /** A separator anywhere gives at least two fields. */
  lemma {:induction false} SplitOnHasTwoFields(s: string, sep: char)
    requires sep in s
    ensures |SplitOn(s, sep)| >= 2
    decreases |s|
  {
    if s[0] != sep {
      assert sep in s[1..];
      SplitOnHasTwoFields(s[1..], sep);
    }
  }

  /** The last field of `s.split(sep)` is what follows the last separator. */
  lemma {:induction false} SplitOnLast(a: string, sep: char, b: string)
    requires sep !in b
    ensures Last(SplitOn(a + [sep] + b, sep)) == b
    decreases |a|
  {
    var s := a + [sep] + b;
    if |a| == 0 {
      assert s == [sep] + b;
      assert s[1..] == b;
    } else {
      assert s[1..] == a[1..] + [sep] + b;
      SplitOnLast(a[1..], sep, b);
      SplitOnHasTwoFields(s[1..], sep);
    }
  }

  /** Value of a non-empty string of decimal digits (no underscores). */
  function DigitsValue(s: string): nat
    requires forall i :: 0 <= i < |s| ==> IsDigit(s[i])
  {
    if |s| == 0 then 0
    else
      assert IsDigit(s[|s| - 1]);
      DigitsValue(s[..|s| - 1]) * 10 + (s[|s| - 1] as int - '0' as int)
  }

  /**
   * The digit string Python's `int()` accepts after the sign: digits, with
   * single underscores allowed between two digits ("1_000").
   */
  predicate DigitGroup(s: string) {
    && |s| > 0
    && IsDigit(s[0]) && IsDigit(s[|s| - 1])
    && (forall i :: 0 <= i < |s| ==> IsDigit(s[i]) || s[i] == '_')
    && (forall i :: 0 <= i < |s| - 1 ==> !(s[i] == '_' && s[i + 1] == '_'))
  }

  function DropUnderscores(s: string): (r: string)
    ensures (forall i :: 0 <= i < |s| ==> IsDigit(s[i]) || s[i] == '_') ==>
              forall i :: 0 <= i < |r| ==> IsDigit(r[i])
    ensures '_' !in s ==> r == s
  {
    if |s| == 0 then []
    else (if s[0] == '_' then [] else [s[0]]) + DropUnderscores(s[1..])
  }

  function StripLeft(s: string): (r: string)
    ensures |r| == 0 || !IsSpace(r[0])
    ensures NoSpace(s) ==> r == s
    ensures forall i :: 0 <= i < |r| ==> r[i] in s
  {
    if |s| > 0 && IsSpace(s[0]) then StripLeft(s[1..]) else s
  }

  function StripRight(s: string): (r: string)
    ensures |r| == 0 || !IsSpace(r[|r| - 1])
    ensures NoSpace(s) ==> r == s
    ensures forall i :: 0 <= i < |r| ==> r[i] in s
  {
    if |s| > 0 && IsSpace(s[|s| - 1]) then StripRight(s[..|s| - 1]) else s
  }

  /** A plain run of digits is its own stripped form and a digit group. */
  lemma DigitsAreAGroup(s: string)
    ensures (|s| > 0 && forall i :: 0 <= i < |s| ==> IsDigit(s[i])) ==>
              NoSpace(s) && '_' !in s && DigitGroup(s)
  {
    if |s| > 0 && forall i :: 0 <= i < |s| ==> IsDigit(s[i]) {
      forall i | 0 <= i < |s| ensures !IsSpace(s[i]) && s[i] != '_' {
        assert IsDigit(s[i]);
      }
    }
  }

  /** Stripping keeps only characters of the original string. */
  lemma StrippedCharsOccur(s: string, k: nat)
    requires k < |StripRight(StripLeft(s))|
    ensures exists i :: 0 <= i < |s| && s[i] == StripRight(StripLeft(s))[k]
  {
    var l := StripLeft(s);
    var t := StripRight(l);
    assert t[k] in l;
    var j :| 0 <= j < |l| && l[j] == t[k];
    assert l[j] in s;
  }

  /**
   * Python's `int(s)` for base 10: surrounding whitespace is ignored, an
   * optional sign, then a digit group. `None` is the ValueError case.
   */
  function ParseInt(s: string): (r: Option<int>)
    ensures r.Some? ==> exists i :: 0 <= i < |s| && IsDigit(s[i])
    ensures (|s| > 0 && forall i :: 0 <= i < |s| ==> IsDigit(s[i])) ==> r == Some(DigitsValue(s))
  {
    var t := StripRight(StripLeft(s));
    DigitsAreAGroup(s);
    if |t| > 0 && (t[0] == '+' || t[0] == '-') then
      var body := t[1..];
      if DigitGroup(body) then
        StrippedCharsOccur(s, 1);
        var v: int := DigitsValue(DropUnderscores(body));
        Some(if t[0] == '-' then -v else v)
      else None
    else if DigitGroup(t) then
      StrippedCharsOccur(s, 0);
      Some(DigitsValue(DropUnderscores(t)))
    else None
  }

  function DigitChar(d: nat): char
    requires d < 10
  {
    ('0' as int + d) as char
  }

  /** Python's `str(n)` for a natural number. */
  function NatToString(n: nat): (r: string)
    ensures |r| > 0
    ensures forall i :: 0 <= i < |r| ==> IsDigit(r[i])
  {
    if n < 10 then [DigitChar(n)]
    else NatToString(n / 10) + [DigitChar(n % 10)]
  }

  lemma {:induction false} DigitsValueOfNat(n: nat)
    ensures DigitsValue(NatToString(n)) == n
  {
    var s := NatToString(n);
    if n >= 10 {
      assert s[..|s| - 1] == NatToString(n / 10);
      DigitsValueOfNat(n / 10);
    }
  }

  /** `int(str(n)) == n`: the decimal rendering reads back as the same number. */
  lemma ParseIntOfNat(n: nat)
    ensures ParseInt(NatToString(n)) == Some(n)
  {
    var s := NatToString(n);
    assert NoSpace(s) by {
      forall i | 0 <= i < |s| ensures !IsSpace(s[i]) {
        assert IsDigit(s[i]);
      }
    }
    assert '_' !in s by {
      forall i | 0 <= i < |s| ensures s[i] != '_' {
        assert IsDigit(s[i]);
      }
    }
    DigitsValueOfNat(n);
  }

  /** Python's `str.upper()` on the ASCII letters; other characters are left alone. */
  function Upper(s: string): (r: string)
    ensures |r| == |s|
    ensures forall i :: 0 <= i < |s| ==>
              r[i] == (if 'a' <= s[i] <= 'z' then (s[i] as int - 32) as char else s[i])
  {
    if |s| == 0 then [] else
      [if 'a' <= s[0] <= 'z' then (s[0] as int - 32) as char else s[0]] + Upper(s[1..])
  }

  /** Python's `s[:n]`. */
  function Take(s: string, n: nat): (r: string)
    ensures |r| == if n <= |s| then n else |s|
    ensures r <= s
  {
    if n <= |s| then s[..n] else s
  }
}
