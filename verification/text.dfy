/** The Python string operations the pipeline relies on: `str.split()` on
    whitespace, `str.split(sep)`, `str.replace`, `str.lower`, `str.strip`,
    `str(n)` for integers and `int(text)`. */
module Text {
  import opened Errors

  /** `str.isspace` for one character: the characters Python treats as whitespace. */
  predicate IsSpace(c: char) {
    || c == ' '
    || ('\t' <= c <= '\r')
    || ('\U{1C}' <= c <= '\U{1F}')
    || c == '\U{85}' || c == '\U{A0}' || c == '\U{1680}'
    || ('\U{2000}' <= c <= '\U{200A}')
    || c == '\U{2028}' || c == '\U{2029}' || c == '\U{202F}' || c == '\U{205F}' || c == '\U{3000}'
  }

  predicate NoSpace(s: string) {
    forall i :: 0 <= i < |s| ==> !IsSpace(s[i])
  }

  /** The characters of `s` that are not whitespace, in order. */
  function RemoveSpaces(s: string): string {
    if |s| == 0 then ""
    else (if IsSpace(s[0]) then "" else [s[0]]) + RemoveSpaces(s[1..])
  }

  /** Concatenation of a list of strings, `"".join(parts)`. */
  function Concat(parts: seq<string>): string {
    if |parts| == 0 then "" else parts[0] + Concat(parts[1..])
  }

  /** The length of the longest whitespace-free prefix of `s`. */
  function WordLength(s: string): (n: nat)
    ensures n <= |s|
    ensures forall i :: 0 <= i < n ==> !IsSpace(s[i])
    ensures n < |s| ==> IsSpace(s[n])
  {
    if |s| == 0 || IsSpace(s[0]) then 0 else 1 + WordLength(s[1..])
  }

  /** `s.split()`: the maximal runs of non-whitespace characters, in order. */
  function SplitWhitespace(s: string): seq<string>
    decreases |s|
  {
    if |s| == 0 then []
    else if IsSpace(s[0]) then SplitWhitespace(s[1..])
    else
      var n := WordLength(s);
      [s[..n]] + SplitWhitespace(s[n..])
  }

  lemma {:induction false} RemoveSpacesAppend(a: string, b: string)
    ensures RemoveSpaces(a + b) == RemoveSpaces(a) + RemoveSpaces(b)
    decreases |a|
  {
    if |a| == 0 {
      assert a + b == b;
    } else {
      assert (a + b)[1..] == a[1..] + b;
      RemoveSpacesAppend(a[1..], b);
    }
  }

  lemma {:induction false} RemoveSpacesOfWord(w: string)
    requires NoSpace(w)
    ensures RemoveSpaces(w) == w
    decreases |w|
  {
    if |w| > 0 {
      RemoveSpacesOfWord(w[1..]);
      assert w == [w[0]] + w[1..];
    }
  }

  /** Every token of `s.split()` is a non-empty run without whitespace, and
      the tokens put back together are exactly the non-whitespace characters
      of `s`, in their original order. */
  lemma {:induction false} SplitWhitespaceTokens(s: string)
    ensures forall t :: t in SplitWhitespace(s) ==> |t| > 0 && NoSpace(t)
    ensures Concat(SplitWhitespace(s)) == RemoveSpaces(s)
    decreases |s|
  {
    if |s| == 0 {
    } else if IsSpace(s[0]) {
      SplitWhitespaceTokens(s[1..]);
    } else {
      var n := WordLength(s);
      var rest := SplitWhitespace(s[n..]);
      SplitWhitespaceTokens(s[n..]);
      assert SplitWhitespace(s) == [s[..n]] + rest;
      assert ([s[..n]] + rest)[1..] == rest;
      assert s == s[..n] + s[n..];
      RemoveSpacesAppend(s[..n], s[n..]);
      RemoveSpacesOfWord(s[..n]);
    }
  }

  /** A string without whitespace is a single token, and a blank one has none. */
  lemma {:induction false} SplitWhitespaceOfWord(s: string)
    ensures NoSpace(s) && |s| > 0 ==> SplitWhitespace(s) == [s]
    ensures (forall i :: 0 <= i < |s| ==> IsSpace(s[i])) ==> SplitWhitespace(s) == []
    decreases |s|
  {
    if |s| > 0 {
      if NoSpace(s) {
        assert WordLength(s) == |s|;
        assert s[..|s|] == s;
        assert SplitWhitespace(s[|s|..]) == [];
        assert SplitWhitespace(s) == [s] + [];
      }
      if forall i :: 0 <= i < |s| ==> IsSpace(s[i]) {
        SplitWhitespaceOfWord(s[1..]);
      }
    }
  }

  /** A word followed by whitespace, or by nothing, is read up to its end. */
  lemma {:induction false} WordLengthOfWord(w: string, x: string)
    requires NoSpace(w)
    requires |x| == 0 || IsSpace(x[0])
    ensures WordLength(w + x) == |w|
    decreases |w|
  {
    if |w| > 0 {
      assert (w + x)[1..] == w[1..] + x;
      WordLengthOfWord(w[1..], x);
    } else {
      assert w + x == x;
    }
  }

  /** Leading whitespace contributes no token. */
  lemma {:induction false} SplitWhitespaceSkipsBlank(b: string, y: string)
    requires forall i :: 0 <= i < |b| ==> IsSpace(b[i])
    ensures SplitWhitespace(b + y) == SplitWhitespace(y)
    decreases |b|
  {
    if |b| > 0 {
      assert (b + y)[0] == b[0] && (b + y)[1..] == b[1..] + y;
      SplitWhitespaceSkipsBlank(b[1..], y);
    } else {
      assert b + y == y;
    }
  }

  /** A word ended by whitespace, or by the end of the string, is the next token. */
  lemma SplitWhitespaceOfWordThen(w: string, x: string)
    requires |w| > 0 && NoSpace(w)
    requires |x| == 0 || IsSpace(x[0])
    ensures SplitWhitespace(w + x) == [w] + SplitWhitespace(x)
  {
    WordLengthOfWord(w, x);
    assert (w + x)[0] == w[0];
    assert (w + x)[..|w|] == w && (w + x)[|w|..] == x;
  }

  /** `s.split()` inverts joining with whitespace: tokens without whitespace,
      joined by any non-empty run of whitespace, split back into exactly
      those tokens, so the split breaks at every whitespace run and nowhere
      else. */
  lemma {:induction false} SplitWhitespaceJoin(ts: seq<string>, sep: string)
    requires forall t :: t in ts ==> |t| > 0 && NoSpace(t)
    requires |sep| > 0 && forall i :: 0 <= i < |sep| ==> IsSpace(sep[i])
    ensures SplitWhitespace(Join(ts, sep)) == ts
    decreases |ts|
  {
    if |ts| == 1 {
      SplitWhitespaceOfWord(ts[0]);
    } else if |ts| > 1 {
      var rest := Join(ts[1..], sep);
      assert ts[0] in ts;
      assert forall t :: t in ts[1..] ==> t in ts;
      SplitWhitespaceJoin(ts[1..], sep);
      assert Join(ts, sep) == ts[0] + (sep + rest);
      SplitWhitespaceOfWordThen(ts[0], sep + rest);
      SplitWhitespaceSkipsBlank(sep, rest);
      assert ts == [ts[0]] + ts[1..];
    }
  }

  /** `s.replace(c, "")`: every occurrence of `c` removed. */
  function RemoveChar(s: string, c: char): (r: string)
    ensures forall i :: 0 <= i < |r| ==> r[i] != c
    ensures |r| <= |s|
  {
    if |s| == 0 then ""
    else (if s[0] == c then "" else [s[0]]) + RemoveChar(s[1..], c)
  }

  predicate IsUpper(c: char) {
    'A' <= c <= 'Z'
  }

  function LowerChar(c: char): char {
    if IsUpper(c) then (c as int + 32) as char else c
  }

  /** `s.lower()` on the ASCII letters. */
  function Lower(s: string): (r: string)
    ensures |r| == |s|
    ensures forall i :: 0 <= i < |s| ==> r[i] == LowerChar(s[i])
  {
    seq(|s|, i requires 0 <= i < |s| => LowerChar(s[i]))
  }

  /** Whether `sep` occurs in `s` starting at index `i`. */
  predicate OccursAt(s: string, sep: string, i: int) {
    0 <= i && i + |sep| <= |s| && s[i..i + |sep|] == sep
  }

  /** Dropping the first character shifts every occurrence one place left. */
  lemma OccursAtShift(s: string, sep: string, i: int)
    requires |s| > 0 && 1 <= i
    ensures OccursAt(s, sep, i) <==> OccursAt(s[1..], sep, i - 1)
  {
    if i + |sep| <= |s| {
      var shifted, here := s[1..][i - 1..i - 1 + |sep|], s[i..i + |sep|];
      forall k | 0 <= k < |sep| ensures shifted[k] == here[k] { }
      assert shifted == here;
    }
  }

  /** The index of the leftmost occurrence of `sep` in `s`, `s.find(sep)`. */
  function FindFirst(s: string, sep: string): (r: Option<nat>)
    requires |sep| > 0
    ensures r.Some? ==> OccursAt(s, sep, r.value)
    ensures r.Some? ==> forall i :: 0 <= i < r.value ==> !OccursAt(s, sep, i)
    ensures r.None? ==> forall i :: 0 <= i ==> !OccursAt(s, sep, i)
    decreases |s|
  {
    if |s| < |sep| then None
    else if s[..|sep|] == sep then Some(0)
    else
      var tail := FindFirst(s[1..], sep);
      assert !OccursAt(s, sep, 0);
      assert forall i :: 1 <= i ==> (OccursAt(s, sep, i) <==> OccursAt(s[1..], sep, i - 1)) by {
        forall i | 1 <= i ensures OccursAt(s, sep, i) <==> OccursAt(s[1..], sep, i - 1) {
          OccursAtShift(s, sep, i);
        }
      }
      match tail
      case None => None
      case Some(i) => Some(i + 1)
  }

  /** `s.split(sep)`: the pieces between the non-overlapping occurrences of
      `sep`, found from the left. */
  function SplitOn(s: string, sep: string): (parts: seq<string>)
    requires |sep| > 0
    ensures |parts| >= 1
    decreases |s|
  {
    match FindFirst(s, sep)
    case None => [s]
    case Some(i) => [s[..i]] + SplitOn(s[i + |sep|..], sep)
  }

  /** `sep.join(parts)`. */
  function Join(parts: seq<string>, sep: string): string {
    if |parts| == 0 then ""
    else if |parts| == 1 then parts[0]
    else parts[0] + sep + Join(parts[1..], sep)
  }

  /** Splitting on a separator and joining with it gives back the string. */
  lemma {:induction false} JoinSplitOn(s: string, sep: string)
    requires |sep| > 0
    ensures Join(SplitOn(s, sep), sep) == s
    decreases |s|
  {
    match FindFirst(s, sep)
    case None =>
      assert SplitOn(s, sep) == [s];
    case Some(i) =>
      var tail := s[i + |sep|..];
      var rest := SplitOn(tail, sep);
      JoinSplitOn(tail, sep);
      var parts := [s[..i]] + rest;
      assert SplitOn(s, sep) == parts;
      assert parts[0] == s[..i] && parts[1..] == rest && |parts| >= 2;
      assert Join(parts, sep) == s[..i] + sep + tail;
      assert s == s[..i] + sep + tail;
  }

  /** No piece of a split contains the separator. */
  lemma {:induction false} SplitOnPieces(s: string, sep: string)
    requires |sep| > 0
    ensures forall p, i :: p in SplitOn(s, sep) && 0 <= i ==> !OccursAt(p, sep, i)
    decreases |s|
  {
    match FindFirst(s, sep)
    case None =>
      assert SplitOn(s, sep) == [s];
    case Some(i) =>
      var tail := s[i + |sep|..];
      SplitOnPieces(tail, sep);
      assert SplitOn(s, sep) == [s[..i]] + SplitOn(tail, sep);
      forall j | 0 <= j ensures !OccursAt(s[..i], sep, j) {
        if OccursAt(s[..i], sep, j) {
          OccursInPrefix(s, i, sep, j);
        }
      }
  }

  /** An occurrence inside a prefix is an occurrence in the whole text. */
  lemma OccursInPrefix(s: string, i: int, sep: string, j: int)
    requires 0 <= i <= |s| && OccursAt(s[..i], sep, j)
    ensures OccursAt(s, sep, j) && j + |sep| <= i
  {
    assert s[..i][j..j + |sep|] == s[j..j + |sep|];
  }

  predicate IsDigit(c: char) {
    '0' <= c <= '9'
  }

  predicate AllDigits(s: string) {
    forall i :: 0 <= i < |s| ==> IsDigit(s[i])
  }

  function DigitChar(d: int): char
    requires 0 <= d < 10
  {
    ('0' as int + d) as char
  }

  /** The value of a string of decimal digits, most significant first. */
  function DigitsValue(s: string): nat
    requires AllDigits(s)
  {
    if |s| == 0 then 0
    else DigitsValue(s[..|s| - 1]) * 10 + (s[|s| - 1] as int - '0' as int)
  }

  /** The decimal digits of `n`, without leading zeros. */
  function NatString(n: nat): (r: string)
    ensures |r| > 0 && AllDigits(r)
  {
    if n < 10 then [DigitChar(n)] else NatString(n / 10) + [DigitChar(n % 10)]
  }

  /** `str(n)` for a Python int. */
  function DecimalString(n: int): string {
    if n < 0 then "-" + NatString(-n) else NatString(n)
  }

  /** `s.lstrip()`. */
  function TrimStart(s: string): string
    decreases |s|
  {
    if |s| > 0 && IsSpace(s[0]) then TrimStart(s[1..]) else s
  }

  /** `s.rstrip()`. */
  function TrimEnd(s: string): string
    decreases |s|
  {
    if |s| > 0 && IsSpace(s[|s| - 1]) then TrimEnd(s[..|s| - 1]) else s
  }

  /** The digits Python's `int` reads in base 10: at least one decimal
      digit, with single underscores allowed between digits. */
  predicate GroupedDigits(s: string) {
    && |s| > 0 && IsDigit(s[0]) && DigitsOrUnderscores(s)
    && forall i :: 0 <= i < |s| && s[i] == '_' ==> i + 1 < |s| && IsDigit(s[i + 1])
  }

  predicate DigitsOrUnderscores(s: string) {
    forall i :: 0 <= i < |s| ==> IsDigit(s[i]) || s[i] == '_'
  }

  /** `s` with its underscores removed. */
  function DropUnderscores(s: string): (r: string)
    requires DigitsOrUnderscores(s)
    ensures AllDigits(r) && |r| <= |s|
    ensures (forall i :: 0 <= i < |s| ==> s[i] != '_') ==> r == s
  {
    if |s| == 0 then ""
    else (if s[0] == '_' then "" else [s[0]]) + DropUnderscores(s[1..])
  }

  /** `int(s)` for base-10 text with ASCII digits: surrounding whitespace, an
      optional sign, and digits with single underscores between them. It is None for
      every other ASCII string, where Python raises ValueError. */
  function ParseInt(s: string): Option<int> {
    ReadSigned(TrimStart(TrimEnd(s)))
  }

  /** `int` on text that carries no surrounding whitespace. */
  function ReadSigned(t: string): Option<int> {
    if |t| > 0 && (t[0] == '-' || t[0] == '+') then
      var digits := t[1..];
      if GroupedDigits(digits) then
        var v: int := DigitsValue(DropUnderscores(digits));
        Some(if t[0] == '-' then -v else v)
      else None
    else if GroupedDigits(t) then Some(DigitsValue(DropUnderscores(t)))
    else None
  }

  /** A digit group keeps its first character once its underscores are
      dropped, so what remains is a plain, non-empty run of digits. */
  lemma DropUnderscoresGrouped(t: string)
    requires GroupedDigits(t)
    ensures GroupedDigits(DropUnderscores(t)) && DropUnderscores(DropUnderscores(t)) == DropUnderscores(t)
  {
    var r := DropUnderscores(t);
    assert r == [t[0]] + DropUnderscores(t[1..]);
    ParsePlainDigits(r);
  }

  /** Underscores between digits never change the value, for every string
      of that grammar: `int(t) == int(t.replace("_", ""))`. */
  lemma ParseIgnoresUnderscores(t: string)
    requires GroupedDigits(t)
    ensures ParseInt(t) == ParseInt(DropUnderscores(t)) == Some(DigitsValue(DropUnderscores(t)))
  {
    var r := DropUnderscores(t);
    DropUnderscoresGrouped(t);
    assert t[|t| - 1] != '_';
    ParseUntrimmed(t);
    ParseUntrimmed(r);
  }

  /** Text that starts and ends with a digit has nothing to strip. */
  lemma ParseUntrimmed(t: string)
    requires |t| > 0 && IsDigit(t[0]) && IsDigit(t[|t| - 1])
    ensures ParseInt(t) == ReadSigned(t)
  {
    assert TrimEnd(t) == t && TrimStart(t) == t;
  }

  /** One instance of the rule above: `int("1_000") == 1000`. */
  lemma ParseGroupedThousand()
    ensures ParseInt("1_000") == Some(1000)
  {
    var t := "1_000";
    assert TrimEnd(t) == t;
    assert TrimStart(t) == t;
    assert GroupedDigits(t);
    ThousandDigits();
    ThousandValue();
  }

  lemma ThousandDigits()
    ensures DigitsOrUnderscores("1_000") && DropUnderscores("1_000") == "1000"
  {
    var t := "1_000";
    assert DropUnderscores(t[1..]) == DropUnderscores(t[2..]);
  }

  lemma ThousandValue()
    ensures DigitsValue("1000") == 1000
  {
    assert "10"[..1] == "1";
    assert DigitsValue("10") == 10;
    assert "100"[..2] == "10";
    assert DigitsValue("100") == 100;
    assert "1000"[..3] == "100";
  }

  /** Instances of the grammar's rejections: a leading, trailing or doubled
      underscore makes `int` fail (`GroupedDigits` states the rule for every
      string). */
  lemma ParseRejectsMisplacedUnderscore()
    ensures ParseInt("_1") == None && ParseInt("1_") == None && ParseInt("1__0") == None
  {
    assert TrimEnd("_1") == "_1" && TrimStart("_1") == "_1";
    assert TrimEnd("1_") == "1_" && TrimStart("1_") == "1_";
    assert TrimEnd("1__0") == "1__0" && TrimStart("1__0") == "1__0";
    assert !GroupedDigits("1_") by { assert "1_"[1] == '_'; }
    assert !GroupedDigits("1__0") by { assert "1__0"[1] == '_' && !IsDigit("1__0"[2]); }
  }

  lemma {:induction false} NatStringValue(n: nat)
    ensures DigitsValue(NatString(n)) == n
  {
    if n >= 10 {
      NatStringValue(n / 10);
      var s := NatString(n);
      assert s[..|s| - 1] == NatString(n / 10);
    }
  }

  /** A plain run of digits reads as its value. */
  lemma ParsePlainDigits(digits: string)
    requires |digits| > 0 && AllDigits(digits)
    ensures GroupedDigits(digits) && DropUnderscores(digits) == digits
  {
  }

  /** `int(str(n)) == n`: reading back the decimal rendering of an integer
      gives the integer. */
  lemma ParseDecimalString(n: int)
    ensures ParseInt(DecimalString(n)) == Some(n)
  {
    var s := DecimalString(n);
    var digits := NatString(if n < 0 then -n else n);
    NatStringValue(if n < 0 then -n else n);
    ParsePlainDigits(digits);
    assert !IsSpace(s[0]) && !IsSpace(s[|s| - 1]);
    assert TrimEnd(s) == s;
    assert TrimStart(s) == s;
    if n < 0 {
      assert s[0] == '-' && s[1..] == digits;
      assert ReadSigned(s) == Some(n);
    } else {
      assert s == digits && s[0] != '-' && s[0] != '+';
      assert ReadSigned(s) == Some(n);
    }
  }

  /** Distinct integers have distinct decimal renderings, so `str` keys never collide. */
  lemma DecimalStringInjective(a: int, b: int)
    ensures DecimalString(a) == DecimalString(b) ==> a == b
  {
    ParseDecimalString(a);
    ParseDecimalString(b);
  }
}
