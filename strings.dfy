/**
 * The handful of Python string operations the modelled code relies on:
 * prefix and suffix tests, `sep.join`, `s.split(c)`, `s.split()`, decimal
 * formatting of an integer (`f'{n}'`) and `int(token)`.
 */
module Strings {
  import opened Wrappers

  predicate StartsWith(s: string, prefix: string) {
    |prefix| <= |s| && s[..|prefix|] == prefix
  }

  predicate EndsWith(s: string, suffix: string) {
    |suffix| <= |s| && s[|s| - |suffix|..] == suffix
  }

  /** `sep.join(parts)` */
  function Join(parts: seq<string>, sep: string): string
    decreases |parts|
  {
    if |parts| == 0 then ""
    else if |parts| == 1 then parts[0]
    else parts[0] + sep + Join(parts[1..], sep)
  }

  /** `s.split(c)` for a one-character separator: empty pieces are kept. */
  function Split(s: string, c: char): (r: seq<string>)
    ensures |r| >= 1
    ensures forall i :: 0 <= i < |r| ==> c !in r[i]
    decreases |s|
  {
    if |s| == 0 then [""]
    else
      var rest := Split(s[1..], c);
      if s[0] == c then [""] + rest else [[s[0]] + rest[0]] + rest[1..]
  }

  /** Splitting a piece free of the separator followed by more text extends the first piece. */
  lemma {:induction false} SplitPrefix(p: string, t: string, c: char)
    requires c !in p
    ensures Split(p + t, c) == [p + Split(t, c)[0]] + Split(t, c)[1..]
    decreases |p|
  {
    if |p| > 0 {
      var r := Split(t, c);
      assert (p + t)[0] == p[0] && (p + t)[1..] == p[1..] + t;
      SplitPrefix(p[1..], t, c);
      var rest := Split(p[1..] + t, c);
      assert rest[0] == p[1..] + r[0] && rest[1..] == r[1..];
      assert [p[0]] + (p[1..] + r[0]) == p + r[0];
    } else {
      var r := Split(t, c);
      assert p + t == t;
      assert p + r[0] == r[0];
      assert r == [r[0]] + r[1..];
    }
  }

  /** Splitting on the separator that joined some separator-free pieces gives them back. */
  lemma {:induction false} SplitJoin(parts: seq<string>, c: char)
    requires |parts| >= 1
    requires forall i :: 0 <= i < |parts| ==> c !in parts[i]
    ensures Split(Join(parts, [c]), c) == parts
    decreases |parts|
  {
    if |parts| == 1 {
      SplitPrefix(parts[0], "", c);
      assert parts[0] + "" == parts[0];
    } else {
      var rest := Join(parts[1..], [c]);
      SplitJoin(parts[1..], c);
      assert Join(parts, [c]) == parts[0] + ([c] + rest);
      SplitPrefix(parts[0], [c] + rest, c);
      assert ([c] + rest)[1..] == rest;
      assert Split([c] + rest, c) == [""] + Split(rest, c);
      assert parts[0] + "" == parts[0];
      assert parts == [parts[0]] + parts[1..];
    }
  }

  /** Splitting at one separator splits the two sides independently. */
  lemma {:induction false} SplitAround(a: string, b: string, c: char)
    ensures Split(a + [c] + b, c) == Split(a, c) + Split(b, c)
    decreases |a|
  {
    if |a| == 0 {
      assert a + [c] + b == [c] + b;
      assert ([c] + b)[1..] == b;
    } else {
      assert (a + [c] + b)[1..] == a[1..] + [c] + b;
      SplitAround(a[1..], b, c);
    }
  }

  /** The characters Python's `str.isspace` accepts. */
  predicate IsSpace(ch: char) {
    ch in {' ', '\t', '\n', '\r', '\U{0B}', '\U{0C}', '\U{1C}', '\U{1D}', '\U{1E}', '\U{1F}',
           '\U{85}', '\U{A0}', '\U{1680}', '\U{2000}', '\U{2001}', '\U{2002}', '\U{2003}',
           '\U{2004}', '\U{2005}', '\U{2006}', '\U{2007}', '\U{2008}', '\U{2009}', '\U{200A}',
           '\U{2028}', '\U{2029}', '\U{202F}', '\U{205F}', '\U{3000}'}
  }

  predicate IsWord(w: string) {
    w != "" && forall i :: 0 <= i < |w| ==> !IsSpace(w[i])
  }

  /** The words of `s`, given that `current` is the word being read so far. */
  function WordsFrom(s: string, current: string): (r: seq<string>)
    requires forall i :: 0 <= i < |current| ==> !IsSpace(current[i])
    ensures forall k :: 0 <= k < |r| ==> IsWord(r[k])
    decreases |s|
  {
    if |s| == 0 then
      if current == "" then [] else [current]
    else if IsSpace(s[0]) then
      (if current == "" then [] else [current]) + WordsFrom(s[1..], "")
    else
      WordsFrom(s[1..], current + [s[0]])
  }

  /** `s.split()`: maximal runs of non-whitespace, in order. */
  function Words(s: string): (r: seq<string>)
    ensures forall k :: 0 <= k < |r| ==> IsWord(r[k])
  {
    WordsFrom(s, "")
  }

  lemma {:induction false} WordsFromPrefix(w: string, t: string, current: string)
    requires forall i :: 0 <= i < |current| ==> !IsSpace(current[i])
    requires forall i :: 0 <= i < |w| ==> !IsSpace(w[i])
    ensures WordsFrom(w + t, current) == WordsFrom(t, current + w)
    decreases |w|
  {
    if |w| == 0 {
      assert w + t == t;
      assert current + w == current;
    } else {
      assert (w + t)[0] == w[0];
      assert (w + t)[1..] == w[1..] + t;
      assert current + w == (current + [w[0]]) + w[1..];
      WordsFromPrefix(w[1..], t, current + [w[0]]);
    }
  }

  /** Splitting space-joined words on whitespace gives the words back. */
  lemma {:induction false} WordsOfJoin(ws: seq<string>)
    requires forall k :: 0 <= k < |ws| ==> IsWord(ws[k])
    ensures Words(Join(ws, " ")) == ws
    decreases |ws|
  {
    if |ws| == 1 {
      WordsFromPrefix(ws[0], "", "");
      assert ws[0] + "" == ws[0];
      assert "" + ws[0] == ws[0];
    } else if |ws| > 1 {
      var rest := Join(ws[1..], " ");
      WordsOfJoin(ws[1..]);
      assert Join(ws, " ") == ws[0] + (" " + rest);
      WordsFromPrefix(ws[0], " " + rest, "");
      assert "" + ws[0] == ws[0];
      assert (" " + rest)[1..] == rest;
      assert ws == [ws[0]] + ws[1..];
    }
  }

  predicate IsDigit(ch: char) {
    '0' <= ch <= '9'
  }

  function DigitChar(d: nat): (ch: char)
    requires d < 10
    ensures IsDigit(ch) && DigitValue(ch) == d
  {
    ('0' as int + d) as char
  }

  function DigitValue(ch: char): nat
    requires IsDigit(ch)
  {
    ch as int - '0' as int
  }

  /** `f'{n}'` for a natural number: its decimal digits, most significant first. */
  function NatToString(n: nat): (r: string)
    ensures |r| >= 1
    ensures forall i :: 0 <= i < |r| ==> IsDigit(r[i])
    decreases n
  {
    if n < 10 then [DigitChar(n)] else NatToString(n / 10) + [DigitChar(n % 10)]
  }

  /** `f'{i}'` for any integer. */
  function IntToString(i: int): string {
    if i < 0 then "-" + NatToString(-i) else NatToString(i)
  }

  predicate IsDigitsOrUnderscores(s: string) {
    forall i :: 0 <= i < |s| ==> IsDigit(s[i]) || s[i] == '_'
  }

  /** The value of a run of digits, ignoring `_` separators. */
  function DecimalValue(s: string): nat
    requires IsDigitsOrUnderscores(s)
    decreases |s|
  {
    if |s| == 0 then 0
    else if s[|s| - 1] == '_' then DecimalValue(s[..|s| - 1])
    else DecimalValue(s[..|s| - 1]) * 10 + DigitValue(s[|s| - 1])
  }

  /** The unsigned body `int()` accepts: ASCII digits, single `_` only between digits. */
  predicate IsDecimalLiteral(s: string) {
    && |s| > 0
    && IsDigitsOrUnderscores(s)
    && IsDigit(s[0]) && IsDigit(s[|s| - 1])
    && forall i :: 0 <= i < |s| - 1 && s[i] == '_' ==> IsDigit(s[i + 1])
  }

  /** `int(token)` for a token without surrounding whitespace; `None` where Python raises `ValueError`. */
  function ParseInt(s: string): (r: Option<int>)
    ensures r.Some? ==> |s| > 0
  {
    if |s| > 0 && (s[0] == '+' || s[0] == '-') then
      if IsDecimalLiteral(s[1..]) then
        var magnitude: int := DecimalValue(s[1..]);
        Some(if s[0] == '-' then -magnitude else magnitude)
      else None
    else if IsDecimalLiteral(s) then Some(DecimalValue(s))
    else None
  }

  lemma {:induction false} DecimalValueOfNat(n: nat)
    ensures IsDigitsOrUnderscores(NatToString(n))
    ensures DecimalValue(NatToString(n)) == n
    decreases n
  {
    var s := NatToString(n);
    if n >= 10 {
      DecimalValueOfNat(n / 10);
      assert s[..|s| - 1] == NatToString(n / 10);
    }
  }

  /** Parsing the decimal form of an integer gives the integer back. */
  lemma ParseIntToString(i: int)
    ensures ParseInt(IntToString(i)) == Some(i)
  {
    var digits := NatToString(if i < 0 then -i else i);
    DecimalValueOfNat(if i < 0 then -i else i);
    assert IsDecimalLiteral(digits) by {
      assert forall k :: 0 <= k < |digits| ==> IsDigit(digits[k]);
    }
    if i < 0 {
      var s := IntToString(i);
      assert s == "-" + digits;
      assert s[0] == '-';
      assert s[1..] == digits;
    } else {
      assert IntToString(i) == digits;
      assert digits[0] != '+' && digits[0] != '-' by { assert IsDigit(digits[0]); }
    }
  }

  lemma IntToStringIsWord(i: int)
    ensures IsWord(IntToString(i))
  {
    var s := NatToString(if i < 0 then -i else i);
    assert forall k :: 0 <= k < |s| ==> !IsSpace(s[k]);
  }
}
