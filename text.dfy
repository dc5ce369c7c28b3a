/**
 * The string primitives of JavaScript that the parsers of the demo lean on:
 * white space as `trim()` and `\s` see it, ASCII lower-casing, `split` on a
 * character class, `includes`, `String(n)` for integers and
 * `Number.parseInt(s, 10)`.
 */
module Text {
  import opened Wrappers

  /** White space and line terminators as JavaScript's `trim()`, `\s` and `parseInt` skip them. */
  predicate IsSpace(c: char) {
    || c == '\t' || c == '\n' || c == '\U{000B}' || c == '\U{000C}' || c == '\r' || c == ' '
    || c == '\U{00A0}' || c == '\U{1680}' || ('\U{2000}' <= c <= '\U{200A}')
    || c == '\U{2028}' || c == '\U{2029}' || c == '\U{202F}' || c == '\U{205F}'
    || c == '\U{3000}' || c == '\U{FEFF}'
  }

  predicate IsBlank(s: string) {
    forall i :: 0 <= i < |s| ==> IsSpace(s[i])
  }

  /** How many white-space characters open `s`. */
  function LeadingSpaces(s: string): (k: nat)
    ensures k <= |s|
    ensures IsBlank(s[..k])
    ensures k < |s| ==> !IsSpace(s[k])
  {
    if s == [] || !IsSpace(s[0]) then 0
    else
      var k := LeadingSpaces(s[1..]);
      assert s[..1 + k] == [s[0]] + s[1..][..k];
      1 + k
  }

  /** How many white-space characters close `s`. */
  function TrailingSpaces(s: string): (k: nat)
    ensures k <= |s|
    ensures IsBlank(s[|s| - k..])
    ensures k < |s| ==> !IsSpace(s[|s| - 1 - k])
  {
    if s == [] || !IsSpace(s[|s| - 1]) then 0
    else
      var k := TrailingSpaces(s[..|s| - 1]);
      TrailingSpacesStep(s, k);
      1 + k
  }

  /** One more white-space character at the end extends the blank tail by one. */
  lemma TrailingSpacesStep(s: string, k: nat)
    requires s != [] && IsSpace(s[|s| - 1]) && k < |s|
    requires IsBlank(s[..|s| - 1][|s| - 1 - k..])
    ensures IsBlank(s[|s| - (k + 1)..])
    ensures k + 1 < |s| ==> s[|s| - 1 - (k + 1)] == s[..|s| - 1][|s| - 2 - k]
  {
    var t := s[..|s| - 1];
    assert s[|s| - (k + 1)..] == t[|t| - k..] + [s[|s| - 1]];
  }

  /** `s` without its leading white space (what `parseInt` skips). */
  function TrimStart(s: string): (r: string)
    ensures |r| <= |s| && r == s[|s| - |r|..]
    ensures r == [] || !IsSpace(r[0])
    ensures IsBlank(s[..|s| - |r|])
  {
    s[LeadingSpaces(s)..]
  }

  /** `String.prototype.trim`: `s` without leading and trailing white space. */
  function Trim(s: string): (r: string)
    ensures |r| <= |s|
    ensures r == [] || (!IsSpace(r[0]) && !IsSpace(r[|r| - 1]))
    ensures r == [] <==> IsBlank(s)
  {
    var t := TrimStart(s);
    var r := t[..|t| - TrailingSpaces(t)];
    assert r == [] ==> IsBlank(s) by {
      if r == [] {
        assert t == t[|t| - TrailingSpaces(t)..];
        assert s == s[..|s| - |t|] + t;
      }
    }
    assert t != [] ==> !IsBlank(s) by {
      if t != [] {
        assert s[|s| - |t|] == t[0] && !IsSpace(t[0]);
      }
    }
    r
  }

  /** Text that does not open with white space is left alone by `TrimStart`. */
  lemma TrimStartKeeps(s: string)
    requires s != [] && !IsSpace(s[0])
    ensures TrimStart(s) == s
  {
  }

  /** A string that has no white space at either end is left alone by `Trim`. */
  lemma TrimKeeps(s: string)
    requires s == [] || (!IsSpace(s[0]) && !IsSpace(s[|s| - 1]))
    ensures Trim(s) == s
  {
  }

  /** Trimming removes exactly the blank padding around a text with no outer white space. */
  lemma TrimPadded(pad1: string, core: string, pad2: string)
    requires IsBlank(pad1) && IsBlank(pad2)
    requires core != [] && !IsSpace(core[0]) && !IsSpace(core[|core| - 1])
    ensures Trim(pad1 + core + pad2) == core
  {
    var s := pad1 + core + pad2;
    assert forall i :: 0 <= i < |pad1| ==> IsSpace(s[i]);
    assert s[|pad1|] == core[0];
    assert LeadingSpaces(s) == |pad1|;
    var t := TrimStart(s);
    assert t == core + pad2;
    assert forall i :: |core| <= i < |t| ==> IsSpace(t[i]);
    assert t[|core| - 1] == core[|core| - 1];
    assert TrailingSpaces(t) == |pad2|;
    assert t[..|core|] == core;
  }

  /** ASCII upper case to lower case; every other character is kept. */
  function LowerChar(c: char): (d: char)
  {
    if 'A' <= c <= 'Z' then (c as int + 32) as char else c
  }

  /** `toLowerCase` restricted to ASCII letters. */
  function Lower(s: string): (r: string)
    ensures |r| == |s|
    ensures forall i :: 0 <= i < |s| ==> r[i] == LowerChar(s[i])
  {
    if s == [] then [] else [LowerChar(s[0])] + Lower(s[1..])
  }

  /** `\d` in a JavaScript regular expression. */
  predicate IsDigit(c: char) {
    '0' <= c <= '9'
  }

  predicate AllDigits(s: string) {
    forall i :: 0 <= i < |s| ==> IsDigit(s[i])
  }

  /** Length of the run of decimal digits that opens `s`. */
  function DigitRun(s: string): (k: nat)
    ensures k <= |s|
    ensures AllDigits(s[..k])
    ensures k < |s| ==> !IsDigit(s[k])
  {
    if s == [] || !IsDigit(s[0]) then 0
    else
      var k := DigitRun(s[1..]);
      assert s[..1 + k] == [s[0]] + s[1..][..k];
      1 + k
  }

  function DigitValue(c: char): nat
    requires IsDigit(c)
  {
    c as int - '0' as int
  }

  function DigitChar(d: nat): (c: char)
    requires d < 10
    ensures IsDigit(c) && DigitValue(c) == d
  {
    ('0' as int + d) as char
  }

  /** The value of a string of decimal digits, most significant first. */
  function DigitsValue(ds: string): nat
    requires AllDigits(ds)
  {
    if ds == [] then 0 else DigitsValue(ds[..|ds| - 1]) * 10 + DigitValue(ds[|ds| - 1])
  }

  /** `String(n)` for a non-negative integer. */
  function NatToString(n: nat): (s: string)
    ensures |s| >= 1 && AllDigits(s)
    ensures DigitsValue(s) == n
  {
    if n < 10 then [DigitChar(n)]
    else
      var s := NatToString(n / 10) + [DigitChar(n % 10)];
      assert s[..|s| - 1] == NatToString(n / 10);
      s
  }

  /** `String(n)` for an integer. */
  function IntToString(n: int): (s: string)
    ensures |s| >= 1 && (IsDigit(s[0]) || s[0] == '-')
    ensures n < 0 <==> s[0] == '-'
    ensures AllDigits(s[1..])
  {
    if n < 0 then
      var s := "-" + NatToString(-n);
      assert s[1..] == NatToString(-n);
      s
    else NatToString(n)
  }

  /** `String(n)` is the sign, if any, and the digits of the magnitude. */
  lemma IntToStringParts(n: int)
    ensures n < 0 ==> IntToString(n) == ['-'] + NatToString(-n)
    ensures n >= 0 ==> IntToString(n) == NatToString(n)
  {
  }

  /** Every character `String(n)` writes is a digit or the leading minus sign. */
  lemma IntToStringChars(n: int)
    ensures var s := IntToString(n);
      forall i :: 0 <= i < |s| ==> IsDigit(s[i]) || (i == 0 && s[i] == '-')
  {
    var s := IntToString(n);
    assert forall i :: 1 <= i < |s| ==> s[i] == s[1..][i - 1];
  }

  /** `String(n)` has no white space to trim. */
  lemma IntToStringTrimmed(n: int)
    ensures IntToString(n) != [] && Trim(IntToString(n)) == IntToString(n)
  {
    var s := IntToString(n);
    assert !IsSpace(s[0]) && !IsSpace(s[|s| - 1]) by {
      IntToStringChars(n);
    }
    TrimKeeps(s);
  }

  /**
   * `Number.parseInt(s, 10)`: leading white space is skipped, then an optional
   * sign, then the longest run of decimal digits; `None` stands for `NaN`
   * (no digit there).
   */
  function ParseInt(s: string): (r: Option<int>)
    ensures r.None? <==> DigitRun(SignStripped(TrimStart(s))) == 0
  {
    var t := TrimStart(s);
    var u := SignStripped(t);
    var k := DigitRun(u);
    if k == 0 then None
    else
      var v: int := DigitsValue(u[..k]);
      if |t| > 0 && t[0] == '-' then Some(-v) else Some(v)
  }

  /** `t` without one leading `-` or `+`. */
  function SignStripped(t: string): string {
    if |t| > 0 && (t[0] == '-' || t[0] == '+') then t[1..] else t
  }

  /** The digit run of `ds + rest` is `ds` when `rest` does not continue it. */
  lemma DigitRunOfPrefix(ds: string, rest: string)
    requires AllDigits(ds)
    requires rest == [] || !IsDigit(rest[0])
    ensures DigitRun(ds + rest) == |ds|
    ensures (ds + rest)[..|ds|] == ds
  {
  }

  /** `parseInt` of text that opens with no white space and, after the sign, with a run of digits. */
  lemma ParseIntOfDigits(s: string, ds: string, rest: string)
    requires TrimStart(s) == s && SignStripped(s) == ds + rest
    requires ds != [] && AllDigits(ds)
    requires rest == [] || !IsDigit(rest[0])
    ensures ParseInt(s) == Some(if |s| > 0 && s[0] == '-' then 0 - DigitsValue(ds) else DigitsValue(ds))
  {
    var u := SignStripped(TrimStart(s));
    assert DigitRun(u) == |ds| > 0 && u[..DigitRun(u)] == ds by {
      DigitRunOfPrefix(ds, rest);
    }
  }

  /** Dropping the minus sign in front of a text. */
  lemma SignDropped(ds: string, rest: string)
    ensures ((['-'] + ds) + rest)[1..] == ds + rest
  {
    assert (['-'] + ds) + rest == ['-'] + (ds + rest);
  }

  /** `String(n)` opens with no white space, whatever follows it. */
  lemma IntToStringOpens(n: int, rest: string)
    ensures TrimStart(IntToString(n) + rest) == IntToString(n) + rest
  {
    var s := IntToString(n) + rest;
    assert s[0] == IntToString(n)[0];
    TrimStartKeeps(s);
  }

  /** Behind the sign of `String(n)` are the digits of its magnitude, and the sign is there exactly when n is negative. */
  lemma IntToStringSign(n: int, rest: string)
    ensures SignStripped(IntToString(n) + rest) == NatToString(if n < 0 then -n else n) + rest
    ensures (IntToString(n) + rest)[0] == '-' <==> n < 0
  {
    IntToStringParts(n);
    if n < 0 {
      SignDropped(NatToString(-n), rest);
    }
  }

  /** `parseInt` reads back what `String` wrote, whatever non-digit text follows. */
  lemma ParseIntOfIntToString(n: int, rest: string)
    requires rest == [] || !IsDigit(rest[0])
    ensures ParseInt(IntToString(n) + rest) == Some(n)
  {
    IntToStringOpens(n, rest);
    IntToStringSign(n, rest);
    ParseIntOfDigits(IntToString(n) + rest, NatToString(if n < 0 then -n else n), rest);
  }

  /** `parseInt(String(n))` gives `n` back. */
  lemma ParseIntRoundTrip(n: int)
    ensures ParseInt(IntToString(n)) == Some(n)
  {
    ParseIntOfIntToString(n, []);
    assert IntToString(n) + [] == IntToString(n);
  }

  /** Index of the first `c` in `s`, or `|s|` when there is none. */
  function IndexOf(s: string, c: char): (k: nat)
    ensures k <= |s| && c !in s[..k]
    ensures k < |s| ==> s[k] == c
  {
    if s == [] then 0
    else if s[0] == c then 0
    else
      var k := IndexOf(s[1..], c);
      assert s[..1 + k] == [s[0]] + s[1..][..k];
      1 + k
  }

  /** The first `c` is found where it first occurs. */
  lemma {:induction false} IndexOfFirst(s: string, c: char, at: nat)
    requires at < |s| && s[at] == c
    requires forall i :: 0 <= i < at ==> s[i] != c
    ensures IndexOf(s, c) == at
  {
    if at > 0 {
      IndexOfFirst(s[1..], c, at - 1);
    }
  }

  /** `String.prototype.includes` for a single character is `in`; this is the one for a word. */
  predicate Contains(s: string, word: string)
    decreases |s|
  {
    |word| <= |s| && (s[..|word|] == word || (|s| > 0 && Contains(s[1..], word)))
  }

  /** Every character of a word that `s` contains occurs in `s`. */
  lemma {:induction false} ContainsHasChars(s: string, word: string, i: nat)
    requires Contains(s, word) && i < |word|
    ensures word[i] in s
    decreases |s|
  {
    if s[..|word|] == word {
      assert s[i] == word[i];
    } else {
      ContainsHasChars(s[1..], word, i);
    }
  }

  /** A text contains what it starts with. */
  lemma ContainsPrefix(word: string, rest: string)
    ensures Contains(word + rest, word)
  {
    assert (word + rest)[..|word|] == word;
  }

  /** `s.split(/[seps]/)`: the pieces between separator characters, at least one of them. */
  function Split(s: string, seps: set<char>): (parts: seq<string>)
    ensures |parts| >= 1
    ensures forall i, j :: 0 <= i < |parts| && 0 <= j < |parts[i]| ==> parts[i][j] !in seps
  {
    if s == [] then [""]
    else
      var rest := Split(s[1..], seps);
      if s[0] in seps then [""] + rest else [[s[0]] + rest[0]] + rest[1..]
  }

  /** `parts.join(sep)`. */
  function Join(parts: seq<string>, sep: char): string
    requires |parts| >= 1
  {
    if |parts| == 1 then parts[0] else parts[0] + [sep] + Join(parts[1..], sep)
  }

  /** Splitting at one separator and joining with it gives the text back. */
  lemma {:induction false} JoinSplit(s: string, sep: char)
    ensures Join(Split(s, {sep}), sep) == s
  {
    if s != [] {
      var rest := Split(s[1..], {sep});
      JoinSplit(s[1..], sep);
      if s[0] != sep {
        if |rest| == 1 {
        } else {
          assert ([[s[0]] + rest[0]] + rest[1..])[1..] == rest[1..];
        }
      }
    }
  }

  /** Joining separator-free pieces and splitting at the separator gives the pieces back. */
  lemma {:induction false} SplitJoin(parts: seq<string>, sep: char)
    requires |parts| >= 1
    requires forall k, i :: 0 <= k < |parts| && 0 <= i < |parts[k]| ==> parts[k][i] != sep
    ensures Split(Join(parts, sep), {sep}) == parts
  {
    if |parts| == 1 {
      SplitNoSeparator(parts[0], {sep});
    } else {
      SplitJoin(parts[1..], sep);
      SplitAt(parts[0], sep, Join(parts[1..], sep), {sep});
      assert [parts[0]] + parts[1..] == parts;
    }
  }

  /** A text without any separator is a single piece. */
  lemma {:induction false} SplitNoSeparator(s: string, seps: set<char>)
    requires forall i :: 0 <= i < |s| ==> s[i] !in seps
    ensures Split(s, seps) == [s]
  {
    if s != [] {
      SplitNoSeparator(s[1..], seps);
      assert [s[0]] + s[1..] == s;
    }
  }

  /** Splitting `a`, a separator and `b` gives the pieces of `a` and then those of `b`. */
  lemma {:induction false} SplitAt(a: string, c: char, b: string, seps: set<char>)
    requires forall i :: 0 <= i < |a| ==> a[i] !in seps
    requires c in seps
    ensures Split(a + [c] + b, seps) == [a] + Split(b, seps)
  {
    if a == [] {
      assert ([c] + b)[1..] == b;
    } else {
      assert (a + [c] + b)[1..] == a[1..] + [c] + b;
      SplitAt(a[1..], c, b, seps);
      assert [a[0]] + a[1..] == a;
    }
  }

  /** Two separator-free pieces around one separator split back into those two pieces. */
  lemma SplitTwo(a: string, c: char, b: string, seps: set<char>)
    requires forall i :: 0 <= i < |a| ==> a[i] !in seps
    requires forall i :: 0 <= i < |b| ==> b[i] !in seps
    requires c in seps
    ensures Split(a + [c] + b, seps) == [a, b]
  {
    SplitAt(a, c, b, seps);
    SplitNoSeparator(b, seps);
  }

  /** `s.replace(/from/g, to)` for single characters. */
  function ReplaceAll(s: string, from: char, to: char): (r: string)
    ensures |r| == |s|
    ensures forall i :: 0 <= i < |s| ==> r[i] == (if s[i] == from then to else s[i])
  {
    if s == [] then [] else [if s[0] == from then to else s[0]] + ReplaceAll(s[1..], from, to)
  }
}
