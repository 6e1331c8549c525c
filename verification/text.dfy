/** The few Python string operations the core relies on, over `seq<char>`:
    `str.split()`, `str.isdigit()`, `int()`, `str()`, `str.startswith`,
    `str.lower()` and `str.isupper()`. Digits and letter case are ASCII: `isdigit()`
    here accepts `0`-`9` only, not the other Unicode digits Python's accepts. */
module Text {
  import opened Common

  /** Python's `str.isspace()`: the characters `str.split()` splits on. */
  predicate IsSpace(c: char)
  {
    var n := c as int;
    (9 <= n <= 13) || (28 <= n <= 32) || n == 0x85 || n == 0xA0 || n == 0x1680
    || (0x2000 <= n <= 0x200A) || n == 0x2028 || n == 0x2029 || n == 0x202F
    || n == 0x205F || n == 0x3000
  }

  predicate NoSpace(s: string)
  {
    forall i :: 0 <= i < |s| ==> !IsSpace(s[i])
  }

  // ---------------------------------------------------------------------------
  // str.split() with no separator

  /** Splits `s`, with `word` the part of the current token already read. */
  function SplitFrom(s: string, word: string): (parts: seq<string>)
    requires NoSpace(word)
    ensures forall k :: 0 <= k < |parts| ==> |parts[k]| > 0 && NoSpace(parts[k])
    decreases |s|
  {
    if |s| == 0 then
      (if |word| == 0 then [] else [word])
    else if IsSpace(s[0]) then
      (if |word| == 0 then SplitFrom(s[1..], []) else [word] + SplitFrom(s[1..], []))
    else
      SplitFrom(s[1..], word + [s[0]])
  }

  /** `s.split()`: the maximal runs of non-whitespace characters, in order. */
  function Split(s: string): (parts: seq<string>)
    ensures forall k :: 0 <= k < |parts| ==> |parts[k]| > 0 && NoSpace(parts[k])
  {
    SplitFrom(s, [])
  }

  lemma {:induction false} SplitFromWord(w: string, rest: string, word: string)
    requires NoSpace(word) && NoSpace(w)
    ensures SplitFrom(w + rest, word) == SplitFrom(rest, word + w)
    decreases |w|
  {
    if |w| == 0 {
      assert w + rest == rest;
      assert word + w == word;
    } else {
      assert (w + rest)[0] == w[0];
      assert (w + rest)[1..] == w[1..] + rest;
      SplitFromWord(w[1..], rest, word + [w[0]]);
      assert word + [w[0]] + w[1..] == word + w;
    }
  }

  /** A single token splits into itself. */
  lemma SplitOneToken(w: string)
    requires |w| > 0 && NoSpace(w)
    ensures Split(w) == [w]
  {
    SplitFromWord(w, [], []);
    assert w + [] == w;
    assert [] + w == w;
  }

  /** A token followed by one blank splits off in front of the rest. */
  lemma SplitCons(a: string, rest: string)
    requires |a| > 0 && NoSpace(a)
    ensures Split(a + " " + rest) == [a] + Split(rest)
  {
    SplitFromWord(a, " " + rest, []);
    assert a + " " + rest == a + (" " + rest);
    assert [] + a == a;
    var t := " " + rest;
    assert t[1..] == rest;
  }

  /** Joining two tokens with one blank and splitting again gives them back. */
  lemma SplitTwoTokens(a: string, b: string)
    requires |a| > 0 && NoSpace(a) && |b| > 0 && NoSpace(b)
    ensures Split(a + " " + b) == [a, b]
  {
    SplitCons(a, b);
    SplitOneToken(b);
  }

  /** `" ".join(toks)`. */
  function Join(toks: seq<string>): string
  {
    if |toks| == 0 then []
    else if |toks| == 1 then toks[0]
    else toks[0] + " " + Join(toks[1..])
  }

  /** Splitting undoes joining with blanks: tokens that are non-empty and
      free of whitespace come back as they were, in order. */
  lemma {:induction false} SplitJoin(toks: seq<string>)
    requires forall k :: 0 <= k < |toks| ==> |toks[k]| > 0 && NoSpace(toks[k])
    ensures Split(Join(toks)) == toks
  {
    if |toks| == 1 {
      SplitOneToken(toks[0]);
    } else if |toks| > 1 {
      SplitJoin(toks[1..]);
      SplitCons(toks[0], Join(toks[1..]));
      assert [toks[0]] + toks[1..] == toks;
    }
  }

  /** Leading whitespace is skipped. */
  lemma SplitSkipsSpace(c: char, rest: string)
    requires IsSpace(c)
    ensures Split([c] + rest) == Split(rest)
  {
    assert ([c] + rest)[1..] == rest;
  }

  /** A word ended by any whitespace character is split off in front of the
      rest. With `SplitSkipsSpace` and `SplitOneToken` this fixes `Split` on
      every string: the maximal runs of non-whitespace characters, in order. */
  lemma SplitWordThenSpace(a: string, c: char, rest: string)
    requires |a| > 0 && NoSpace(a) && IsSpace(c)
    ensures Split(a + [c] + rest) == [a] + Split(rest)
  {
    SplitFromWord(a, [c] + rest, []);
    assert a + [c] + rest == a + ([c] + rest);
    assert [] + a == a;
    assert ([c] + rest)[1..] == rest;
  }

  // ---------------------------------------------------------------------------
  // Digits, str() and int()

  predicate IsDigit(c: char) { '0' <= c <= '9' }

  predicate DigitsOnly(s: string)
  {
    forall i :: 0 <= i < |s| ==> IsDigit(s[i])
  }

  /** Python's `str.isdigit()`: non-empty and made of digits. */
  predicate IsDigitString(s: string)
  {
    |s| > 0 && DigitsOnly(s)
  }

  function DigitChar(d: nat): (c: char)
    requires d < 10
    ensures IsDigit(c)
  {
    ('0' as int + d) as char
  }

  /** The value of a decimal digit string; the empty string is 0. */
  function DigitsValue(s: string): (v: nat)
    requires DigitsOnly(s)
  {
    if |s| == 0 then 0
    else DigitsValue(s[..|s|-1]) * 10 + ((s[|s|-1] as int) - ('0' as int))
  }

  /** Python's `str(n)` for a natural number. */
  function NatToString(n: nat): (s: string)
    ensures IsDigitString(s)
  {
    if n < 10 then [DigitChar(n)] else NatToString(n / 10) + [DigitChar(n % 10)]
  }

  lemma {:induction false} NatToStringRoundTrip(n: nat)
    ensures DigitsValue(NatToString(n)) == n
  {
    var s := NatToString(n);
    if n < 10 {
    } else {
      var p := NatToString(n / 10);
      assert s[..|s|-1] == p;
      NatToStringRoundTrip(n / 10);
    }
  }

  /** The body of an integer literal as Python's `int()` reads it: digits,
      where a single `_` may sit between two digits. */
  predicate DigitGroups(t: string)
  {
    |t| > 0 && forall i :: 0 <= i < |t| ==> GroupChar(t, i)
  }

  /** Position `i` of `t` holds a digit, or an underscore between two digits. */
  predicate GroupChar(t: string, i: nat)
    requires i < |t|
  {
    IsDigit(t[i]) || (t[i] == '_' && 0 < i < |t| - 1 && IsDigit(t[i-1]) && IsDigit(t[i+1]))
  }

  function DropUnderscores(t: string): (d: string)
    requires forall i :: 0 <= i < |t| ==> IsDigit(t[i]) || t[i] == '_'
    ensures DigitsOnly(d)
    ensures |d| <= |t|
  {
    if |t| == 0 then []
    else if t[0] == '_' then DropUnderscores(t[1..])
    else [t[0]] + DropUnderscores(t[1..])
  }

  lemma {:induction false} DropUnderscoresOfDigits(t: string)
    requires DigitsOnly(t)
    ensures DropUnderscores(t) == t
  {
    if |t| > 0 {
      DropUnderscoresOfDigits(t[1..]);
      assert [t[0]] + t[1..] == t;
    }
  }

  /** Python's `int(token)` in base 10 for a token without whitespace:
      an optional sign and a digit body; `None` where Python raises `ValueError`. */
  function ParseInt(t: string): (r: Option<int>)
    ensures IsDigitString(t) ==> r == Some(DigitsValue(t))
    ensures |t| == 0 ==> r == None
  {
    var signed := |t| > 0 && (t[0] == '+' || t[0] == '-');
    var body := if signed then t[1..] else t;
    if !DigitGroups(body) then None
    else
      assert forall i :: 0 <= i < |body| ==> IsDigit(body[i]) || body[i] == '_' by {
        forall i | 0 <= i < |body| ensures IsDigit(body[i]) || body[i] == '_' {
          assert GroupChar(body, i);
        }
      }
      var v: int := DigitsValue(DropUnderscores(body));
      assert IsDigitString(t) ==> !signed && body == t && DropUnderscores(body) == t by {
        if IsDigitString(t) { DropUnderscoresOfDigits(t); }
      }
      if signed && t[0] == '-' then Some(0 - v) else Some(v)
  }

  // ---------------------------------------------------------------------------
  // Prefixes and letter case

  /** `s.startswith(p)`. */
  predicate StartsWith(s: string, p: string)
  {
    |p| <= |s| && s[..|p|] == p
  }

  predicate IsUpperLetter(c: char) { 'A' <= c <= 'Z' }
  predicate IsLowerLetter(c: char) { 'a' <= c <= 'z' }

  function LowerChar(c: char): (d: char)
    ensures !IsUpperLetter(d)
    ensures IsUpperLetter(c) ==> d as int == c as int + 32
    ensures !IsUpperLetter(c) ==> d == c
  {
    if IsUpperLetter(c) then (c as int + 32) as char else c
  }

  /** `s.lower()`, folding the ASCII letters. */
  function Lower(s: string): (r: string)
    ensures |r| == |s|
    ensures forall i :: 0 <= i < |s| ==> r[i] == LowerChar(s[i])
  {
    seq(|s|, i requires 0 <= i < |s| => LowerChar(s[i]))
  }

  /** A string without upper-case letters is its own lower-case form. */
  lemma LowerFixed(s: string)
    requires forall i :: 0 <= i < |s| ==> !IsUpperLetter(s[i])
    ensures Lower(s) == s
  {
  }

  /** Lowering is idempotent: a lowered string lowers to itself. */
  lemma LowerIdempotent(s: string)
    ensures Lower(Lower(s)) == Lower(s)
  {
    assert forall i :: 0 <= i < |s| ==> LowerChar(LowerChar(s[i])) == LowerChar(s[i]);
  }

  /** `s.isupper()`: at least one cased character and no lower-case one. */
  predicate IsUpper(s: string)
  {
    && (exists i :: 0 <= i < |s| && (IsUpperLetter(s[i]) || IsLowerLetter(s[i])))
    && (forall i :: 0 <= i < |s| ==> !IsLowerLetter(s[i]))
  }

  /** `isupper()` through `lower()`: a code is upper case exactly when it has
      no lower-case letter and lowering it changes it. */
  lemma IsUpperLowerIff(s: string)
    ensures IsUpper(s) <==> (Lower(s) != s && forall i :: 0 <= i < |s| ==> !IsLowerLetter(s[i]))
  {
    if IsUpper(s) {
      var i :| 0 <= i < |s| && (IsUpperLetter(s[i]) || IsLowerLetter(s[i]));
      assert Lower(s)[i] != s[i];
    }
    if Lower(s) != s {
      var i :| 0 <= i < |s| && Lower(s)[i] != s[i];
      assert IsUpperLetter(s[i]);
    }
  }
}
