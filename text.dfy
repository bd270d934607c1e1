/**
 * Character classes and string helpers that the Python code gets from its
 * standard library: str.split() / str.strip() without arguments, lower(),
 * upper(), the regular-expression classes \s and \d (no re.UNICODE flag, so
 * ASCII only), and int() / str() on decimal digit strings.
 */
module TextUtil {

  /** One byte, as `ord` yields it from a byte string and `chr` accepts it. */
  type Byte = x: nat | x < 256

  /** Whitespace as Python 2's unicode.split() and unicode.strip() see it. */
  predicate IsSpace(c: char) {
    c == ' ' || ('\t' <= c <= '\r') || ('\U{1c}' <= c <= '\U{1f}')
    || c == '\U{85}' || c == '\U{a0}' || c == '\U{1680}' || c == '\U{180e}'
    || ('\U{2000}' <= c <= '\U{200a}') || c == '\U{2028}' || c == '\U{2029}'
    || c == '\U{202f}' || c == '\U{205f}' || c == '\U{3000}'
  }

  /** The class \s of a Python 2 regular expression compiled without re.UNICODE. */
  predicate IsRegexSpace(c: char) {
    c == ' ' || ('\t' <= c <= '\r')
  }

  lemma RegexSpaceIsSpace(c: char)
    ensures IsRegexSpace(c) ==> IsSpace(c)
  {
  }

  /** The class \d of a Python 2 regular expression compiled without re.UNICODE. */
  predicate IsDigit(c: char) {
    '0' <= c <= '9'
  }

  predicate NoSpace(s: string) {
    forall k :: 0 <= k < |s| ==> !IsSpace(s[k])
  }

  /** Lower-case ASCII letters only, as every translation code is. */
  predicate LowerLetters(s: string) {
    forall k :: 0 <= k < |s| ==> 'a' <= s[k] <= 'z'
  }

  /** u''.join(s.split()): every whitespace character removed. */
  function Squash(s: string): (r: string)
    ensures NoSpace(r)
    ensures |r| <= |s|
  {
    if s == [] then [] else (if IsSpace(s[0]) then [] else [s[0]]) + Squash(s[1..])
  }

  lemma {:induction false} SquashNoSpace(s: string)
    requires NoSpace(s)
    ensures Squash(s) == s
  {
    if s != [] {
      SquashNoSpace(s[1..]);
    }
  }

  lemma SquashIdempotent(s: string)
    ensures Squash(Squash(s)) == Squash(s)
  {
    SquashNoSpace(Squash(s));
  }

  lemma {:induction false} SquashAppend(s: string, t: string)
    ensures Squash(s + t) == Squash(s) + Squash(t)
  {
    if s != [] {
      assert (s + t)[0] == s[0] && (s + t)[1..] == s[1..] + t;
      SquashAppend(s[1..], t);
      calc {
        Squash(s + t);
        (if IsSpace(s[0]) then [] else [s[0]]) + Squash(s[1..] + t);
        (if IsSpace(s[0]) then [] else [s[0]]) + (Squash(s[1..]) + Squash(t));
      }
    } else {
      assert s + t == t;
    }
  }

  function LowerChar(c: char): char {
    if 'A' <= c <= 'Z' then (c as int + 32) as char else c
  }

  function UpperChar(c: char): char {
    if 'a' <= c <= 'z' then (c as int - 32) as char else c
  }

  /** s.lower(), for the ASCII letters. */
  function Lower(s: string): (r: string)
    ensures |r| == |s|
  {
    seq(|s|, k requires 0 <= k < |s| => LowerChar(s[k]))
  }

  /** s.upper(), for the ASCII letters. */
  function Upper(s: string): (r: string)
    ensures |r| == |s|
  {
    seq(|s|, k requires 0 <= k < |s| => UpperChar(s[k]))
  }

  lemma UpperIdempotent(s: string)
    ensures Upper(Upper(s)) == Upper(s)
  {
  }

  lemma LowerIdempotent(s: string)
    ensures Lower(Lower(s)) == Lower(s)
  {
  }

  /** Case mapping keeps whitespace where it is, so it commutes with Squash. */
  lemma {:induction false} LowerSquash(s: string)
    ensures Lower(Squash(s)) == Squash(Lower(s))
  {
    if s != [] {
      LowerSquash(s[1..]);
      assert Lower(s)[1..] == Lower(s[1..]);
    }
  }

  lemma {:induction false} UpperSquash(s: string)
    ensures Upper(Squash(s)) == Squash(Upper(s))
  {
    if s != [] {
      UpperSquash(s[1..]);
      assert Upper(s)[1..] == Upper(s[1..]);
    }
  }

  /** Removing whitespace keeps a last character that is not whitespace, at the end. */
  lemma SquashKeepsLastChar(s: string)
    requires |s| > 0 && !IsSpace(s[|s| - 1])
    ensures Squash(s) != [] && Squash(s)[|Squash(s)| - 1] == s[|s| - 1]
  {
    var init := s[..|s| - 1];
    assert s == init + [s[|s| - 1]];
    SquashAppend(init, [s[|s| - 1]]);
  }

  function DropLeadingSpace(s: string): string {
    if s != [] && IsSpace(s[0]) then DropLeadingSpace(s[1..]) else s
  }

  function DropTrailingSpace(s: string): string {
    if s != [] && IsSpace(s[|s| - 1]) then DropTrailingSpace(s[..|s| - 1]) else s
  }

  /** lstrip() removes a prefix of whitespace, and exactly up to the first non-space character. */
  lemma {:induction false} DropLeadingSpaceSpec(s: string)
    ensures var r := DropLeadingSpace(s);
      |r| <= |s| && r == s[|s| - |r|..]
      && (r != [] ==> !IsSpace(r[0]))
      && forall k :: 0 <= k < |s| - |r| ==> IsSpace(s[k])
  {
    if s != [] && IsSpace(s[0]) {
      var t := s[1..];
      DropLeadingSpaceSpec(t);
      var r := DropLeadingSpace(t);
      assert DropLeadingSpace(s) == r;
      assert s[|s| - |r|..] == t[|t| - |r|..];
      forall k | 1 <= k < |s| - |r| ensures IsSpace(s[k]) {
        assert s[k] == t[k - 1];
      }
    }
  }

  /** rstrip() removes a suffix of whitespace, and exactly back to the last non-space character. */
  lemma {:induction false} DropTrailingSpaceSpec(s: string)
    ensures var r := DropTrailingSpace(s);
      |r| <= |s| && r == s[..|r|]
      && (r != [] ==> !IsSpace(r[|r| - 1]))
      && forall k :: |r| <= k < |s| ==> IsSpace(s[k])
  {
    if s != [] && IsSpace(s[|s| - 1]) {
      DropTrailingSpaceSpec(s[..|s| - 1]);
    }
  }

  /** s.strip(): whitespace removed at both ends only. */
  function Strip(s: string): string {
    DropTrailingSpace(DropLeadingSpace(s))
  }

  lemma StripUnpadded(s: string)
    requires s != [] ==> !IsSpace(s[0]) && !IsSpace(s[|s| - 1])
    ensures Strip(s) == s
  {
  }

  lemma LowerKeepsNonCapitals(s: string)
    requires forall k :: 0 <= k < |s| ==> !('A' <= s[k] <= 'Z')
    ensures Lower(s) == s
  {
  }

  /** A string of lower-case letters is its own strip(), lower() and split-and-join. */
  lemma LowerLettersFixed(s: string)
    requires LowerLetters(s)
    ensures Strip(s) == s && Squash(s) == s && Lower(s) == s
  {
    SquashNoSpace(s);
    StripUnpadded(s);
  }

  predicate AllDigits(s: string) {
    forall k :: 0 <= k < |s| ==> IsDigit(s[k])
  }

  /** int(s) for a non-empty run of ASCII digits. */
  function DigitsValue(s: string): nat
    requires AllDigits(s)
  {
    if s == [] then 0 else DigitsValue(s[..|s| - 1]) * 10 + (s[|s| - 1] as int - '0' as int)
  }

  /** str(n): the decimal digits of n, without leading zeros. */
  function NatToDigits(n: nat): (r: string)
    ensures r != [] && AllDigits(r)
  {
    if n < 10 then [('0' as int + n) as char]
    else NatToDigits(n / 10) + [('0' as int + n % 10) as char]
  }

  lemma {:induction false} DigitsRoundTrip(n: nat)
    ensures DigitsValue(NatToDigits(n)) == n
  {
    if n >= 10 {
      var s := NatToDigits(n);
      assert s[..|s| - 1] == NatToDigits(n / 10);
      DigitsRoundTrip(n / 10);
    }
  }
}
