/**
 * The per-line preparation in populate.py: `normalize` for alias keys,
 * the scanner that turns a verse line with private-use style markers
 * into plain text plus one markup byte per character, and the packing
 * of that markup with the collected annotations into the `meta` blob.
 *
 * In the scanner, flag 1 is italic, 2 emphasis and 3 strong emphasis
 * (one at a time, set by a marker pair), and 128 says that an
 * annotation placeholder stood right before the character.
 */
module Markers {
  import opened Wrappers
  import opened TextUtil

  /** normalize(s): every whitespace character removed, then upper-cased. */
  function Normalize(s: string): (r: string)
    ensures NoSpace(r) && |r| <= |s|
  {
    UpperSquash(s);
    Upper(Squash(s))
  }

  lemma NormalizeIdempotent(s: string)
    ensures Normalize(Normalize(s)) == Normalize(s)
  {
    var n := Normalize(s);
    SquashNoSpace(n);
    UpperIdempotent(Squash(s));
  }

  /** Whitespace anywhere in the input makes no difference. */
  lemma NormalizeIgnoresSpace(s: string, w: string, t: string)
    requires forall k :: 0 <= k < |w| ==> IsSpace(w[k])
    ensures Normalize(s + w + t) == Normalize(s + t)
  {
    SquashAppend(s + w, t);
    SquashAppend(s, w);
    SquashAppend(s, t);
    SquashAllSpace(w);
    assert Squash(s) + [] == Squash(s);
  }

  lemma {:induction false} SquashAllSpace(w: string)
    requires forall k :: 0 <= k < |w| ==> IsSpace(w[k])
    ensures Squash(w) == []
  {
    if w != [] {
      SquashAllSpace(w[1..]);
    }
  }

  // ---------------------------------------------------------------------
  // The marker scanner
  // ---------------------------------------------------------------------

  const OpenItalic: char := '\U{E000}'
  const CloseItalic: char := '\U{E001}'
  const OpenEmph: char := '\U{E002}'
  const CloseEmph: char := '\U{E003}'
  const OpenStrong: char := '\U{E004}'
  const CloseStrong: char := '\U{E005}'
  /** Stands where a run of parenthesised CJK annotations was cut out. */
  const Placeholder: char := '\U{E006}'

  predicate IsOpener(c: char) {
    c == OpenItalic || c == OpenEmph || c == OpenStrong
  }

  predicate IsCloser(c: char) {
    c == CloseItalic || c == CloseEmph || c == CloseStrong
  }

  predicate IsStyleMarker(c: char) {
    IsOpener(c) || IsCloser(c)
  }

  /** A character that the scanner copies to the text. */
  predicate IsKept(c: char) {
    !IsStyleMarker(c) && c != Placeholder
  }

  /** The flags an opener sets. */
  function Level(c: char): Byte {
    if c == OpenItalic then 1 else if c == OpenEmph then 2 else if c == OpenStrong then 3 else 0
  }

  function CloserOf(c: char): char {
    if c == OpenItalic then CloseItalic else if c == OpenEmph then CloseEmph else CloseStrong
  }

  datatype ScanError = AssertionFailed

  /** The loop variables: flags, the text so far and the markup so far. */
  datatype Scan = Scan(flags: Byte, text: string, markup: seq<Byte>)

  /** `flags & 128` is non-zero, for a flag byte. */
  predicate Pending(f: Byte) {
    f >= 128
  }

  /** One iteration of `for s in t`, with each `assert` a possible failure. */
  function Step(st: Scan, ch: char): Result<Scan, ScanError> {
    var f := st.flags;
    if ch == OpenItalic then (if f == 0 then Success(st.(flags := 1)) else Failure(AssertionFailed))
    else if ch == CloseItalic then (if f == 1 then Success(st.(flags := 0)) else Failure(AssertionFailed))
    else if ch == OpenEmph then (if f == 0 then Success(st.(flags := 2)) else Failure(AssertionFailed))
    else if ch == CloseEmph then (if f == 2 then Success(st.(flags := 0)) else Failure(AssertionFailed))
    else if ch == OpenStrong then (if f == 0 then Success(st.(flags := 3)) else Failure(AssertionFailed))
    else if ch == CloseStrong then (if f == 3 then Success(st.(flags := 0)) else Failure(AssertionFailed))
    else if ch == Placeholder then (if !Pending(f) then Success(st.(flags := f + 128)) else Failure(AssertionFailed))
    else Success(Scan(f % 128, st.text + [ch], st.markup + [f]))
  }

  /** The loop run over all of t, from flags 0 and empty text and markup. */
  function Run(t: string): Result<Scan, ScanError> {
    if t == [] then Success(Scan(0, [], []))
    else
      var r := Run(t[..|t| - 1]);
      if r.Failure? then r else Step(r.value, t[|t| - 1])
  }

  /** The line's text and markup: after the loop, a pending placeholder adds one byte chr(128). */
  function ScanLine(t: string): Result<(string, seq<Byte>), ScanError> {
    var r := Run(t);
    if r.Failure? then Failure(r.error)
    else if Pending(r.value.flags) then Success((r.value.text, r.value.markup + [128]))
    else Success((r.value.text, r.value.markup))
  }

  /** The scanner loop of populate.py, over the substituted line. */
  method ScanMarkers(t: string) returns (r: Result<(string, seq<Byte>), ScanError>)
    ensures r == ScanLine(t)
  {
    var flags: Byte := 0;
    var text: string := [];
    var markup: seq<Byte> := [];
    var i := 0;
    while i < |t|
      invariant 0 <= i <= |t|
      invariant Run(t[..i]) == Success(Scan(flags, text, markup))
    {
      var ch := t[i];
      assert t[..i + 1][..i] == t[..i];
      if ch == OpenItalic {
        if flags != 0 { FailureSticks(t, i + 1); return Failure(AssertionFailed); }
        flags := 1;
      } else if ch == CloseItalic {
        if flags != 1 { FailureSticks(t, i + 1); return Failure(AssertionFailed); }
        flags := 0;
      } else if ch == OpenEmph {
        if flags != 0 { FailureSticks(t, i + 1); return Failure(AssertionFailed); }
        flags := 2;
      } else if ch == CloseEmph {
        if flags != 2 { FailureSticks(t, i + 1); return Failure(AssertionFailed); }
        flags := 0;
      } else if ch == OpenStrong {
        if flags != 0 { FailureSticks(t, i + 1); return Failure(AssertionFailed); }
        flags := 3;
      } else if ch == CloseStrong {
        if flags != 3 { FailureSticks(t, i + 1); return Failure(AssertionFailed); }
        flags := 0;
      } else if ch == Placeholder {
        if Pending(flags) { FailureSticks(t, i + 1); return Failure(AssertionFailed); }
        flags := flags + 128;
      } else {
        text := text + [ch];
        markup := markup + [flags];
        flags := flags % 128;
      }
      i := i + 1;
    }
    assert t[..i] == t;
    if Pending(flags) {
      markup := markup + [128];
    }
    return Success((text, markup));
  }

  /** Once an assertion has failed, the rest of the line cannot rescue it. */
  lemma {:induction false} FailureSticks(t: string, i: nat)
    requires i <= |t| && Run(t[..i]).Failure?
    ensures Run(t) == Failure(AssertionFailed)
    decreases |t|
  {
    if i < |t| {
      var p := t[..|t| - 1];
      assert p[..i] == t[..i];
      FailureSticks(p, i);
    } else {
      assert t[..i] == t;
      assert Run(t).error == AssertionFailed;
    }
  }

  // ---------------------------------------------------------------------
  // What the scanner accepts and what it produces
  // ---------------------------------------------------------------------

  /** The characters the scanner keeps, in order. */
  function Kept(t: string): string {
    if t == [] then [] else Kept(t[..|t| - 1]) + (if IsKept(t[|t| - 1]) then [t[|t| - 1]] else [])
  }

  /** The style markers of t, in order. */
  function Styles(t: string): string {
    if t == [] then [] else Styles(t[..|t| - 1]) + (if IsStyleMarker(t[|t| - 1]) then [t[|t| - 1]] else [])
  }

  /** What PairsOk says about one position. */
  predicate PairAt(m: string, j: int)
    requires 0 <= j < |m|
  {
    if j % 2 == 0 then IsOpener(m[j]) else IsOpener(m[j - 1]) && m[j] == CloserOf(m[j - 1])
  }

  /** Markers alternate: an opener, then its own closer, and so on (a last opener may stay open). */
  predicate PairsOk(m: string) {
    forall j :: 0 <= j < |m| ==> PairAt(m, j)
  }

  /** Every placeholder but a last one is followed by a kept character. */
  predicate PlaceholdersOk(t: string) {
    forall i :: 0 <= i < |t| - 1 && t[i] == Placeholder ==> IsKept(t[i + 1])
  }

  predicate EndsWithPlaceholder(t: string) {
    t != [] && t[|t| - 1] == Placeholder
  }

  /** The style of an opener still waiting for its closer, else 0. */
  function OpenLevel(m: string): Byte {
    if |m| % 2 == 1 then Level(m[|m| - 1]) else 0
  }

  /** The flags the loop holds after reading t. */
  function FlagsAfter(t: string): Byte {
    OpenLevel(Styles(t)) + (if EndsWithPlaceholder(t) then 128 else 0)
  }

  lemma PairsOkAt(m: string, j: int)
    requires PairsOk(m) && 0 <= j < |m|
    ensures PairAt(m, j)
  {
  }

  lemma PairsOkSnoc(m: string, c: char)
    ensures PairsOk(m + [c]) <==> PairsOk(m) && PairAt(m + [c], |m|)
  {
    var m' := m + [c];
    forall j | 0 <= j < |m|
      ensures PairAt(m', j) <==> PairAt(m, j)
    {
      assert m'[j] == m[j];
      if j > 0 {
        assert m'[j - 1] == m[j - 1];
      }
    }
    if PairsOk(m') {
      forall j | 0 <= j < |m|
        ensures PairAt(m, j)
      {
        PairsOkAt(m', j);
      }
      PairsOkAt(m', |m|);
    }
    if PairsOk(m) && PairAt(m', |m|) {
      forall j | 0 <= j < |m'|
        ensures PairAt(m', j)
      {
        if j < |m| {
          PairsOkAt(m, j);
        }
      }
    }
  }

  lemma PlaceholdersOkSnoc(t: string, c: char)
    ensures PlaceholdersOk(t + [c]) <==> PlaceholdersOk(t) && (EndsWithPlaceholder(t) ==> IsKept(c))
  {
    var t' := t + [c];
    if PlaceholdersOk(t') {
      forall i | 0 <= i < |t| - 1 && t[i] == Placeholder
        ensures IsKept(t[i + 1])
      {
        assert t'[i] == t[i] && t'[i + 1] == t[i + 1];
      }
      if t != [] {
        assert t'[|t| - 1] == t[|t| - 1] && t'[|t|] == c;
      }
    }
    if PlaceholdersOk(t) && (EndsWithPlaceholder(t) ==> IsKept(c)) {
      forall i | 0 <= i < |t'| - 1 && t'[i] == Placeholder
        ensures IsKept(t'[i + 1])
      {
        assert t'[i] == t[i];
        if i < |t| - 1 {
          assert t'[i + 1] == t[i + 1];
        }
      }
    }
  }

  lemma OpenersHaveLevel(c: char)
    ensures IsOpener(c) <==> Level(c) != 0
  {
  }

  /**
   * The scanner succeeds exactly on lines whose style markers pair up and
   * whose placeholders are each followed by a kept character (or end the
   * line); it then holds the flags FlagsAfter, the kept characters as
   * text, and one markup byte per kept character.
   */
  lemma {:induction false} RunState(t: string)
    ensures Run(t).Success? <==> PairsOk(Styles(t)) && PlaceholdersOk(t)
    ensures Run(t).Success? ==>
      Run(t).value.flags == FlagsAfter(t) && Run(t).value.text == Kept(t) && |Run(t).value.markup| == |Kept(t)|
  {
    if t != [] {
      var p, c := t[..|t| - 1], t[|t| - 1];
      assert t == p + [c];
      RunState(p);
      if IsOpener(c) {
        OpenerStep(p, c);
      } else if IsCloser(c) {
        CloserStep(p, c);
      } else {
        OtherStep(p, c);
      }
    }
  }

  /** What RunState states about t. */
  predicate Accepts(t: string) {
    (Run(t).Success? <==> PairsOk(Styles(t)) && PlaceholdersOk(t))
    && (Run(t).Success? ==>
      Run(t).value.flags == FlagsAfter(t) && Run(t).value.text == Kept(t) && |Run(t).value.markup| == |Kept(t)|)
  }

  lemma SnocParts(p: string, c: char)
    ensures (p + [c])[..|p|] == p && (p + [c])[|p|] == c && p + [c] != []
    ensures Run(p + [c]) == if Run(p).Failure? then Run(p) else Step(Run(p).value, c)
    ensures Styles(p + [c]) == Styles(p) + (if IsStyleMarker(c) then [c] else [])
    ensures Kept(p + [c]) == Kept(p) + (if IsKept(c) then [c] else [])
    ensures EndsWithPlaceholder(p + [c]) <==> c == Placeholder
  {
    assert (p + [c])[..|p|] == p;
  }

  lemma OpenerStep(p: string, c: char)
    requires Accepts(p) && IsOpener(c)
    ensures Accepts(p + [c])
  {
    SnocParts(p, c);
    var m := Styles(p);
    PlaceholdersOkSnoc(p, c);
    PairsOkSnoc(m, c);
    assert (m + [c])[|m|] == c;
    if PairsOk(m) && |m| % 2 == 1 {
      PairsOkAt(m, |m| - 1);
      OpenersHaveLevel(m[|m| - 1]);
    }
  }

  lemma CloserStep(p: string, c: char)
    requires Accepts(p) && IsCloser(c)
    ensures Accepts(p + [c])
  {
    SnocParts(p, c);
    var m := Styles(p);
    PlaceholdersOkSnoc(p, c);
    PairsOkSnoc(m, c);
    assert (m + [c])[|m|] == c;
    if |m| % 2 == 1 {
      assert (m + [c])[|m| - 1] == m[|m| - 1];
      if PairsOk(m) {
        PairsOkAt(m, |m| - 1);
      }
    }
  }

  lemma OtherStep(p: string, c: char)
    requires Accepts(p) && !IsStyleMarker(c)
    ensures Accepts(p + [c])
  {
    SnocParts(p, c);
    PlaceholdersOkSnoc(p, c);
    var m := Styles(p);
    assert Styles(p + [c]) == m;
    assert OpenLevel(m) <= 3;
    if Run(p).Success? {
      var f := Run(p).value.flags;
      assert Pending(f) <==> EndsWithPlaceholder(p);
      assert f % 128 == OpenLevel(m);
    }
  }

  /** Scanning never fails on the line as a whole while succeeding on a prefix of it, and vice versa. */
  lemma ScanSucceedsIff(t: string)
    ensures ScanLine(t).Success? <==> PairsOk(Styles(t)) && PlaceholdersOk(t)
    ensures ScanLine(t).Success? ==> ScanLine(t).value.0 == Kept(t)
  {
    RunState(t);
  }

  /** One trailing chr(128) exactly when the line ends with a placeholder. */
  lemma TrailingByte(t: string)
    requires ScanLine(t).Success?
    ensures var (text, markup) := ScanLine(t).value;
      (|markup| == |text| + 1 <==> EndsWithPlaceholder(t))
      && (|markup| == |text| || |markup| == |text| + 1)
      && (EndsWithPlaceholder(t) ==> markup[|text|] == 128)
  {
    RunState(t);
  }

  /**
   * The markup byte of every kept character: the style of the marker pair
   * around it, plus 128 exactly when a placeholder stands right before it.
   */
  lemma {:induction false} MarkupOfKept(t: string, i: nat)
    requires Run(t).Success? && i < |t| && IsKept(t[i])
    ensures |Kept(t[..i])| < |Run(t).value.markup|
    ensures Run(t).value.markup[|Kept(t[..i])|]
      == OpenLevel(Styles(t[..i])) + (if i > 0 && t[i - 1] == Placeholder then 128 else 0)
    decreases |t|
  {
    var p, c := t[..|t| - 1], t[|t| - 1];
    assert t == p + [c];
    RunState(t);
    RunState(p);
    MarkupGrows(t);
    if i < |p| {
      assert p[..i] == t[..i] && p[i] == t[i] && (i > 0 ==> p[i - 1] == t[i - 1]);
      MarkupOfKept(p, i);
    } else {
      assert t[..i] == p;
      assert Run(t).value.markup == Run(p).value.markup + [FlagsAfter(p)];
    }
  }

  /** Reading one more character only appends to the markup. */
  lemma MarkupGrows(t: string)
    requires t != [] && Run(t).Success?
    ensures Run(t[..|t| - 1]).Success?
    ensures Run(t[..|t| - 1]).value.markup <= Run(t).value.markup
  {
    var r := Run(t[..|t| - 1]);
    assert r.Success?;
    StepGrows(r.value, t[|t| - 1]);
  }

  lemma StepGrows(st: Scan, ch: char)
    requires Step(st, ch).Success?
    ensures st.markup <= Step(st, ch).value.markup
  {
  }

  /** Every markup byte is a style 0..3, possibly with 128; never 0xFF. */
  lemma {:induction false} MarkupBytes(t: string)
    requires ScanLine(t).Success?
    ensures forall k :: 0 <= k < |ScanLine(t).value.1| ==> ScanLine(t).value.1[k] % 128 <= 3
  {
    RunState(t);
    var markup := Run(t).value.markup;
    forall k | 0 <= k < |markup|
      ensures markup[k] % 128 <= 3
    {
      RunBytes(t, k);
    }
  }

  lemma {:induction false} RunBytes(t: string, k: nat)
    requires Run(t).Success? && k < |Run(t).value.markup|
    ensures Run(t).value.markup[k] % 128 <= 3 && Run(t).value.flags % 128 <= 3
    decreases |t|
  {
    var p, c := t[..|t| - 1], t[|t| - 1];
    RunState(t);
    RunState(p);
    MarkupGrows(t);
    if k < |Run(p).value.markup| {
      RunBytes(p, k);
    } else {
      assert Run(p).value.flags % 128 <= 3 by {
        var m := Styles(p);
        assert OpenLevel(m) <= 3;
      }
    }
  }

  /** A placeholder anywhere in an accepted line leaves a byte with bit 128 set. */
  lemma PlaceholderMarks(t: string, i: nat)
    requires ScanLine(t).Success? && i < |t| && t[i] == Placeholder
    ensures exists k :: 0 <= k < |ScanLine(t).value.1| && ScanLine(t).value.1[k] >= 128
  {
    RunState(t);
    var markup := ScanLine(t).value.1;
    if i == |t| - 1 {
      TrailingByte(t);
      assert markup[|Kept(t)|] == 128;
    } else {
      assert IsKept(t[i + 1]);
      MarkupOfKept(t, i + 1);
      assert Run(t).value.markup <= markup;
      assert markup[|Kept(t[..i + 1])|] >= 128;
    }
  }

  // ---------------------------------------------------------------------
  // The meta blob
  // ---------------------------------------------------------------------

  const Separator: Byte := 0xFF

  /** markup.strip('\0') is not empty: some byte is non-zero. */
  predicate Marked(markup: seq<Byte>) {
    exists k :: 0 <= k < |markup| && markup[k] != 0
  }

  /** '\xff'.join(parts) */
  function Join(parts: seq<seq<Byte>>): seq<Byte>
    requires parts != []
  {
    if |parts| == 1 then parts[0] else parts[0] + [Separator] + Join(parts[1..])
  }

  /** The inverse of Join: bytes cut at every separator. */
  function Split(bs: seq<Byte>): (r: seq<seq<Byte>>)
    ensures r != []
  {
    if bs == [] then [[]]
    else
      var rest := Split(bs[1..]);
      if bs[0] == Separator then [[]] + rest else [[bs[0]] + rest[0]] + rest[1..]
  }

  predicate NoSeparator(bs: seq<Byte>) {
    forall k :: 0 <= k < |bs| ==> bs[k] != Separator
  }

  lemma {:induction false} SplitPlain(bs: seq<Byte>, rest: seq<Byte>)
    requires NoSeparator(bs)
    ensures Split(bs + [Separator] + rest) == [bs] + Split(rest)
    ensures Split(bs) == [bs]
  {
    if bs != [] {
      assert (bs + [Separator] + rest)[1..] == bs[1..] + [Separator] + rest;
      SplitPlain(bs[1..], rest);
      assert [bs[0]] + bs[1..] == bs;
    } else {
      assert bs + [Separator] + rest == [Separator] + rest;
    }
  }

  lemma {:induction false} SplitJoin(parts: seq<seq<Byte>>)
    requires parts != [] && forall i :: 0 <= i < |parts| ==> NoSeparator(parts[i])
    ensures Split(Join(parts)) == parts
  {
    if |parts| == 1 {
      SplitPlain(parts[0], []);
    } else {
      SplitPlain(parts[0], Join(parts[1..]));
      SplitJoin(parts[1..]);
    }
  }

  /**
   * The meta column: None when no markup byte is set (and then there
   * must be no annotations), else the markup and the annotations joined
   * with 0xFF.
   */
  function Pack(markup: seq<Byte>, extras: seq<seq<Byte>>): Result<Option<seq<Byte>>, ScanError> {
    if Marked(markup) then Success(Some(Join([markup] + extras)))
    else if extras != [] then Failure(AssertionFailed)
    else Success(None)
  }

  /** The meta blob splits back into the markup and the annotations. */
  lemma PackRoundTrip(markup: seq<Byte>, extras: seq<seq<Byte>>)
    requires NoSeparator(markup) && forall i :: 0 <= i < |extras| ==> NoSeparator(extras[i])
    requires Pack(markup, extras).Success? && Pack(markup, extras).value.Some?
    ensures Split(Pack(markup, extras).value.value) == [markup] + extras
  {
    var parts := [markup] + extras;
    forall i | 0 <= i < |parts|
      ensures NoSeparator(parts[i])
    {
      if i > 0 {
        assert parts[i] == extras[i - 1];
      }
    }
    SplitJoin(parts);
  }

  /** A line of the corpus: its text and its meta column. */
  function ProcessLine(t: string, extras: seq<seq<Byte>>): Result<(string, Option<seq<Byte>>), ScanError> {
    var scanned :- ScanLine(t);
    var meta :- Pack(scanned.1, extras);
    Success((scanned.0, meta))
  }

  /** A line that had an annotation cut out never trips the `assert not extra`. */
  lemma AnnotatedLinePacks(t: string, extras: seq<seq<Byte>>, i: nat)
    requires ScanLine(t).Success? && i < |t| && t[i] == Placeholder
    ensures ProcessLine(t, extras).Success?
    ensures ProcessLine(t, extras).value.1.Some?
  {
    PlaceholderMarks(t, i);
  }

  /** The markup of an accepted line never contains the separator, so its meta blob splits back. */
  lemma LineMetaRoundTrip(t: string, extras: seq<seq<Byte>>)
    requires forall i :: 0 <= i < |extras| ==> NoSeparator(extras[i])
    requires ProcessLine(t, extras).Success? && ProcessLine(t, extras).value.1.Some?
    ensures Split(ProcessLine(t, extras).value.1.value) == [ScanLine(t).value.1] + extras
  {
    MarkupBytes(t);
    PackRoundTrip(ScanLine(t).value.1, extras);
  }

  // ---------------------------------------------------------------------
  // Preparing a raw line for the scanner
  // ---------------------------------------------------------------------

  /** U+E000..U+E00F, which a raw verse line must not contain. */
  predicate IsPrivateUse(c: char) {
    '\U{E000}' <= c <= '\U{E00F}'
  }

  /** s.replace(pat, c): occurrences found left to right, never overlapping. */
  function Replace(s: string, pat: string, c: char): string
    requires pat != []
    decreases |s|
  {
    if |s| < |pat| then s
    else if s[..|pat|] == pat then [c] + Replace(s[|pat|..], pat, c)
    else [s[0]] + Replace(s[1..], pat, c)
  }

  /** Replacing brings in c and nothing else, and keeps every character that the pattern does not contain. */
  lemma {:induction false} ReplaceChars(s: string, pat: string, c: char, x: char)
    requires pat != []
    ensures x in Replace(s, pat, c) ==> x in s || x == c
    ensures x in s && x !in pat ==> x in Replace(s, pat, c)
    decreases |s|
  {
    if |s| >= |pat| {
      if s[..|pat|] == pat {
        ReplaceChars(s[|pat|..], pat, c, x);
        assert s == s[..|pat|] + s[|pat|..];
      } else {
        ReplaceChars(s[1..], pat, c, x);
        assert s == [s[0]] + s[1..];
      }
    }
  }

  /** Replacing a single character leaves none of it behind. */
  lemma {:induction false} ReplaceOne(s: string, a: char, c: char)
    requires a != c
    ensures a !in Replace(s, [a], c)
    decreases |s|
  {
    if s != [] {
      assert s[..1] == [s[0]];
      ReplaceOne(s[1..], a, c);
    }
  }

  /**
   * The substitution before the scanner: the line may hold no private-use
   * character (an assertion), then <i> and </i> become the italic markers,
   * and in kjav alone [ ] and { } become the emphasis and strong markers.
   */
  function Substitute(version: string, raw: string): Result<string, ScanError> {
    if exists k :: 0 <= k < |raw| && IsPrivateUse(raw[k]) then Failure(AssertionFailed)
    else
      var t := Replace(Replace(raw, "<i>", OpenItalic), "</i>", CloseItalic);
      if version == "kjav" then
        Success(Replace(Replace(Replace(Replace(t, "[", OpenEmph), "]", CloseEmph), "{", OpenStrong), "}", CloseStrong))
      else Success(t)
  }

  predicate IsBracket(x: char) {
    x == '[' || x == ']' || x == '{' || x == '}'
  }

  /** The replacements for <i> and </i> keep the brackets and bring in no placeholder. */
  lemma ItalicTags(raw: string, x: char)
    requires IsBracket(x) || x == Placeholder
    ensures var t := Replace(Replace(raw, "<i>", OpenItalic), "</i>", CloseItalic);
      x in t <==> x in raw
  {
    var t1 := Replace(raw, "<i>", OpenItalic);
    ReplaceChars(raw, "<i>", OpenItalic, x);
    ReplaceChars(t1, "</i>", CloseItalic, x);
  }

  /** The kjav replacements leave no bracket and bring in no placeholder. */
  lemma KjavBrackets(t: string, x: char)
    requires IsBracket(x) || (x == Placeholder && x !in t)
    ensures x !in Replace(Replace(Replace(Replace(t, "[", OpenEmph), "]", CloseEmph), "{", OpenStrong), "}", CloseStrong)
  {
    var t1 := Replace(t, "[", OpenEmph);
    var t2 := Replace(t1, "]", CloseEmph);
    var t3 := Replace(t2, "{", OpenStrong);
    if x == '[' { ReplaceOne(t, '[', OpenEmph); }
    ReplaceChars(t1, "]", CloseEmph, x);
    if x == ']' { ReplaceOne(t1, ']', CloseEmph); }
    ReplaceChars(t2, "{", OpenStrong, x);
    if x == '{' { ReplaceOne(t2, '{', OpenStrong); }
    ReplaceChars(t3, "}", CloseStrong, x);
    if x == '}' { ReplaceOne(t3, '}', CloseStrong); }
    ReplaceChars(t, "[", OpenEmph, x);
  }

  /**
   * The substitution fails exactly on a private-use character, never
   * leaves a placeholder, keeps the brackets of every version but kjav,
   * and leaves none in kjav.
   */
  lemma SubstituteMarkers(version: string, raw: string, x: char)
    requires IsBracket(x)
    ensures Substitute(version, raw).Failure? <==> exists k :: 0 <= k < |raw| && IsPrivateUse(raw[k])
    ensures Substitute(version, raw).Success? ==> Placeholder !in Substitute(version, raw).value
    ensures Substitute(version, raw).Success? && version != "kjav" ==> (x in Substitute(version, raw).value <==> x in raw)
    ensures Substitute(version, raw).Success? && version == "kjav" ==> x !in Substitute(version, raw).value
  {
    if Substitute(version, raw).Success? {
      var t := Replace(Replace(raw, "<i>", OpenItalic), "</i>", CloseItalic);
      ItalicTags(raw, x);
      ItalicTags(raw, Placeholder);
      forall k | 0 <= k < |raw| ensures raw[k] != Placeholder {
        assert !IsPrivateUse(raw[k]);
      }
      if version == "kjav" {
        KjavBrackets(t, x);
        KjavBrackets(t, Placeholder);
      }
    }
  }

  /** The CJK blocks of the annotation pattern: U+3400..U+4DBF, U+4E00..U+9FFF and U+F900..U+FAFF. */
  predicate IsCjk(c: char) {
    ('\U{3400}' <= c <= '\U{4DBF}') || ('\U{4E00}' <= c <= '\U{9FFF}') || ('\U{F900}' <= c <= '\U{FAFF}')
  }

  /** The length of the run of CJK characters at i. */
  function CjkRun(t: string, i: nat): (n: nat)
    requires i <= |t|
    ensures i + n <= |t|
    decreases |t| - i
  {
    if i < |t| && IsCjk(t[i]) then 1 + CjkRun(t, i + 1) else 0
  }

  /** The run is all CJK, and maximal: the character after it, if any, is not CJK. */
  lemma {:induction false} CjkRunSpec(t: string, i: nat)
    requires i <= |t|
    ensures forall k :: i <= k < i + CjkRun(t, i) ==> IsCjk(t[k])
    ensures i + CjkRun(t, i) < |t| ==> !IsCjk(t[i + CjkRun(t, i)])
    decreases |t| - i
  {
    if i < |t| && IsCjk(t[i]) {
      CjkRunSpec(t, i + 1);
    }
  }

  /**
   * The length of one `\([CJK]+\)` at i, or 0 when none starts there.
   * The run of CJK characters is maximal, and the character after it is
   * not CJK, so a shorter run could not be followed by `)` either.
   */
  function GroupAt(t: string, i: nat): (g: nat)
    requires i <= |t|
    ensures i + g <= |t|
    ensures g == 0 || (g >= 3 && t[i] == '(' && t[i + g - 1] == ')')
  {
    if i < |t| && t[i] == '(' then
      var n := CjkRun(t, i + 1);
      if n > 0 && i + 1 + n < |t| && t[i + 1 + n] == ')' then n + 2 else 0
    else 0
  }

  /** The greedy `(?:\([CJK]+\))+` at i: the length of the longest run of such groups, or 0. */
  function GroupsAt(t: string, i: nat): (g: nat)
    requires i <= |t|
    ensures i + g <= |t|
    ensures g == 0 || (g >= 3 && t[i] == '(' && t[i + g - 1] == ')')
    decreases |t| - i
  {
    var g := GroupAt(t, i);
    if g == 0 then 0 else g + GroupsAt(t, i + g)
  }

  /** A group holds `(`, CJK characters and `)` only. */
  predicate GroupChar(c: char) {
    c == '(' || c == ')' || IsCjk(c)
  }

  lemma GroupAtChars(t: string, i: nat)
    requires i <= |t|
    ensures forall k :: i <= k < i + GroupAt(t, i) ==> GroupChar(t[k])
  {
    if i < |t| {
      CjkRunSpec(t, i + 1);
    }
  }

  lemma {:induction false} GroupsAtChars(t: string, i: nat)
    requires i <= |t|
    ensures forall k :: i <= k < i + GroupsAt(t, i) ==> GroupChar(t[k])
    decreases |t| - i
  {
    var g := GroupAt(t, i);
    GroupAtChars(t, i);
    if g > 0 {
      GroupsAtChars(t, i + g);
    }
  }

  /**
   * re.sub of the annotation pattern, whose callback collects each match:
   * from position i, every match (leftmost first) becomes one placeholder
   * and goes, as written, to the extras.
   */
  function Cut(t: string, i: nat): (string, seq<string>)
    requires i <= |t|
    decreases |t| - i
  {
    if i == |t| then ([], [])
    else
      var g := GroupsAt(t, i);
      if g == 0 then
        var rest := Cut(t, i + 1);
        ([t[i]] + rest.0, rest.1)
      else
        var rest := Cut(t, i + g);
        ([Placeholder] + rest.0, [t[i..i + g]] + rest.1)
  }

  /** The extras put back in place of the placeholders, in order. */
  function Restore(s: string, extras: seq<string>): string
    decreases |s|
  {
    if s == [] then []
    else if s[0] == Placeholder && extras != [] then extras[0] + Restore(s[1..], extras[1..])
    else [s[0]] + Restore(s[1..], extras)
  }

  /**
   * Cutting loses nothing: on a line without placeholders of its own,
   * putting the extras back gives the line, there is one placeholder per
   * extra, and each extra is a run of parenthesised groups.
   */
  lemma {:induction false} CutRestores(t: string, i: nat)
    requires i <= |t|
    requires forall k :: i <= k < |t| ==> t[k] != Placeholder
    ensures Restore(Cut(t, i).0, Cut(t, i).1) == t[i..]
    ensures multiset(Cut(t, i).0)[Placeholder] == |Cut(t, i).1|
    ensures forall e :: e in Cut(t, i).1 ==> |e| >= 3 && e[0] == '(' && e[|e| - 1] == ')'
    decreases |t| - i, 1
  {
    if i < |t| {
      if GroupsAt(t, i) == 0 {
        CutRestoresPlain(t, i);
      } else {
        CutRestoresGroup(t, i);
      }
    }
  }

  /** CutRestores where no group starts at i. */
  lemma {:induction false} CutRestoresPlain(t: string, i: nat)
    requires i < |t| && GroupsAt(t, i) == 0
    requires forall k :: i <= k < |t| ==> t[k] != Placeholder
    ensures Restore(Cut(t, i).0, Cut(t, i).1) == t[i..]
    ensures multiset(Cut(t, i).0)[Placeholder] == |Cut(t, i).1|
    ensures forall e :: e in Cut(t, i).1 ==> |e| >= 3 && e[0] == '(' && e[|e| - 1] == ')'
    decreases |t| - i, 0
  {
    var rest := Cut(t, i + 1);
    CutRestores(t, i + 1);
    assert Cut(t, i) == ([t[i]] + rest.0, rest.1);
    assert ([t[i]] + rest.0)[1..] == rest.0;
    assert t[i..] == [t[i]] + t[i + 1..];
  }

  /** CutRestores where a run of groups starts at i. */
  lemma {:induction false} CutRestoresGroup(t: string, i: nat)
    requires i < |t| && GroupsAt(t, i) > 0
    requires forall k :: i <= k < |t| ==> t[k] != Placeholder
    ensures Restore(Cut(t, i).0, Cut(t, i).1) == t[i..]
    ensures multiset(Cut(t, i).0)[Placeholder] == |Cut(t, i).1|
    ensures forall e :: e in Cut(t, i).1 ==> |e| >= 3 && e[0] == '(' && e[|e| - 1] == ')'
    decreases |t| - i, 0
  {
    var g := GroupsAt(t, i);
    var rest := Cut(t, i + g);
    CutRestores(t, i + g);
    assert Cut(t, i) == ([Placeholder] + rest.0, [t[i..i + g]] + rest.1);
    RestoreGroup(t[i..i + g], rest.0, rest.1);
    SplitAt(t, i, i + g);
  }

  lemma RestoreGroup(e: string, rest: string, extras: seq<string>)
    ensures Restore([Placeholder] + rest, [e] + extras) == e + Restore(rest, extras)
    ensures multiset([Placeholder] + rest)[Placeholder] == multiset(rest)[Placeholder] + 1
  {
    assert ([Placeholder] + rest)[1..] == rest;
    assert ([e] + extras)[1..] == extras;
  }

  lemma SplitAt(t: string, i: nat, j: nat)
    requires i <= j <= |t|
    ensures t[i..] == t[i..j] + t[j..]
  {
  }

  /** A character that no annotation group holds is in the cut line exactly when it was in the line. */
  lemma {:induction false} CutKeeps(t: string, i: nat, x: char)
    requires i <= |t|
    requires !GroupChar(x) && x != Placeholder
    ensures x in Cut(t, i).0 <==> x in t[i..]
    decreases |t| - i, 1
  {
    if i < |t| {
      if GroupsAt(t, i) == 0 {
        CutKeepsPlain(t, i, x);
      } else {
        CutKeepsGroup(t, i, x);
      }
    }
  }

  /** CutKeeps where no group starts at i. */
  lemma {:induction false} CutKeepsPlain(t: string, i: nat, x: char)
    requires i < |t| && GroupsAt(t, i) == 0
    requires !GroupChar(x) && x != Placeholder
    ensures x in Cut(t, i).0 <==> x in t[i..]
    decreases |t| - i, 0
  {
    CutKeeps(t, i + 1, x);
    assert Cut(t, i).0 == [t[i]] + Cut(t, i + 1).0;
    assert t[i..] == [t[i]] + t[i + 1..];
  }

  /** CutKeeps where a run of groups starts at i: x is not in it. */
  lemma {:induction false} CutKeepsGroup(t: string, i: nat, x: char)
    requires i < |t| && GroupsAt(t, i) > 0
    requires !GroupChar(x) && x != Placeholder
    ensures x in Cut(t, i).0 <==> x in t[i..]
    decreases |t| - i, 0
  {
    var g := GroupsAt(t, i);
    CutKeeps(t, i + g, x);
    GroupsAtChars(t, i);
    assert Cut(t, i).0 == [Placeholder] + Cut(t, i + g).0;
    SplitAt(t, i, i + g);
    assert x !in t[i..i + g];
  }

  /** A raw line up to the scanner: substituted, and its annotations cut out. */
  function PrepareLine(version: string, raw: string): Result<(string, seq<string>), ScanError> {
    var t :- Substitute(version, raw);
    Success(Cut(t, 0))
  }

  /** The characters the scanner keeps are those of the line that are not markers. */
  lemma {:induction false} KeptChars(t: string, x: char)
    ensures x in Kept(t) <==> x in t && IsKept(x)
  {
    if t != [] {
      KeptChars(t[..|t| - 1], x);
      assert t == t[..|t| - 1] + [t[|t| - 1]];
    }
  }

  /**
   * A bracket of the raw line reaches the verse text in every version but
   * kjav, and never in kjav, where it marks emphasis instead.
   */
  lemma BracketsReachText(version: string, raw: string, x: char)
    requires IsBracket(x)
    requires PrepareLine(version, raw).Success? && ScanLine(PrepareLine(version, raw).value.0).Success?
    ensures var text := ScanLine(PrepareLine(version, raw).value.0).value.0;
      (version != "kjav" ==> (x in text <==> x in raw)) && (version == "kjav" ==> x !in text)
  {
    PreparedBrackets(version, raw, x);
    ScanKeeps(PrepareLine(version, raw).value.0, x);
  }

  /** BracketsReachText up to the scanner. */
  lemma PreparedBrackets(version: string, raw: string, x: char)
    requires IsBracket(x)
    requires PrepareLine(version, raw).Success?
    ensures var t := PrepareLine(version, raw).value.0;
      (version != "kjav" ==> (x in t <==> x in raw)) && (version == "kjav" ==> x !in t)
  {
    var t := Substitute(version, raw).value;
    SubstituteMarkers(version, raw, x);
    CutKeeps(t, 0, x);
    assert t[0..] == t;
  }

  /** An accepted line's text holds a character that is not a marker exactly when the line does. */
  lemma ScanKeeps(t: string, x: char)
    requires ScanLine(t).Success? && IsKept(x)
    ensures x in ScanLine(t).value.0 <==> x in t
  {
    ScanSucceedsIff(t);
    KeptChars(t, x);
  }

  /** The substituted line comes back from the prepared one by putting the extras back. */
  lemma PrepareRoundTrip(version: string, raw: string)
    requires PrepareLine(version, raw).Success?
    ensures var (t, extras) := PrepareLine(version, raw).value;
      Restore(t, extras) == Substitute(version, raw).value
      && multiset(t)[Placeholder] == |extras|
  {
    var t := Substitute(version, raw).value;
    SubstituteMarkers(version, raw, '[');
    CutRestores(t, 0);
    assert t[0..] == t;
  }

  /**
   * Collected annotations always leave a marked byte, so the `assert not
   * extra` of an accepted line never fails, whatever the extras encode to.
   */
  lemma ExtrasAreMarked(version: string, raw: string, encoded: seq<seq<Byte>>)
    requires PrepareLine(version, raw).Success? && PrepareLine(version, raw).value.1 != []
    requires ScanLine(PrepareLine(version, raw).value.0).Success?
    ensures ProcessLine(PrepareLine(version, raw).value.0, encoded).Success?
    ensures ProcessLine(PrepareLine(version, raw).value.0, encoded).value.1.Some?
  {
    var t := PrepareLine(version, raw).value.0;
    PrepareRoundTrip(version, raw);
    assert Placeholder in multiset(t);
    var i :| 0 <= i < |t| && t[i] == Placeholder;
    AnnotatedLinePacks(t, encoded, i);
  }
}
