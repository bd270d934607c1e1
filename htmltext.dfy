/**
 * The `htmltext` template filter of bible.py: a verse text and its
 * per-character markup flags become a run of HTML tags and text.
 * Flag 1 is <em>, 2 is <strong>, 128 is <i> and the pseudo flag 256,
 * added for every occurrence of the search query, is <mark>.  Tags
 * always nest in the order mark, i, strong, em.
 */
module HtmlText {
  import opened Wrappers
  import opened TextUtil

  datatype Tag = Mark | Italic | Strong | Em

  /** A tag's place in the nesting cascade, outermost first. */
  function Position(t: Tag): nat {
    match t
    case Mark => 0
    case Italic => 1
    case Strong => 2
    case Em => 3
  }

  function Bit(t: Tag): nat {
    match t
    case Mark => 256
    case Italic => 128
    case Strong => 2
    case Em => 1
  }

  /** `flags & Bit(t)` is non-zero. */
  predicate Has(w: nat, t: Tag) {
    (w / Bit(t)) % 2 == 1
  }

  /**
   * A flag word, split into the four bits the renderer looks at and the
   * remaining bits (`rest`, with those four cleared).  The renderer
   * compares whole words, so `rest` takes part in equality.
   */
  datatype Flags = Flags(mark: bool, italic: bool, strong: bool, em: bool, rest: nat)

  /** The rest bits of a word are clear at positions 1, 2, 128 and 256. */
  predicate WellFormed(f: Flags) {
    f.rest % 4 == 0 && f.rest < 128
  }

  /** The integer the flags stand for. */
  function Word(f: Flags): nat {
    f.rest + (if f.mark then 256 else 0) + (if f.italic then 128 else 0)
      + (if f.strong then 2 else 0) + (if f.em then 1 else 0)
  }

  predicate On(f: Flags, t: Tag) {
    match t
    case Mark => f.mark
    case Italic => f.italic
    case Strong => f.strong
    case Em => f.em
  }

  /** Each of the four bits of a well-formed word is the corresponding field. */
  lemma BitsOfWord(f: Flags)
    requires WellFormed(f)
    ensures forall t :: Has(Word(f), t) <==> On(f, t)
  {
    forall t ensures Has(Word(f), t) <==> On(f, t) {
      match t
      case Mark => MarkBit(f);
      case Italic => ItalicBit(f);
      case Strong => StrongBit(f);
      case Em => EmBit(f);
    }
  }

  lemma MarkBit(f: Flags)
    requires WellFormed(f)
    ensures Has(Word(f), Mark) <==> f.mark
  {
    var m := if f.mark then 1 else 0;
    var low := Word(f) - 256 * m;
    assert 0 <= low < 256;
    assert Word(f) / 256 == m;
  }

  lemma ItalicBit(f: Flags)
    requires WellFormed(f)
    ensures Has(Word(f), Italic) <==> f.italic
  {
    var hi := (if f.mark then 2 else 0) + (if f.italic then 1 else 0);
    var low := Word(f) - 128 * hi;
    assert 0 <= low < 128;
    assert Word(f) / 128 == hi;
  }

  lemma StrongBit(f: Flags)
    requires WellFormed(f)
    ensures Has(Word(f), Strong) <==> f.strong
  {
    var q := f.rest / 4;
    var st := if f.strong then 1 else 0;
    var half := (if f.mark then 128 else 0) + (if f.italic then 64 else 0) + 2 * q + st;
    assert Word(f) == 2 * half + (if f.em then 1 else 0);
    assert Word(f) / 2 == half;
    assert half % 2 == st;
  }

  lemma EmBit(f: Flags)
    requires WellFormed(f)
    ensures Has(Word(f), Em) <==> f.em
  {
    var q := f.rest / 4;
    var even := (if f.mark then 128 else 0) + (if f.italic then 64 else 0) + 2 * q + (if f.strong then 1 else 0);
    assert Word(f) == 2 * even + (if f.em then 1 else 0);
  }

  /** Well-formed flags are equal exactly when their words are. */
  lemma WordInjective(f: Flags, g: Flags)
    requires WellFormed(f) && WellFormed(g)
    ensures f == g <==> Word(f) == Word(g)
  {
    if Word(f) == Word(g) {
      BitsOfWord(f);
      BitsOfWord(g);
      assert Has(Word(f), Mark) && On(f, Mark) <==> On(g, Mark);
      assert On(f, Italic) <==> On(g, Italic);
      assert On(f, Strong) <==> On(g, Strong);
      assert On(f, Em) <==> On(g, Em);
    }
  }

  /** The flags of a markup byte, as `map(ord, markup)` yields them. */
  function Decode(b: Byte): (f: Flags)
    ensures WellFormed(f) && !f.mark && Word(f) == b
  {
    var lo, two := b % 128, b % 4;
    assert b == 128 * (b / 128) + lo && lo == 4 * (lo / 4) + two && two == 2 * (two / 2) + b % 2;
    Flags(false, b >= 128, two >= 2, b % 2 == 1, lo - two)
  }

  /** No flag set: the initial `prevflags = 0` and the sentinel's `flags or 0`. */
  const NoFlags := Flags(false, false, false, false, 0)

  /** `flags |= 256`. */
  function SetMark(f: Flags): Flags {
    f.(mark := true)
  }

  /** Setting the mark sets bit 256 of the word and keeps every other bit. */
  lemma SetMarkSetsBit256(f: Flags)
    requires WellFormed(f)
    ensures WellFormed(SetMark(f))
    ensures Has(Word(SetMark(f)), Mark)
    ensures forall t :: t != Mark ==> (Has(Word(SetMark(f)), t) <==> Has(Word(f), t))
  {
    BitsOfWord(f);
    BitsOfWord(SetMark(f));
  }

  datatype Token = Text(s: string) | Open(t: Tag) | Close(t: Tag)

  datatype HtmlError = IndexError

  function TagName(t: Tag): string {
    match t
    case Mark => "mark"
    case Italic => "i"
    case Strong => "strong"
    case Em => "em"
  }

  /** The markup string the tokens stand for (text escaping is left to the template library). */
  function Html(ts: seq<Token>): string {
    if ts == [] then [] else TokenHtml(ts[0]) + Html(ts[1..])
  }

  function TokenHtml(t: Token): string {
    match t
    case Text(x) => x
    case Open(t) => "<" + TagName(t) + ">"
    case Close(t) => "</" + TagName(t) + ">"
  }

  // ---------------------------------------------------------------------
  // Query highlighting
  // ---------------------------------------------------------------------

  predicate OccursAt(s: string, q: string, p: int) {
    0 <= p && p + |q| <= |s| && s[p..p + |q|] == q
  }

  /** Character i lies inside some occurrence of q, overlapping ones included. */
  ghost predicate Covered(s: string, q: string, i: int) {
    exists p :: OccursAt(s, q, p) && p <= i < p + |q|
  }

  /** The same, counting only occurrences starting at or before k. */
  ghost predicate CoveredUpTo(s: string, q: string, i: int, k: int) {
    exists p :: p <= k && OccursAt(s, q, p) && p <= i < p + |q|
  }

  /** Some occurrence runs past the end of the flag list: `markup[i]` raises IndexError. */
  ghost predicate Overflows(s: string, q: string, len: nat) {
    exists p :: OccursAt(s, q, p) && p + |q| > len
  }

  /** str.find(q, start) for a non-empty q: the first occurrence at or after start, or -1. */
  function FindFrom(s: string, q: string, start: nat): (r: int)
    requires q != []
    ensures r == -1 || (start <= r && OccursAt(s, q, r))
    ensures forall p :: start <= p && (r == -1 || p < r) ==> !OccursAt(s, q, p)
    decreases |s| - start
  {
    if start + |q| > |s| then -1
    else if s[start..start + |q|] == q then start
    else FindFrom(s, q, start + 1)
  }

  /** The flags after highlighting: bit 256 added on every covered character. */
  ghost function Highlighted(s: string, q: string, m: seq<Flags>): seq<Flags> {
    seq(|m|, i requires 0 <= i < |m| => if Covered(s, q, i) then SetMark(m[i]) else m[i])
  }

  /**
   * The `if query:` loop: repeatedly find the next occurrence from pos+1
   * and set bit 256 on its characters, in place.  Answers false where
   * Python raises IndexError.
   */
  method HighlightQuery(s: string, m: array<Flags>, q: string) returns (ok: bool)
    requires q != []
    modifies m
    ensures ok <==> !Overflows(s, q, m.Length)
    ensures ok ==> m[..] == Highlighted(s, q, old(m[..]))
  {
    ghost var m0 := m[..];
    var pos := -1;
    while true
      invariant -1 <= pos <= |s|
      invariant pos == -1 || OccursAt(s, q, pos)
      invariant forall p :: p <= pos && OccursAt(s, q, p) ==> p + |q| <= m.Length
      invariant forall i :: 0 <= i < m.Length ==>
        m[i] == if CoveredUpTo(s, q, i, pos) then SetMark(m0[i]) else m0[i]
      decreases |s| - pos
    {
      var next := FindFrom(s, q, pos + 1);
      if next < 0 {
        forall i | 0 <= i < m.Length
          ensures CoveredUpTo(s, q, i, pos) <==> Covered(s, q, i)
        {
          if Covered(s, q, i) {
            var p :| OccursAt(s, q, p) && p <= i < p + |q|;
            assert p <= pos;
          }
        }
        assert m[..] == Highlighted(s, q, m0);
        return true;
      }
      ghost var prev := pos;
      pos := next;
      var i := pos;
      while i < pos + |q|
        invariant pos <= i <= pos + |q|
        invariant i == pos || i <= m.Length
        invariant forall j :: 0 <= j < m.Length ==>
          m[j] == if CoveredUpTo(s, q, j, prev) || pos <= j < i then SetMark(m0[j]) else m0[j]
      {
        if i >= m.Length {
          assert OccursAt(s, q, pos) && pos + |q| > m.Length;
          return false;
        }
        m[i] := SetMark(m[i]);
        i := i + 1;
      }
      forall j | 0 <= j < m.Length
        ensures CoveredUpTo(s, q, j, pos) <==> CoveredUpTo(s, q, j, prev) || pos <= j < pos + |q|
      {
        if CoveredUpTo(s, q, j, pos) && !CoveredUpTo(s, q, j, prev) {
          var p :| p <= pos && OccursAt(s, q, p) && p <= j < p + |q|;
          assert p == pos;
        }
      }
    }
  }

  // ---------------------------------------------------------------------
  // Rendering flags as nested tags
  // ---------------------------------------------------------------------

  /** [t] when `keep` holds and the flags carry t. */
  function Keep(f: Flags, t: Tag, keep: bool): seq<Tag> {
    if keep && On(f, t) then [t] else []
  }

  /** The tags of f at cascade positions k and beyond, outermost first. */
  function TagsFrom(f: Flags, k: nat): seq<Tag> {
    Keep(f, Mark, k <= 0) + Keep(f, Italic, k <= 1) + Keep(f, Strong, k <= 2) + Keep(f, Em, k <= 3)
  }

  /** The tags of f at cascade positions before k, outermost first. */
  function TagsBefore(f: Flags, k: nat): seq<Tag> {
    Keep(f, Mark, 0 < k) + Keep(f, Italic, 1 < k) + Keep(f, Strong, 2 < k) + Keep(f, Em, 3 < k)
  }

  /** The tags open around a character with flags f, outermost first. */
  function StackOf(f: Flags): seq<Tag> {
    TagsFrom(f, 0)
  }

  /** The first cascade position where the two flag words differ; 4 when none does. */
  function FirstChange(a: Flags, b: Flags): (r: nat)
    ensures r <= 4
    ensures forall t :: Position(t) < r ==> (On(a, t) <==> On(b, t))
    ensures forall t :: Position(t) == r ==> (On(a, t) <==> !On(b, t))
  {
    if a.mark != b.mark then 0
    else if a.italic != b.italic then 1
    else if a.strong != b.strong then 2
    else if a.em != b.em then 3
    else 4
  }

  function Reverse<T>(xs: seq<T>): (r: seq<T>)
    ensures |r| == |xs|
  {
    if xs == [] then [] else [xs[|xs| - 1]] + Reverse(xs[..|xs| - 1])
  }

  function Closes(ts: seq<Tag>): seq<Token> {
    if ts == [] then [] else [Close(ts[0])] + Closes(ts[1..])
  }

  function Opens(ts: seq<Tag>): seq<Token> {
    if ts == [] then [] else [Open(ts[0])] + Opens(ts[1..])
  }

  /**
   * The tags emitted between two runs: a change in one bit closes and
   * reopens that tag and every tag nested inside it.
   */
  function Transition(prev: Flags, next: Flags): seq<Token> {
    var k := FirstChange(prev, next);
    Closes(Reverse(TagsFrom(prev, k))) + Opens(TagsFrom(next, k))
  }

  /**
   * The token stream of the render loop from position i on, with the
   * previous flags prev and the pending text cur; the last step is the
   * `(u'', None)` sentinel, which closes everything.
   */
  function RunsFrom(s: string, fl: seq<Flags>, i: nat, prev: Flags, cur: string): seq<Token>
    requires |s| == |fl| && i <= |s|
    decreases |s| - i
  {
    if i == |s| then [Text(cur)] + Transition(prev, NoFlags)
    else if fl[i] != prev then [Text(cur)] + Transition(prev, fl[i]) + RunsFrom(s, fl, i + 1, fl[i], [s[i]])
    else RunsFrom(s, fl, i + 1, prev, cur + [s[i]])
  }

  /** The flags the filter starts from: the markup bytes, or all zero without markup. */
  function InitialFlags(s: string, markup: Option<seq<Byte>>): (r: seq<Flags>)
    ensures markup.None? ==> |r| == |s| && forall i :: 0 <= i < |r| ==> r[i] == NoFlags
    ensures markup.Some? ==> |r| == |markup.value|
    ensures markup.Some? ==> forall i :: 0 <= i < |r| ==> Word(r[i]) == markup.value[i] && !r[i].mark
  {
    match markup
    case None => seq(|s|, i => NoFlags)
    case Some(bytes) => seq(|bytes|, i requires 0 <= i < |bytes| => Decode(bytes[i]))
  }

  function Min(a: nat, b: nat): nat {
    if a < b then a else b
  }

  /** The flags the render loop reads: the initial ones, highlighted when there is a query. */
  ghost function FinalFlags(s: string, markup: Option<seq<Byte>>, query: string): seq<Flags> {
    var m := InitialFlags(s, markup);
    if query != [] then Highlighted(s, query, m) else m
  }

  /** filter_htmltext(s, markup, query), with query "" standing for None as well. */
  ghost function Filter(s: string, markup: Option<seq<Byte>>, query: string): Result<seq<Token>, HtmlError> {
    if s == [] then Success([])
    else if query != [] && Overflows(s, query, |InitialFlags(s, markup)|) then Failure(IndexError)
    else
      var fl := FinalFlags(s, markup, query);
      var n := Min(|s|, |fl|);
      Success(RunsFrom(s[..n], fl[..n], 0, NoFlags, []))
  }

  /** The four `if cascade or changed & bit` blocks: the tags to close and to open, outermost first. */
  method CascadeTags(prev: Flags, flags: Flags) returns (closing: seq<Tag>, opening: seq<Tag>)
    ensures closing == TagsFrom(prev, FirstChange(prev, flags))
    ensures opening == TagsFrom(flags, FirstChange(prev, flags))
  {
    ghost var k := FirstChange(prev, flags);
    closing, opening := [], [];
    var cascade := false;
    // changed & bit is non-zero exactly when the two flag words differ in that bit
    if cascade || On(prev, Mark) != On(flags, Mark) {
      if On(prev, Mark) { closing := closing + [Mark]; }
      if On(flags, Mark) { opening := opening + [Mark]; }
      cascade := true;
    }
    assert cascade <==> k <= 0;
    assert closing == Keep(prev, Mark, k <= 0) && opening == Keep(flags, Mark, k <= 0);
    if cascade || On(prev, Italic) != On(flags, Italic) {
      if On(prev, Italic) { closing := closing + [Italic]; }
      if On(flags, Italic) { opening := opening + [Italic]; }
      cascade := true;
    }
    assert cascade <==> k <= 1;
    assert closing == Keep(prev, Mark, k <= 0) + Keep(prev, Italic, k <= 1);
    assert opening == Keep(flags, Mark, k <= 0) + Keep(flags, Italic, k <= 1);
    if cascade || On(prev, Strong) != On(flags, Strong) {
      if On(prev, Strong) { closing := closing + [Strong]; }
      if On(flags, Strong) { opening := opening + [Strong]; }
      cascade := true;
    }
    assert cascade <==> k <= 2;
    assert closing == Keep(prev, Mark, k <= 0) + Keep(prev, Italic, k <= 1) + Keep(prev, Strong, k <= 2);
    assert opening == Keep(flags, Mark, k <= 0) + Keep(flags, Italic, k <= 1) + Keep(flags, Strong, k <= 2);
    if cascade || On(prev, Em) != On(flags, Em) {
      if On(prev, Em) { closing := closing + [Em]; }
      if On(flags, Em) { opening := opening + [Em]; }
      cascade := true;
    }
  }

  /** filter_htmltext: highlight the query in a fresh flag list, then render runs of equal flags. */
  method FilterHtmlText(s: string, markup: Option<seq<Byte>>, query: string) returns (r: Result<seq<Token>, HtmlError>)
    ensures r == Filter(s, markup, query)
  {
    if s == [] {
      return Success([]);
    }
    var init := InitialFlags(s, markup);
    var m := new Flags[|init|](i requires 0 <= i < |init| => init[i]);
    assert m[..] == init;
    if query != [] {
      var ok := HighlightQuery(s, m, query);
      if !ok {
        return Failure(IndexError);
      }
    }
    assert m[..] == FinalFlags(s, markup, query);
    var n := Min(|s|, m.Length);
    var ss := RenderRuns(s[..n], m[..n]);
    return Success(ss);
  }

  /** The `for ch, flags in zip(s, markup) + [(u'', None)]` loop, over the zipped text and flags. */
  method RenderRuns(text: string, flags: seq<Flags>) returns (ss: seq<Token>)
    requires |text| == |flags|
    ensures ss == RunsFrom(text, flags, 0, NoFlags, [])
  {
    ghost var whole := RunsFrom(text, flags, 0, NoFlags, []);
    ss := [];
    var cur: string := [];
    var prevflags := NoFlags;
    var i := 0;
    while i < |text|
      invariant 0 <= i <= |text|
      invariant ss + RunsFrom(text, flags, i, prevflags, cur) == whole
    {
      ss, cur, prevflags := RenderChar(text, flags, i, ss, cur, prevflags);
      i := i + 1;
    }
    ss := RenderSentinel(text, flags, ss, cur, prevflags);
  }

  /** The `(u'', None)` sentinel: flush the last run and close every open tag. */
  method RenderSentinel(text: string, flags: seq<Flags>, ss: seq<Token>, cur: string, prevflags: Flags)
    returns (ss': seq<Token>)
    requires |text| == |flags|
    ensures ss' == ss + RunsFrom(text, flags, |text|, prevflags, cur)
  {
    var closing, opening := CascadeTags(prevflags, NoFlags);
    assert Closes(Reverse(closing)) + Opens(opening) == Transition(prevflags, NoFlags);
    SentinelTokens(text, flags, prevflags, cur);
    ss' := ss + [Text(cur)] + Closes(Reverse(closing)) + Opens(opening);
  }

  /** One pass of the render loop: the character at i either extends the run or, on a change of flags, starts a new one. */
  method RenderChar(text: string, flags: seq<Flags>, i: nat, ss: seq<Token>, cur: string, prevflags: Flags)
    returns (ss': seq<Token>, cur': string, prevflags': Flags)
    requires |text| == |flags| && i < |text|
    ensures ss' + RunsFrom(text, flags, i + 1, prevflags', cur') == ss + RunsFrom(text, flags, i, prevflags, cur)
  {
    ss', cur', prevflags' := ss, cur, prevflags;
    var f := flags[i];
    if f != prevflags' {
      var closing, opening := CascadeTags(prevflags', f);
      ChangeStep(ss', text, flags, i, prevflags', cur', closing, opening);
      ss' := ss' + [Text(cur')] + Closes(Reverse(closing)) + Opens(opening);
      cur' := [];
      prevflags' := f;
    } else {
      SameTokens(text, flags, i, prevflags', cur');
    }
    cur' := cur' + [text[i]];
  }

  /** A change of flags at i flushes the run so far and emits the tags of the transition. */
  lemma ChangeStep(ss: seq<Token>, text: string, flags: seq<Flags>, i: nat, prev: Flags, cur: string,
                   closing: seq<Tag>, opening: seq<Tag>)
    requires |text| == |flags| && i < |text| && flags[i] != prev
    requires closing == TagsFrom(prev, FirstChange(prev, flags[i]))
    requires opening == TagsFrom(flags[i], FirstChange(prev, flags[i]))
    ensures (ss + [Text(cur)] + Closes(Reverse(closing)) + Opens(opening)) + RunsFrom(text, flags, i + 1, flags[i], [] + [text[i]])
      == ss + RunsFrom(text, flags, i, prev, cur)
  {
    assert Closes(Reverse(closing)) + Opens(opening) == Transition(prev, flags[i]);
    assert [] + [text[i]] == [text[i]];
    Regroup(ss, [Text(cur)], Closes(Reverse(closing)), Opens(opening), RunsFrom(text, flags, i + 1, flags[i], [text[i]]));
    ChangeTokens(text, flags, i, prev, cur);
  }

  lemma Regroup<T>(ss: seq<T>, a: seq<T>, b: seq<T>, c: seq<T>, r: seq<T>)
    ensures ss + a + b + c + r == ss + (a + ((b + c) + r))
  {
  }

  lemma ChangeTokens(s: string, fl: seq<Flags>, i: nat, prev: Flags, cur: string)
    requires |s| == |fl| && i < |s| && fl[i] != prev
    ensures RunsFrom(s, fl, i, prev, cur) == [Text(cur)] + (Transition(prev, fl[i]) + RunsFrom(s, fl, i + 1, fl[i], [s[i]]))
  {
  }

  lemma SameTokens(s: string, fl: seq<Flags>, i: nat, prev: Flags, cur: string)
    requires |s| == |fl| && i < |s| && fl[i] == prev
    ensures RunsFrom(s, fl, i, prev, cur) == RunsFrom(s, fl, i + 1, prev, cur + [s[i]])
  {
  }

  lemma SentinelTokens(s: string, fl: seq<Flags>, prev: Flags, cur: string)
    requires |s| == |fl|
    ensures RunsFrom(s, fl, |s|, prev, cur) == [Text(cur)] + Transition(prev, NoFlags)
  {
  }

  // ---------------------------------------------------------------------
  // What the browser sees: nesting and the tags around each character
  // ---------------------------------------------------------------------

  /** A character together with the tags open around it, outermost first. */
  datatype Cell = Cell(ch: char, tags: seq<Tag>)

  /** The characters read so far and the tags still open. */
  datatype Trace = Trace(cells: seq<Cell>, open: seq<Tag>)

  function Cells(x: string, tags: seq<Tag>): seq<Cell> {
    seq(|x|, i requires 0 <= i < |x| => Cell(x[i], tags))
  }

  function Prefix(cs: seq<Cell>, r: Option<Trace>): Option<Trace> {
    if r.None? then None else Some(Trace(cs + r.value.cells, r.value.open))
  }

  /**
   * Reads a token stream with a stack of open tags.  A closing tag must
   * match the innermost open tag; None marks a stream that is not well
   * nested.
   */
  function Interp(ts: seq<Token>, open: seq<Tag>): Option<Trace>
    decreases |ts|
  {
    if ts == [] then Some(Trace([], open))
    else match ts[0]
      case Text(x) => Prefix(Cells(x, open), Interp(ts[1..], open))
      case Open(t) => Interp(ts[1..], open + [t])
      case Close(t) =>
        if open != [] && open[|open| - 1] == t then Interp(ts[1..], open[..|open| - 1]) else None
  }
  /** Reading a + b is reading a, then reading b from the tags a leaves open. */
  lemma {:induction false} InterpAppend(a: seq<Token>, b: seq<Token>, open: seq<Tag>)
    ensures Interp(a, open).None? ==> Interp(a + b, open).None?
    ensures Interp(a, open).Some? ==>
      Interp(a + b, open) == Prefix(Interp(a, open).value.cells, Interp(b, Interp(a, open).value.open))
    decreases |a|
  {
    if a == [] {
      assert a + b == b;
      var r := Interp(b, open);
      assert r.Some? ==> [] + r.value.cells == r.value.cells;
    } else {
      assert (a + b)[0] == a[0];
      assert (a + b)[1..] == a[1..] + b;
      match a[0]
      case Text(x) =>
        InterpAppend(a[1..], b, open);
        var r1 := Interp(a[1..], open);
        if r1.Some? {
          var r2 := Interp(b, r1.value.open);
          assert r2.Some? ==> Cells(x, open) + (r1.value.cells + r2.value.cells) == (Cells(x, open) + r1.value.cells) + r2.value.cells;
        }
      case Open(t) =>
        InterpAppend(a[1..], b, open + [t]);
      case Close(t) =>
        if open != [] && open[|open| - 1] == t {
          InterpAppend(a[1..], b, open[..|open| - 1]);
        }
    }
  }

  /** Closing the tags of xs innermost first pops exactly them. */
  lemma {:induction false} PopAll(xs: seq<Tag>, base: seq<Tag>)
    ensures Interp(Closes(Reverse(xs)), base + xs) == Some(Trace([], base))
    decreases |xs|
  {
    if xs == [] {
      assert base + xs == base;
    } else {
      var init, last := xs[..|xs| - 1], xs[|xs| - 1];
      var rest := Reverse(init);
      assert Reverse(xs) == [last] + rest;
      assert ([last] + rest)[0] == last && ([last] + rest)[1..] == rest;
      assert Closes(Reverse(xs)) == [Close(last)] + Closes(rest);
      assert ([Close(last)] + Closes(rest))[1..] == Closes(rest);
      assert (base + xs)[..|base + xs| - 1] == base + init;
      PopAll(init, base);
    }
  }

  /** Opening the tags of ys in order pushes exactly them. */
  lemma {:induction false} PushAll(ys: seq<Tag>, base: seq<Tag>)
    ensures Interp(Opens(ys), base) == Some(Trace([], base + ys))
    decreases |ys|
  {
    if ys == [] {
      assert base + ys == base;
    } else {
      var ts := Opens(ys);
      assert ts == [Open(ys[0])] + Opens(ys[1..]);
      assert ts[0] == Open(ys[0]) && ts[1..] == Opens(ys[1..]);
      assert Interp(ts, base) == Interp(ts[1..], base + [ys[0]]);
      PushAll(ys[1..], base + [ys[0]]);
      assert base + [ys[0]] + ys[1..] == base + ys;
    }
  }

  /** Every stack is the tags before position k followed by the tags from k on. */
  lemma StackSplit(f: Flags, k: nat)
    ensures StackOf(f) == TagsBefore(f, k) + TagsFrom(f, k)
  {
    if k == 0 {
      StackSplit0(f);
    } else if k == 1 {
      StackSplit1(f);
    } else if k == 2 {
      StackSplit2(f);
    } else if k == 3 {
      StackSplit3(f);
    } else {
      StackSplit4(f);
      assert TagsBefore(f, k) == TagsBefore(f, 4) && TagsFrom(f, k) == TagsFrom(f, 4);
    }
  }

  lemma StackSplit0(f: Flags)
    ensures StackOf(f) == TagsBefore(f, 0) + TagsFrom(f, 0)
  {
  }

  lemma StackSplit1(f: Flags)
    ensures StackOf(f) == TagsBefore(f, 1) + TagsFrom(f, 1)
  {
  }

  lemma StackSplit2(f: Flags)
    ensures StackOf(f) == TagsBefore(f, 2) + TagsFrom(f, 2)
  {
  }

  lemma StackSplit3(f: Flags)
    ensures StackOf(f) == TagsBefore(f, 3) + TagsFrom(f, 3)
  {
  }

  lemma StackSplit4(f: Flags)
    ensures StackOf(f) == TagsBefore(f, 4) + TagsFrom(f, 4)
  {
  }

  lemma Split4<T>(a: seq<T>, b: seq<T>, c: seq<T>, d: seq<T>)
    ensures a + b + c + d == a + (b + c + d) == (a + b) + (c + d) == (a + b + c) + d
    ensures a == [] ==> a + b + c + d == b + c + d
    ensures a == [] && b == [] ==> a + b + c + d == c + d
    ensures a == [] && b == [] && c == [] ==> a + b + c + d == d
    ensures d == [] ==> a + b + c + d == a + b + c
    ensures c == [] && d == [] ==> a + b + c + d == a + b
    ensures b == [] && c == [] && d == [] ==> a + b + c + d == a
  {
  }

  /** The tags between two runs turn the stack of the old flags into the stack of the new ones. */
  lemma TransitionNests(prev: Flags, next: Flags)
    ensures Interp(Transition(prev, next), StackOf(prev)) == Some(Trace([], StackOf(next)))
  {
    var k := FirstChange(prev, next);
    var common := TagsBefore(prev, k);
    var closing, opening := TagsFrom(prev, k), TagsFrom(next, k);
    var none: seq<Cell> := [];
    assert none + none == none;
    assert TagsBefore(next, k) == common;
    StackSplit(prev, k);
    StackSplit(next, k);
    InterpAppend(Closes(Reverse(closing)), Opens(opening), StackOf(prev));
    PopAll(closing, common);
    PushAll(opening, common);
  }

  lemma StackOfZero()
    ensures StackOf(NoFlags) == []
  {
  }

  /** Characters i.. of s, each inside the tags of its own flags. */
  function Painted(s: string, fl: seq<Flags>, i: nat): seq<Cell>
    requires |s| == |fl| && i <= |s|
  {
    seq(|s| - i, j requires 0 <= j < |s| - i => Cell(s[i + j], StackOf(fl[i + j])))
  }

  lemma TextThen(x: string, rest: seq<Token>, open: seq<Tag>)
    ensures Interp([Text(x)] + rest, open) == Prefix(Cells(x, open), Interp(rest, open))
  {
    assert ([Text(x)] + rest)[0] == Text(x) && ([Text(x)] + rest)[1..] == rest;
  }

  /** The render loop from any point on reads as the pending text, then every remaining character in its own tags, and closes everything. */
  lemma {:induction false} RunsNest(s: string, fl: seq<Flags>, i: nat, prev: Flags, cur: string)
    requires |s| == |fl| && i <= |s|
    ensures Interp(RunsFrom(s, fl, i, prev, cur), StackOf(prev)) == Some(Trace(Cells(cur, StackOf(prev)) + Painted(s, fl, i), []))
    decreases |s| - i, 1
  {
    if i == |s| {
      SentinelNests(s, fl, prev, cur);
    } else if fl[i] != prev {
      RunsNest(s, fl, i + 1, fl[i], [s[i]]);
      ChangeNests(s, fl, i, prev, cur);
    } else {
      RunsNest(s, fl, i + 1, prev, cur + [s[i]]);
      SameNests(s, fl, i, prev, cur);
    }
  }

  lemma SameNests(s: string, fl: seq<Flags>, i: nat, prev: Flags, cur: string)
    requires |s| == |fl| && i < |s| && fl[i] == prev
    requires Interp(RunsFrom(s, fl, i + 1, prev, cur + [s[i]]), StackOf(prev))
      == Some(Trace(Cells(cur + [s[i]], StackOf(prev)) + Painted(s, fl, i + 1), []))
    ensures Interp(RunsFrom(s, fl, i, prev, cur), StackOf(prev)) == Some(Trace(Cells(cur, StackOf(prev)) + Painted(s, fl, i), []))
  {
    SameTokens(s, fl, i, prev, cur);
    CellsStep(s, fl, i, cur);
  }

  lemma CellsStep(s: string, fl: seq<Flags>, i: nat, cur: string)
    requires |s| == |fl| && i < |s|
    ensures Cells(cur + [s[i]], StackOf(fl[i])) + Painted(s, fl, i + 1) == Cells(cur, StackOf(fl[i])) + Painted(s, fl, i)
  {
    var tags := StackOf(fl[i]);
    CellsSnoc(cur, s[i], tags);
    PaintedStep(s, fl, i);
    assert Cells([s[i]], tags) == [Cell(s[i], tags)];
    Regroup3(Cells(cur, tags), [Cell(s[i], tags)], Painted(s, fl, i + 1));
  }

  lemma CellsSnoc(x: string, ch: char, tags: seq<Tag>)
    ensures Cells(x + [ch], tags) == Cells(x, tags) + [Cell(ch, tags)]
  {
  }

  lemma Regroup3<T>(a: seq<T>, b: seq<T>, c: seq<T>)
    ensures (a + b) + c == a + (b + c)
  {
  }

  lemma SentinelNests(s: string, fl: seq<Flags>, prev: Flags, cur: string)
    requires |s| == |fl|
    ensures Interp(RunsFrom(s, fl, |s|, prev, cur), StackOf(prev)) == Some(Trace(Cells(cur, StackOf(prev)) + Painted(s, fl, |s|), []))
  {
    var c := Cells(cur, StackOf(prev));
    assert c + Painted(s, fl, |s|) == c;
    SentinelTokens(s, fl, prev, cur);
    SentinelCloses(prev, cur);
  }

  lemma SentinelCloses(prev: Flags, cur: string)
    ensures Interp([Text(cur)] + Transition(prev, NoFlags), StackOf(prev)) == Some(Trace(Cells(cur, StackOf(prev)), []))
  {
    TransitionNests(prev, NoFlags);
    StackOfZero();
    TextBeforeClosed(cur, Transition(prev, NoFlags), StackOf(prev));
  }

  lemma TextBeforeClosed(x: string, t: seq<Token>, open: seq<Tag>)
    requires Interp(t, open) == Some(Trace([], []))
    ensures Interp([Text(x)] + t, open) == Some(Trace(Cells(x, open), []))
  {
    TextThen(x, t, open);
    assert Cells(x, open) + [] == Cells(x, open);
  }

  lemma ChangeNests(s: string, fl: seq<Flags>, i: nat, prev: Flags, cur: string)
    requires |s| == |fl| && i < |s| && fl[i] != prev
    requires Interp(RunsFrom(s, fl, i + 1, fl[i], [s[i]]), StackOf(fl[i]))
      == Some(Trace(Cells([s[i]], StackOf(fl[i])) + Painted(s, fl, i + 1), []))
    ensures Interp(RunsFrom(s, fl, i, prev, cur), StackOf(prev)) == Some(Trace(Cells(cur, StackOf(prev)) + Painted(s, fl, i), []))
  {
    ChangeTokens(s, fl, i, prev, cur);
    ChangeCloses(prev, fl[i], cur, RunsFrom(s, fl, i + 1, fl[i], [s[i]]), Cells([s[i]], StackOf(fl[i])) + Painted(s, fl, i + 1));
    PaintedStep(s, fl, i);
  }

  lemma ChangeCloses(prev: Flags, next: Flags, cur: string, rest: seq<Token>, tail: seq<Cell>)
    requires Interp(rest, StackOf(next)) == Some(Trace(tail, []))
    ensures Interp([Text(cur)] + (Transition(prev, next) + rest), StackOf(prev)) == Some(Trace(Cells(cur, StackOf(prev)) + tail, []))
  {
    TransitionNests(prev, next);
    InterpAppend(Transition(prev, next), rest, StackOf(prev));
    assert [] + tail == tail;
    TextThen(cur, Transition(prev, next) + rest, StackOf(prev));
  }

  lemma PaintedStep(s: string, fl: seq<Flags>, i: nat)
    requires |s| == |fl| && i < |s|
    ensures Cells([s[i]], StackOf(fl[i])) + Painted(s, fl, i + 1) == Painted(s, fl, i)
  {
  }

  /**
   * The output of the filter is well nested, closes every tag it opens,
   * and shows each character of the text (up to the shorter of text and
   * flags), once and in order, inside exactly the tags its flags select,
   * mark outermost and em innermost.
   */
  lemma FilterRendersEachCharacter(s: string, markup: Option<seq<Byte>>, query: string)
    requires Filter(s, markup, query).Success?
    ensures var fl := FinalFlags(s, markup, query);
      var n := Min(|s|, |fl|);
      Interp(Filter(s, markup, query).value, []) == Some(Trace(seq(n, j requires 0 <= j < n => Cell(s[j], StackOf(fl[j]))), []))
  {
    var fl := FinalFlags(s, markup, query);
    var n := Min(|s|, |fl|);
    if s != [] {
      var tokens := RunsFrom(s[..n], fl[..n], 0, NoFlags, []);
      assert Filter(s, markup, query) == Success(tokens);
      var cells := seq(n, j requires 0 <= j < n => Cell(s[j], StackOf(fl[j])));
      var none: seq<Cell> := [];
      assert Cells([], []) == none;
      assert Painted(s[..n], fl[..n], 0) == cells;
      StackOfZero();
      RunsNest(s[..n], fl[..n], 0, NoFlags, []);
      assert none + cells == cells;
    } else {
      assert n == 0;
    }
  }

  /** With a query, `markup[i] |= 256` lands on exactly the characters inside an occurrence of it. */
  lemma HighlightMarksExactlyQuery(s: string, q: string, m: seq<Byte>, i: nat)
    requires q != [] && i < |m|
    ensures Word(FinalFlags(s, Some(m), q)[i]) == if Covered(s, q, i) then m[i] as nat + 256 else m[i]
  {
    var init := InitialFlags(s, Some(m));
    assert Word(init[i]) == m[i] && !init[i].mark;
  }

  /** Without markup the flag list is as long as the text, so the filter never fails. */
  lemma NoMarkupNeverFails(s: string, query: string)
    ensures Filter(s, None, query).Success?
  {
    forall p | OccursAt(s, query, p)
      ensures p + |query| <= |InitialFlags(s, None)|
    {
    }
  }

  /** The IndexError arises only from markup shorter than the text, with a query matched past its end. */
  lemma FailureNeedsShortMarkup(s: string, markup: Option<seq<Byte>>, query: string)
    requires Filter(s, markup, query).Failure?
    ensures markup.Some? && |markup.value| < |s| && query != []
    ensures exists p :: OccursAt(s, query, p) && p + |query| > |markup.value|
  {
    NoMarkupNeverFails(s, query);
  }

  /** flags [0,1,1,0,128] on "abcde" give a<em>bc</em>d<i>e</i>. */
  lemma ExampleRender(s: string, m: seq<Byte>)
    requires s == "abcde" && m == [0, 1, 1, 0, 128]
    ensures Filter(s, Some(m), "").Success?
    ensures Html(Filter(s, Some(m), "").value) == "a<em>bc</em>" + "d<i>e</i>"
  {
    var fl := InitialFlags(s, Some(m));
    ExampleDecode();
    assert fl[0] == Decode(m[0]) && fl[1] == Decode(m[1]) && fl[2] == Decode(m[2]);
    assert fl[3] == Decode(m[3]) && fl[4] == Decode(m[4]);
    assert ExampleInput(s, fl);
    assert s[..5] == s && fl[..5] == fl;
    assert FinalFlags(s, Some(m), "") == fl;
    ExampleTokens(s, fl);
    ExampleHtml();
  }

  const ExampleTs: seq<Token> := [Text("a"), Open(Em), Text("bc"), Close(Em), Text("d"), Open(Italic), Text("e"), Close(Italic)]

  const EmFlags := NoFlags.(em := true)
  const ItalicFlags := NoFlags.(italic := true)

  lemma ExampleDecode()
    ensures Decode(0) == NoFlags && Decode(1) == EmFlags && Decode(128) == ItalicFlags
  {
  }

  lemma ExampleEm()
    ensures Transition(NoFlags, EmFlags) == [Open(Em)] && Transition(EmFlags, NoFlags) == [Close(Em)]
  {
    var a, b := NoFlags, EmFlags;
    assert FirstChange(a, b) == 3 && FirstChange(b, a) == 3;
    assert Reverse([Em]) == [Em];
  }

  lemma ExampleItalic()
    ensures Transition(NoFlags, ItalicFlags) == [Open(Italic)] && Transition(ItalicFlags, NoFlags) == [Close(Italic)]
  {
    var a, b := NoFlags, ItalicFlags;
    assert FirstChange(a, b) == 1 && FirstChange(b, a) == 1;
    assert Reverse([Italic]) == [Italic];
  }

  predicate ExampleInput(s: string, fl: seq<Flags>) {
    |s| == 5 && |fl| == 5 && s[0] == 'a' && s[1] == 'b' && s[2] == 'c' && s[3] == 'd' && s[4] == 'e'
    && fl[0] == NoFlags && fl[1] == EmFlags && fl[2] == EmFlags && fl[3] == NoFlags && fl[4] == ItalicFlags
  }

  lemma ExampleTail(s: string, fl: seq<Flags>)
    requires ExampleInput(s, fl)
    ensures RunsFrom(s, fl, 4, NoFlags, "d") == [Text("d"), Open(Italic), Text("e"), Close(Italic)]
  {
    ExampleItalic();
    SentinelTokens(s, fl, ItalicFlags, "e");
    ChangeTokens(s, fl, 4, NoFlags, "d");
    assert [s[4]] == "e";
  }

  lemma ExampleThird(s: string, fl: seq<Flags>)
    requires ExampleInput(s, fl)
    ensures RunsFrom(s, fl, 3, EmFlags, "bc") == [Text("bc"), Close(Em), Text("d"), Open(Italic), Text("e"), Close(Italic)]
  {
    ExampleEm();
    ExampleTail(s, fl);
    ChangeTokens(s, fl, 3, EmFlags, "bc");
    assert [s[3]] == "d";
  }

  lemma ExampleMiddle(s: string, fl: seq<Flags>)
    requires ExampleInput(s, fl)
    ensures RunsFrom(s, fl, 2, EmFlags, "b") == [Text("bc"), Close(Em), Text("d"), Open(Italic), Text("e"), Close(Italic)]
  {
    ExampleThird(s, fl);
    SameTokens(s, fl, 2, EmFlags, "b");
    assert "b" + [s[2]] == "bc";
  }

  lemma ExampleSecond(s: string, fl: seq<Flags>)
    requires ExampleInput(s, fl)
    ensures RunsFrom(s, fl, 1, NoFlags, "a") == ExampleTs
  {
    ExampleEm();
    ExampleMiddle(s, fl);
    ChangeTokens(s, fl, 1, NoFlags, "a");
    assert [s[1]] == "b";
  }

  lemma ExampleTokens(s: string, fl: seq<Flags>)
    requires ExampleInput(s, fl)
    ensures RunsFrom(s, fl, 0, NoFlags, []) == ExampleTs
  {
    ExampleSecond(s, fl);
    SameTokens(s, fl, 0, NoFlags, []);
    assert [] + [s[0]] == "a";
  }

  lemma {:induction false} HtmlAppend(a: seq<Token>, b: seq<Token>)
    ensures Html(a + b) == Html(a) + Html(b)
    decreases |a|
  {
    if a == [] {
      assert a + b == b;
    } else {
      assert (a + b)[0] == a[0] && (a + b)[1..] == a[1..] + b;
      HtmlAppend(a[1..], b);
    }
  }

  lemma HtmlSingle(t: Token)
    ensures Html([t]) == TokenHtml(t)
  {
    assert [t][1..] == [];
  }

  lemma ExampleHtml()
    ensures Html(ExampleTs) == "a<em>bc</em>" + "d<i>e</i>"
  {
    var a, b := [Text("a"), Open(Em), Text("bc"), Close(Em)], [Text("d"), Open(Italic), Text("e"), Close(Italic)];
    assert ExampleTs == a + b;
    HtmlAppend(a, b);
    ExampleHtmlEm(a);
    ExampleHtmlItalic(b);
  }

  lemma ExampleHtmlEm(a: seq<Token>)
    requires a == [Text("a"), Open(Em), Text("bc"), Close(Em)]
    ensures Html(a) == "a<em>bc</em>"
  {
    assert TokenHtml(a[1]) == "<em>" && TokenHtml(a[3]) == "</em>";
    assert Html(a[..2]) == "a<em>" by {
      assert a[..2] == [a[0]] + [a[1]];
      HtmlAppend([a[0]], [a[1]]);
      HtmlSingle(a[0]);
      HtmlSingle(a[1]);
    }
    assert Html(a[2..]) == "bc</em>" by {
      assert a[2..] == [a[2]] + [a[3]];
      HtmlAppend([a[2]], [a[3]]);
      HtmlSingle(a[2]);
      HtmlSingle(a[3]);
    }
    assert a == a[..2] + a[2..];
    HtmlAppend(a[..2], a[2..]);
  }

  lemma ExampleHtmlItalic(b: seq<Token>)
    requires b == [Text("d"), Open(Italic), Text("e"), Close(Italic)]
    ensures Html(b) == "d<i>e</i>"
  {
    assert TokenHtml(b[1]) == "<i>" && TokenHtml(b[3]) == "</i>";
    assert Html(b[..2]) == "d<i>" by {
      assert b[..2] == [b[0]] + [b[1]];
      HtmlAppend([b[0]], [b[1]]);
      HtmlSingle(b[0]);
      HtmlSingle(b[1]);
    }
    assert Html(b[2..]) == "e</i>" by {
      assert b[2..] == [b[2]] + [b[3]];
      HtmlAppend([b[2]], [b[3]]);
      HtmlSingle(b[2]);
      HtmlSingle(b[3]);
    }
    assert b == b[..2] + b[2..];
    HtmlAppend(b[..2], b[2..]);
  }
}
